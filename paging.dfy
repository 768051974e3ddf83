/** The paging arithmetic shared by the attempt history and the admin
    listings: `parseInt(query) || default` for page and limit,
    `skip = (page - 1) * limit`, `pages = Math.ceil(total / limit)`, and the
    database's `skip(...).limit(...)` window. */
module Paging {
  import opened Common
  import opened Strings

  /** `parseInt(raw) || fallback`: a missing parameter, a value that is not
      a number and a value that reads as 0 all give the fallback. */
  function QueryInt(raw: Option<string>, fallback: int): (n: int)
    ensures raw.None? ==> n == fallback
    ensures raw.Some? ==>
              (n == fallback <== ParseInt(raw.value).None? || ParseInt(raw.value) == Some(0))
    ensures raw.Some? && ParseInt(raw.value).Some? && ParseInt(raw.value) != Some(0) ==>
              n == ParseInt(raw.value).value
    ensures fallback != 0 ==> n != 0
  {
    if raw.None? then fallback
    else match ParseInt(raw.value)
      case None => fallback
      case Some(v) => if v == 0 then fallback else v
  }

  /** A non-zero number written out by `String(n)` is read back as itself;
      "0" gives the fallback. */
  lemma QueryIntShow(n: int, fallback: int)
    ensures QueryInt(Some(Show(n)), fallback) == if n == 0 then fallback else n
  {
    ParseIntShow(n);
  }

  datatype PageRequest = PageRequest(page: int, limit: int, skip: int)

  /** Page and limit from the query (defaults 1 and 10) and the number of
      records to skip. */
  function PageRequestOf(pageRaw: Option<string>, limitRaw: Option<string>): (p: PageRequest)
    ensures p.page == QueryInt(pageRaw, 1) && p.limit == QueryInt(limitRaw, 10)
    ensures p.page != 0 && p.limit != 0
    ensures p.skip == (p.page - 1) * p.limit
  {
    var page := QueryInt(pageRaw, 1);
    var limit := QueryInt(limitRaw, 10);
    PageRequest(page, limit, (page - 1) * limit)
  }

  /** Without query parameters the first ten records are asked for. */
  lemma DefaultPageRequest()
    ensures PageRequestOf(None, None) == PageRequest(1, 10, 0)
  {
  }

  /** `Math.ceil(total / limit)`. */
  function PageCount(total: nat, limit: int): (n: int)
    requires limit != 0
    ensures limit > 0 ==> (n - 1) * limit < total <= n * limit
    ensures limit < 0 ==> n <= 0
  {
    if limit > 0 then (total + limit - 1) / limit else -(total / -limit)
  }

  /** `.skip(skip).limit(limit)`: the database refuses a negative skip, and
      reads a negative limit as its absolute value. */
  function Window<T>(s: seq<T>, skip: int, limit: int): (r: Result<seq<T>>)
    requires limit != 0
    ensures r.Err? <==> skip < 0
    ensures r.Ok? ==> |r.value| == Max(0, Min(|s| - skip, if limit > 0 then limit else -limit))
    ensures r.Ok? ==> forall k :: 0 <= k < |r.value| ==> r.value[k] == s[skip + k]
  {
    if skip < 0 then Err(Failure(500, "skip must be non-negative"))
    else
      var size := if limit > 0 then limit else -limit;
      var lo := Min(skip, |s|);
      var hi := Min(skip + size, |s|);
      Ok(s[lo..hi])
  }

  /** A window holds only records of the sequence it was cut from. */
  lemma WindowMembers<T>(s: seq<T>, skip: int, limit: int)
    requires limit != 0
    ensures Window(s, skip, limit).Ok? ==> forall x :: x in Window(s, skip, limit).value ==> x in s
  {
    if skip >= 0 {
      var w := Window(s, skip, limit).value;
      forall x | x in w ensures x in s {
        var k :| 0 <= k < |w| && w[k] == x;
        assert s[skip + k] == x;
      }
    }
  }

  /** Record `i` falls on page `i / limit + 1`, whose first record is at
      `(i / limit) * limit`, and that page is within the page count. */
  lemma PageOfRecord(total: nat, limit: int, i: nat)
    requires limit > 0 && i < total
    ensures 0 <= (i / limit) * limit && i == (i / limit) * limit + i % limit
    ensures 1 <= i / limit + 1 <= PageCount(total, limit)
  {
    var q := i / limit;
    var n := PageCount(total, limit);
    assert q * limit <= i < total <= n * limit;
    assert limit * (n - q) == n * limit - q * limit;
    PositiveFactor(limit, n - q);
  }

  /** With a positive limit every record is on exactly one page: record `i`
      is item `i % limit` of page `i / limit + 1`, and that page is within
      the page count. */
  lemma RecordOnItsPage<T>(s: seq<T>, limit: int, i: nat)
    requires limit > 0 && i < |s|
    ensures var page := i / limit + 1;
            var w := Window(s, (page - 1) * limit, limit);
            w.Ok? && i % limit < |w.value| && w.value[i % limit] == s[i]
            && 1 <= page <= PageCount(|s|, limit)
  {
    PageOfRecord(|s|, limit, i);
    var start := (i / limit) * limit;
    var r := i % limit;
    assert (i / limit + 1 - 1) * limit == start;
    var w := Window(s, start, limit);
    assert w.Ok? && |w.value| == Min(|s| - start, limit);
    assert w.value[r] == s[start + r];
  }
}
