/** The database's `sort(...)` on query results, modelled as a stable
    insertion sort on a lexicographic key of three integers. */
module Sorting {

  /** A sort key, compared field by field. */
  datatype Key = Key(major: int, middle: int, minor: int)

  predicate KeyLe(a: Key, b: Key) {
    a.major < b.major
    || (a.major == b.major && (a.middle < b.middle || (a.middle == b.middle && a.minor <= b.minor)))
  }

  predicate SortedBy<T>(s: seq<T>, key: T -> Key) {
    forall i, j :: 0 <= i < j < |s| ==> KeyLe(key(s[i]), key(s[j]))
  }

  /** Puts `x` in front of the first element whose key is not smaller. */
  function Insert<T>(x: T, s: seq<T>, key: T -> Key): (r: seq<T>)
    ensures multiset(r) == multiset(s) + multiset{x}
  {
    if s == [] || KeyLe(key(x), key(s[0])) then
      [x] + s
    else
      assert s == [s[0]] + s[1..];
      [s[0]] + Insert(x, s[1..], key)
  }

  lemma {:induction false} InsertSorted<T>(x: T, s: seq<T>, key: T -> Key)
    requires SortedBy(s, key)
    ensures SortedBy(Insert(x, s, key), key)
    decreases |s|
  {
    if s != [] && !KeyLe(key(x), key(s[0])) {
      var t := Insert(x, s[1..], key);
      InsertSorted(x, s[1..], key);
      assert s == [s[0]] + s[1..];
      var r := [s[0]] + t;
      forall j | 0 < j < |r| ensures KeyLe(key(r[0]), key(r[j])) {
        assert r[j] == t[j - 1];
        assert r[j] in multiset(t);
        if r[j] != x {
          assert r[j] in multiset(s[1..]);
          var k :| 0 <= k < |s[1..]| && s[1..][k] == r[j];
          assert s[k + 1] == r[j];
        }
      }
    }
  }

  /** The elements of `s` in ascending key order, equal keys kept in their original order. */
  function SortBy<T>(s: seq<T>, key: T -> Key): (r: seq<T>)
    ensures multiset(r) == multiset(s)
    ensures |r| == |s|
    ensures SortedBy(r, key)
  {
    if s == [] then []
    else
      assert s == [s[0]] + s[1..];
      var t := SortBy(s[1..], key);
      assert SortedBy(Insert(s[0], t, key), key) by { InsertSorted(s[0], t, key); }
      Insert(s[0], t, key)
  }

  /** Sorting keeps exactly the elements it was given. */
  lemma SortByMembers<T>(s: seq<T>, key: T -> Key)
    ensures forall x :: x in SortBy(s, key) <==> x in s
  {
    var r := SortBy(s, key);
    assert forall x :: x in r <==> x in multiset(r);
    assert forall x :: x in s <==> x in multiset(s);
  }

  /** In a sorted sequence, an element with a strictly smaller key stands earlier. */
  lemma SortedPrecedes<T>(s: seq<T>, key: T -> Key, i: nat, j: nat)
    requires SortedBy(s, key)
    requires i < |s| && j < |s|
    requires !KeyLe(key(s[j]), key(s[i]))
    ensures i < j
  {
  }

  /** The first `m` elements of a sorted sequence are part of it, and every
      element left out has a key no smaller than any element kept. */
  lemma PrefixIsSmallest<T>(s: seq<T>, key: T -> Key, m: nat)
    requires SortedBy(s, key) && m <= |s|
    ensures multiset(s[..m]) <= multiset(s)
    ensures forall a, b :: a in multiset(s) - multiset(s[..m]) && b in s[..m] ==> KeyLe(key(b), key(a))
  {
    assert s == s[..m] + s[m..];
    assert multiset(s) == multiset(s[..m]) + multiset(s[m..]);
    assert multiset(s) - multiset(s[..m]) == multiset(s[m..]);
    forall a, b | a in multiset(s) - multiset(s[..m]) && b in s[..m] ensures KeyLe(key(b), key(a)) {
      assert a in s[m..];
      var p :| m <= p < |s| && s[p] == a;
      var q :| 0 <= q < m && s[q] == b;
    }
  }
}
