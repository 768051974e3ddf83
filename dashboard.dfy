/** The student dashboard of controllers/studentController.js: the
    caller's finalized attempts newest first, their totals, rounded average,
    best score, the five most recent, and the per-category performance
    gathered in a dictionary in first-appearance order. */
module StudentDashboard {
  import opened Common
  import opened Sorting
  import opened Exams
  import opened Attempts
  import opened ExamCatalog

  /** `Attempt.find({ student, status ∈ {submitted, auto-submitted} })`, in store order. */
  function OwnFinalized(atts: seq<Attempt>, student: Id): (r: seq<Attempt>)
    ensures |r| <= |atts|
    ensures forall a :: a in r <==> a in atts && a.student == student && IsFinalized(a)
  {
    if atts == [] then []
    else
      var init := OwnFinalized(atts[..|atts| - 1], student);
      var last := atts[|atts| - 1];
      assert atts == atts[..|atts| - 1] + [last];
      if last.student == student && IsFinalized(last) then init + [last] else init
  }

  /** `sort({ submittedAt: -1 })`: latest first, a missing time last. */
  function NewestKey(a: Attempt): Key {
    Key(if a.submittedAt.None? then 1 else 0, -a.submittedAt.GetOr(0), 0)
  }

  function NewestFirst(atts: seq<Attempt>, student: Id): (r: seq<Attempt>)
    ensures multiset(r) == multiset(OwnFinalized(atts, student))
    ensures |r| == |OwnFinalized(atts, student)|
    ensures forall a :: a in r <==> a in atts && a.student == student && IsFinalized(a)
    ensures SortedBy(r, NewestKey)
  {
    var r := SortBy(OwnFinalized(atts, student), NewestKey);
    SortByMembers(OwnFinalized(atts, student), NewestKey);
    r
  }

  /** Earlier in the list means submitted no earlier, and every attempt with
      a submission time comes before any attempt without one. */
  lemma NewestFirstOrder(atts: seq<Attempt>, student: Id, i: nat, j: nat)
    requires i < j < |NewestFirst(atts, student)|
    ensures var r := NewestFirst(atts, student);
            (r[i].submittedAt.Some? && r[j].submittedAt.Some? ==>
               r[i].submittedAt.value >= r[j].submittedAt.value)
            && (r[i].submittedAt.None? ==> r[j].submittedAt.None?)
  {
    var r := NewestFirst(atts, student);
    assert KeyLe(NewestKey(r[i]), NewestKey(r[j]));
  }

  function PassedCount(s: seq<Attempt>): (n: nat)
    ensures n <= |s|
  {
    if s == [] then 0 else PassedCount(s[..|s| - 1]) + (if s[|s| - 1].isPassed then 1 else 0)
  }

  function Percentages(s: seq<Attempt>): (ps: seq<int>)
    ensures |ps| == |s| && forall k :: 0 <= k < |s| ==> ps[k] == s[k].percentage
  {
    seq(|s|, k requires 0 <= k < |s| => s[k].percentage)
  }

  /** `Math.round(sum / n)`, or 0 with no attempts. */
  function AvgScore(ps: seq<int>): (r: int)
    ensures ps == [] ==> r == 0
    ensures ps != [] ==> 2 * |ps| * r <= 2 * Sum(ps) + |ps| < 2 * |ps| * r + 2 * |ps|
  {
    if ps == [] then 0 else RoundDiv(Sum(ps), |ps|)
  }

  /** `Math.max(...ps)`, or 0 with no attempts. */
  function BestScore(ps: seq<int>): (r: int)
    ensures ps == [] ==> r == 0
    ensures ps != [] ==> r in ps && forall k :: 0 <= k < |ps| ==> ps[k] <= r
  {
    if ps == [] then 0
    else if |ps| == 1 then ps[0]
    else
      var m := BestScore(ps[1..]);
      assert forall k :: 1 <= k < |ps| ==> ps[k] == ps[1..][k - 1];
      Max(ps[0], m)
  }

  /** The rounded average never exceeds the best score, and both lie within
      any non-negative bounds all scores respect. */
  lemma AverageWithinScores(ps: seq<int>, lo: int, hi: int)
    requires ps != [] && 0 <= lo && forall k :: 0 <= k < |ps| ==> lo <= ps[k] <= hi
    ensures lo <= AvgScore(ps) <= BestScore(ps) <= hi
  {
    var b := BestScore(ps);
    SumBounded(ps, b);
    RoundDivAtMost(Sum(ps), |ps|, b);
    SumAtLeast(ps, lo);
    RoundDivAtLeast(Sum(ps), |ps|, lo);
  }

  lemma {:induction false} SumAtLeast(ps: seq<int>, lo: int)
    requires forall k :: 0 <= k < |ps| ==> lo <= ps[k]
    ensures Sum(ps) >= lo * |ps|
  {
    if ps != [] {
      SumAtLeast(ps[..|ps| - 1], lo);
    }
  }

  /** One entry of `recentAttempts`; title and category are absent when the
      exam no longer exists. */
  datatype RecentAttempt = RecentAttempt(
    id: Id,
    examTitle: Option<string>,
    category: Option<string>,
    marksObtained: int,
    totalMarks: int,
    percentage: int,
    isPassed: bool,
    rank: int,
    submittedAt: Option<Millis>)

  function RecentOf(a: Attempt, exams: seq<Exam>): RecentAttempt {
    var e := FindExam(exams, a.exam);
    RecentAttempt(a.id, if e.Some? then Some(e.value.title) else None,
                  if e.Some? then Some(e.value.category) else None,
                  a.marksObtained, a.totalMarks, a.percentage, a.isPassed, a.rank, a.submittedAt)
  }

  /** `attempts.slice(0, 5).map(...)`. */
  function Recent(s: seq<Attempt>, exams: seq<Exam>): (r: seq<RecentAttempt>)
    ensures |r| == Min(5, |s|)
    ensures forall k :: 0 <= k < |r| ==> r[k].id == s[k].id && r[k] == RecentOf(s[k], exams)
  {
    seq(Min(5, |s|), k requires 0 <= k < Min(5, |s|) => RecentOf(s[k], exams))
  }

  /** `a.exam?.category || 'General'`. */
  function CategoryOf(a: Attempt, exams: seq<Exam>): (c: string)
    ensures c != ""
    ensures FindExam(exams, a.exam).Some? && FindExam(exams, a.exam).value.category != "" ==>
              c == FindExam(exams, a.exam).value.category
    ensures FindExam(exams, a.exam).None? || FindExam(exams, a.exam).value.category == "" ==>
              c == "General"
  {
    match FindExam(exams, a.exam)
    case None => "General"
    case Some(e) => if e.category == "" then "General" else e.category
  }

  /** The categories of `s` in order of first appearance. */
  function Dedup(s: seq<string>): (r: seq<string>)
    ensures forall x :: x in r <==> x in s
    ensures forall i, j :: 0 <= i < j < |r| ==> r[i] != r[j]
    ensures |r| <= |s|
  {
    if s == [] then []
    else
      var init := Dedup(s[..|s| - 1]);
      var last := s[|s| - 1];
      assert s == s[..|s| - 1] + [last];
      if last in init then init else init + [last]
  }

  function CountOf(s: seq<string>, x: string): nat {
    if s == [] then 0 else CountOf(s[..|s| - 1], x) + (if s[|s| - 1] == x then 1 else 0)
  }

  function TotalOf(s: seq<string>, ps: seq<int>, x: string): int
    requires |s| == |ps|
  {
    if s == [] then 0
    else TotalOf(s[..|s| - 1], ps[..|s| - 1], x) + (if s[|s| - 1] == x then ps[|s| - 1] else 0)
  }

  lemma {:induction false} CountPositive(s: seq<string>, x: string)
    ensures x in s <==> CountOf(s, x) > 0
  {
    if s != [] {
      CountPositive(s[..|s| - 1], x);
      assert s == s[..|s| - 1] + [s[|s| - 1]];
    }
  }

  lemma {:induction false} TotalAbsent(s: seq<string>, ps: seq<int>, x: string)
    requires |s| == |ps| && x !in s
    ensures TotalOf(s, ps, x) == 0
  {
    if s != [] {
      TotalAbsent(s[..|s| - 1], ps[..|s| - 1], x);
    }
  }

  datatype CategoryPerformance = CategoryPerformance(category: string, attempts: nat, avgScore: int)

  /** The entry `{ count, total }` of one category. */
  datatype Tally = Tally(count: nat, total: int)

  /** One attempt counted: the entry created at zero when missing, then
      its count raised by one and the percentage added to its total. */
  function Bump(stats: map<string, Tally>, c: string, p: int): map<string, Tally> {
    var t := if c in stats then stats[c] else Tally(0, 0);
    stats[c := Tally(t.count + 1, t.total + p)]
  }

  /** `categoryStats` after the first `n` attempts. */
  function StatsUpTo(cats: seq<string>, ps: seq<int>, n: nat): map<string, Tally>
    requires n <= |cats| == |ps|
  {
    if n == 0 then map[] else Bump(StatsUpTo(cats, ps, n - 1), cats[n - 1], ps[n - 1])
  }

  lemma DedupSnoc(s: seq<string>, i: nat)
    requires i < |s|
    ensures Dedup(s[..i + 1]) == if s[i] in s[..i] then Dedup(s[..i]) else Dedup(s[..i]) + [s[i]]
  {
    assert s[..i + 1][..i] == s[..i];
  }

  lemma CountSnoc(s: seq<string>, i: nat, x: string)
    requires i < |s|
    ensures CountOf(s[..i + 1], x) == CountOf(s[..i], x) + (if s[i] == x then 1 else 0)
  {
    assert s[..i + 1][..i] == s[..i];
  }

  lemma TotalSnoc(s: seq<string>, ps: seq<int>, i: nat, x: string)
    requires |s| == |ps| && i < |s|
    ensures TotalOf(s[..i + 1], ps[..i + 1], x) == TotalOf(s[..i], ps[..i], x) + (if s[i] == x then ps[i] else 0)
  {
    assert s[..i + 1][..i] == s[..i] && ps[..i + 1][..i] == ps[..i];
  }

  /** After `n` attempts the object has an entry exactly for the categories
      seen so far, holding how many of them there were and the sum of their
      percentages. */
  lemma {:induction false} StatsMeaning(cats: seq<string>, ps: seq<int>, n: nat, c: string)
    requires n <= |cats| == |ps|
    ensures c in StatsUpTo(cats, ps, n) <==> c in cats[..n]
    ensures c in StatsUpTo(cats, ps, n) ==>
              StatsUpTo(cats, ps, n)[c] == Tally(CountOf(cats[..n], c), TotalOf(cats[..n], ps[..n], c))
  {
    if n > 0 {
      StatsMeaning(cats, ps, n - 1, c);
      CountSnoc(cats, n - 1, c);
      TotalSnoc(cats, ps, n - 1, c);
      assert cats[..n] == cats[..n - 1] + [cats[n - 1]];
      if c == cats[n - 1] && c !in cats[..n - 1] {
        CountPositive(cats[..n - 1], c);
        TotalAbsent(cats[..n - 1], ps[..n - 1], c);
      }
    }
  }

  /** `categoryStats` filled attempt by attempt, then listed in key order:
      one entry per category, its number of attempts and the rounded mean of
      their percentages; the counts add up to the number of attempts. */
  method CategoryStats(cats: seq<string>, ps: seq<int>) returns (perf: seq<CategoryPerformance>)
    requires |cats| == |ps|
    ensures |perf| == |Dedup(cats)|
    ensures forall k :: 0 <= k < |perf| ==>
              perf[k].category == Dedup(cats)[k]
              && perf[k].attempts == CountOf(cats, perf[k].category) >= 1
              && perf[k].avgScore == RoundDiv(TotalOf(cats, ps, perf[k].category), perf[k].attempts)
    ensures SumAttempts(perf) == |cats|
  {
    var order: seq<string> := [];
    var stats: map<string, Tally> := map[];
    var i := 0;
    while i < |cats|
      invariant 0 <= i <= |cats|
      invariant order == Dedup(cats[..i]) && stats == StatsUpTo(cats, ps, i)
    {
      var c := cats[i];
      StatsMeaning(cats, ps, i, c);
      DedupSnoc(cats, i);
      if c !in stats {
        order := order + [c];
      }
      stats := Bump(stats, c, ps[i]);
      i := i + 1;
    }
    EntriesMeet(cats, ps, order, stats);
    perf := Entries(order, stats);
  }

  /** `Object.entries(categoryStats).map(...)`. */
  function Entries(order: seq<string>, stats: map<string, Tally>): seq<CategoryPerformance>
    requires forall c :: c in order ==> c in stats && stats[c].count > 0
  {
    seq(|order|, k requires 0 <= k < |order| =>
      CategoryPerformance(order[k], stats[order[k]].count, RoundDiv(stats[order[k]].total, stats[order[k]].count)))
  }

  /** The finished tally lists every category once with its count and
      rounded mean, and the counts add up to the number of attempts. */
  lemma EntriesMeet(cats: seq<string>, ps: seq<int>, order: seq<string>, stats: map<string, Tally>)
    requires |cats| == |ps| && order == Dedup(cats[..|cats|]) && stats == StatsUpTo(cats, ps, |cats|)
    ensures forall c :: c in order ==> c in stats && stats[c].count > 0
    ensures var perf := Entries(order, stats);
            |perf| == |Dedup(cats)|
            && (forall k :: 0 <= k < |perf| ==>
                  perf[k].category == Dedup(cats)[k]
                  && perf[k].attempts == CountOf(cats, perf[k].category) >= 1
                  && perf[k].avgScore == RoundDiv(TotalOf(cats, ps, perf[k].category), perf[k].attempts))
            && SumAttempts(perf) == |cats|
  {
    assert cats[..|cats|] == cats && ps[..|ps|] == ps;
    forall c | c in order ensures c in stats && stats[c] == Tally(CountOf(cats, c), TotalOf(cats, ps, c)) && stats[c].count > 0 {
      StatsMeaning(cats, ps, |cats|, c);
      CountPositive(cats, c);
    }
    var perf := Entries(order, stats);
    SumAttemptsIs(perf, order, cats);
    CountsCoverAll(cats);
  }

  function SumAttempts(perf: seq<CategoryPerformance>): int {
    if perf == [] then 0 else SumAttempts(perf[..|perf| - 1]) + perf[|perf| - 1].attempts
  }

  function CountsSum(ds: seq<string>, s: seq<string>): int {
    if ds == [] then 0 else CountsSum(ds[..|ds| - 1], s) + CountOf(s, ds[|ds| - 1])
  }

  lemma {:induction false} SumAttemptsIs(perf: seq<CategoryPerformance>, ds: seq<string>, s: seq<string>)
    requires |perf| == |ds| && forall k :: 0 <= k < |ds| ==> perf[k].attempts == CountOf(s, ds[k])
    ensures SumAttempts(perf) == CountsSum(ds, s)
  {
    if ds != [] {
      SumAttemptsIs(perf[..|ds| - 1], ds[..|ds| - 1], s);
    }
  }

  lemma {:induction false} CountsSumSnoc(ds: seq<string>, t: seq<string>, x: string)
    requires forall i, j :: 0 <= i < j < |ds| ==> ds[i] != ds[j]
    ensures CountsSum(ds, t + [x]) == CountsSum(ds, t) + (if x in ds then 1 else 0)
  {
    assert (t + [x])[..|t|] == t;
    if ds != [] {
      var init := ds[..|ds| - 1];
      assert ds == init + [ds[|ds| - 1]];
      CountsSumSnoc(init, t, x);
      if x == ds[|ds| - 1] {
        assert x !in init;
      }
    }
  }

  /** Every attempt is counted under exactly one category: the per-category
      counts over the distinct categories add up to the number of attempts. */
  lemma {:induction false} CountsCoverAll(s: seq<string>)
    ensures CountsSum(Dedup(s), s) == |s|
  {
    if s != [] {
      var t := s[..|s| - 1];
      var x := s[|s| - 1];
      assert s == t + [x];
      CountsCoverAll(t);
      var d := Dedup(t);
      CountsSumSnoc(d, t, x);
      if x !in d {
        CountPositive(t, x);
        assert (d + [x])[..|d|] == d;
        assert CountsSum(d + [x], s) == CountsSum(d, s) + CountOf(s, x);
      }
    }
  }

  datatype DashboardView = DashboardView(
    totalAttempts: nat,
    passedCount: nat,
    avgScore: int,
    bestScore: int,
    totalExams: nat,
    recent: seq<RecentAttempt>,
    categories: seq<CategoryPerformance>)

  /** `getDashboard`: the figures over the caller's finalized attempts,
      newest first, and the number of available exams. */
  method GetDashboard(atts: seq<Attempt>, exams: seq<Exam>, student: Id) returns (d: DashboardView)
    ensures var s := NewestFirst(atts, student);
            d.totalAttempts == |s| && d.passedCount == PassedCount(s) <= d.totalAttempts
            && d.avgScore == AvgScore(Percentages(s)) && d.bestScore == BestScore(Percentages(s))
            && d.recent == Recent(s, exams)
    ensures d.totalExams == |Available(exams)|
    ensures var s := NewestFirst(atts, student);
            var cats := seq(|s|, k requires 0 <= k < |s| => CategoryOf(s[k], exams));
            |d.categories| == |Dedup(cats)|
            && (forall k :: 0 <= k < |d.categories| ==>
                  d.categories[k].category == Dedup(cats)[k]
                  && d.categories[k].attempts == CountOf(cats, d.categories[k].category) >= 1
                  && d.categories[k].avgScore ==
                     RoundDiv(TotalOf(cats, Percentages(s), d.categories[k].category), d.categories[k].attempts))
    ensures SumAttempts(d.categories) == d.totalAttempts
  {
    var s := NewestFirst(atts, student);
    var ps := Percentages(s);
    var cats := seq(|s|, k requires 0 <= k < |s| => CategoryOf(s[k], exams));
    var perf := CategoryStats(cats, ps);
    d := DashboardView(|s|, PassedCount(s), AvgScore(ps), BestScore(ps), |Available(exams)|,
                       Recent(s, exams), perf);
  }
}
