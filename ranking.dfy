/** `updateRanks` in controllers/attemptController.js: the finalized
    attempts of one exam, sorted by marks (highest first) and then by
    submission time (earliest first), are ranked 1, 2, … by position. Ties
    in both keys keep the store's order. */
module Ranking {
  import opened Common
  import opened Attempts
  import opened Sorting

  /** The query `{ exam, status ∈ {submitted, auto-submitted} }`, in store order. */
  function Finalized(atts: seq<Attempt>, examId: Id): (r: seq<Attempt>)
    ensures |r| <= |atts|
    ensures forall a :: a in r <==> a in atts && a.exam == examId && IsFinalized(a)
  {
    if atts == [] then []
    else
      var init := Finalized(atts[..|atts| - 1], examId);
      var last := atts[|atts| - 1];
      assert atts == atts[..|atts| - 1] + [last];
      if last.exam == examId && IsFinalized(last) then init + [last] else init
  }

  /** `sort({ marksObtained: -1, submittedAt: 1 })`; a missing submission
      time sorts before any present one. */
  function RankKey(a: Attempt): Key {
    Key(-a.marksObtained, if a.submittedAt.None? then 0 else 1, a.submittedAt.GetOr(0))
  }

  /** The finalized attempts of the exam in rank order. */
  function RankingOrder(atts: seq<Attempt>, examId: Id): (r: seq<Attempt>)
    ensures |r| == |Finalized(atts, examId)|
    ensures SortedBy(r, RankKey)
    ensures forall a :: a in r <==> a in atts && a.exam == examId && IsFinalized(a)
  {
    var r := SortBy(Finalized(atts, examId), RankKey);
    SortByMembers(Finalized(atts, examId), RankKey);
    r
  }

  /** `index + 1` of the first attempt with that id in the order, or 0 (the
      schema default) when it is not there. */
  function RankIn(order: seq<Attempt>, id: Id): (r: nat)
    ensures r <= |order|
    ensures r > 0 ==> order[r - 1].id == id && forall j :: 0 <= j < r - 1 ==> order[j].id != id
    ensures r == 0 <==> forall j :: 0 <= j < |order| ==> order[j].id != id
  {
    if order == [] then 0
    else if order[0].id == id then 1
    else
      var r := RankIn(order[1..], id);
      if r == 0 then 0 else r + 1
  }

  predicate DistinctIds(atts: seq<Attempt>) {
    forall i, j :: 0 <= i < j < |atts| ==> atts[i].id != atts[j].id
  }

  /** The store after `updateRanks(examId)`: every attempt of the ranking
      order gets its rank, all others are left as they were. */
  function Reranked(atts: seq<Attempt>, examId: Id): (r: seq<Attempt>)
    ensures |r| == |atts|
    ensures forall j :: 0 <= j < |atts| ==> r[j].(rank := atts[j].rank) == atts[j]
  {
    var order := RankingOrder(atts, examId);
    seq(|atts|, i requires 0 <= i < |atts| =>
      if RankIn(order, atts[i].id) > 0 then atts[i].(rank := RankIn(order, atts[i].id)) else atts[i])
  }

  lemma {:induction false} DistinctCount(s: seq<Attempt>, x: Attempt)
    requires DistinctIds(s)
    ensures multiset(s)[x] <= 1
  {
    if s != [] {
      var init := s[..|s| - 1];
      var last := s[|s| - 1];
      assert s == init + [last];
      assert DistinctIds(init) by {
        forall i, j | 0 <= i < j < |init| ensures init[i].id != init[j].id {
          assert init[i] == s[i] && init[j] == s[j];
        }
      }
      DistinctCount(init, x);
      if x == last {
        forall i | 0 <= i < |init| ensures init[i] != x {
          assert init[i] == s[i];
        }
        assert x !in init;
      }
    }
  }

  lemma CountTwoPositions(r: seq<Attempt>, i: nat, j: nat)
    requires i < j < |r|
    ensures r[i] == r[j] ==> multiset(r)[r[i]] >= 2
  {
    assert r == r[..j] + r[j..];
    assert r[i] in r[..j] && r[j] in r[j..];
  }

  /** Reordering keeps ids distinct. */
  lemma PermutationKeepsDistinct(s: seq<Attempt>, r: seq<Attempt>)
    requires multiset(r) == multiset(s) && DistinctIds(s)
    ensures DistinctIds(r)
  {
    forall i, j | 0 <= i < j < |r| ensures r[i].id != r[j].id {
      CountTwoPositions(r, i, j);
      DistinctCount(s, r[i]);
      assert r[i] in multiset(s) && r[j] in multiset(s);
      var p :| 0 <= p < |s| && s[p] == r[i];
      var q :| 0 <= q < |s| && s[q] == r[j];
    }
  }

  lemma {:induction false} FinalizedDistinct(atts: seq<Attempt>, examId: Id)
    requires DistinctIds(atts)
    ensures DistinctIds(Finalized(atts, examId))
  {
    if atts != [] {
      var init := atts[..|atts| - 1];
      var last := atts[|atts| - 1];
      assert DistinctIds(init) by {
        forall i, j | 0 <= i < j < |init| ensures init[i].id != init[j].id {
          assert init[i] == atts[i] && init[j] == atts[j];
        }
      }
      FinalizedDistinct(init, examId);
      var f := Finalized(init, examId);
      forall k | 0 <= k < |f| ensures f[k].id != last.id {
        assert f[k] in init;
        var i :| 0 <= i < |init| && init[i] == f[k];
        assert atts[i] == f[k];
      }
    }
  }

  /** With distinct ids in the store, the ranking order has distinct ids. */
  lemma OrderDistinct(atts: seq<Attempt>, examId: Id)
    requires DistinctIds(atts)
    ensures DistinctIds(RankingOrder(atts, examId))
  {
    FinalizedDistinct(atts, examId);
    PermutationKeepsDistinct(Finalized(atts, examId), RankingOrder(atts, examId));
  }

  /** The attempt at position `k` of the order is ranked `k + 1`. */
  lemma RankAtPosition(order: seq<Attempt>, k: nat)
    requires DistinctIds(order) && k < |order|
    ensures RankIn(order, order[k].id) == k + 1
  {
  }

  /** An attempt of the store is in the ranking order of an exam exactly
      when it is a finalized attempt of that exam; the others get no rank. */
  lemma RankedIffFinalized(atts: seq<Attempt>, examId: Id, a: Attempt)
    requires DistinctIds(atts) && a in atts
    ensures RankIn(RankingOrder(atts, examId), a.id) > 0 <==> a.exam == examId && IsFinalized(a)
    ensures a.exam == examId && IsFinalized(a) ==>
              1 <= RankIn(RankingOrder(atts, examId), a.id) <= |Finalized(atts, examId)|
  {
    var order := RankingOrder(atts, examId);
    OrderDistinct(atts, examId);
    if a.exam == examId && IsFinalized(a) {
      var k :| 0 <= k < |order| && order[k] == a;
      RankAtPosition(order, k);
    } else {
      forall j | 0 <= j < |order| ensures order[j].id != a.id {
        assert order[j] in atts;
        var p :| 0 <= p < |atts| && atts[p] == order[j];
        var q :| 0 <= q < |atts| && atts[q] == a;
      }
    }
  }

  /** After re-ranking, every finalized attempt of the exam holds its place
      in the ranking order plus one, and every other attempt keeps the rank
      it had. */
  lemma RerankedRanks(atts: seq<Attempt>, examId: Id, j: nat)
    requires DistinctIds(atts) && j < |atts|
    ensures atts[j].exam == examId && IsFinalized(atts[j]) ==>
              1 <= Reranked(atts, examId)[j].rank == RankIn(RankingOrder(atts, examId), atts[j].id)
    ensures !(atts[j].exam == examId && IsFinalized(atts[j])) ==>
              Reranked(atts, examId)[j].rank == atts[j].rank
  {
    RankedIffFinalized(atts, examId, atts[j]);
  }

  /** The ranks handed out are exactly 1..N, one per finalized attempt:
      position `k` of the order holds an attempt of the store ranked `k + 1`,
      and two different attempts never share a rank. */
  lemma RanksArePositions(atts: seq<Attempt>, examId: Id)
    requires DistinctIds(atts)
    ensures forall k :: 0 <= k < |RankingOrder(atts, examId)| ==>
              RankingOrder(atts, examId)[k] in atts &&
              RankIn(RankingOrder(atts, examId), RankingOrder(atts, examId)[k].id) == k + 1
    ensures forall a, b :: (a in atts && b in atts && a.id != b.id &&
                            RankIn(RankingOrder(atts, examId), a.id) > 0) ==>
              RankIn(RankingOrder(atts, examId), a.id) != RankIn(RankingOrder(atts, examId), b.id)
  {
    var order := RankingOrder(atts, examId);
    OrderDistinct(atts, examId);
    forall k | 0 <= k < |order| ensures order[k] in atts && RankIn(order, order[k].id) == k + 1 {
      RankAtPosition(order, k);
    }
  }

  /** Ranks follow the sort key: a better-ranked attempt has at least as
      many marks (and, on equal marks, a submission time no later), and
      strictly more marks always means a better rank. */
  lemma RankFollowsKey(atts: seq<Attempt>, examId: Id, a: Attempt, b: Attempt)
    requires DistinctIds(atts)
    requires a in atts && b in atts && a.exam == examId && b.exam == examId
    requires IsFinalized(a) && IsFinalized(b)
    ensures RankIn(RankingOrder(atts, examId), a.id) < RankIn(RankingOrder(atts, examId), b.id) ==>
              KeyLe(RankKey(a), RankKey(b))
    ensures a.marksObtained > b.marksObtained ==>
              RankIn(RankingOrder(atts, examId), a.id) < RankIn(RankingOrder(atts, examId), b.id)
  {
    var order := RankingOrder(atts, examId);
    OrderDistinct(atts, examId);
    var i :| 0 <= i < |order| && order[i] == a;
    var j :| 0 <= j < |order| && order[j] == b;
    RankAtPosition(order, i);
    RankAtPosition(order, j);
    if a.marksObtained > b.marksObtained {
      SortedPrecedes(order, RankKey, i, j);
    }
  }

  /** Two finalized attempts with 8 marks each, submitted at t1 < t2, are
      ranked 1 and 2, never tied. */
  lemma TieBrokenBySubmission(a1: Attempt, a2: Attempt, t1: Millis, t2: Millis)
    requires a1.id != a2.id && a1.exam == a2.exam
    requires IsFinalized(a1) && IsFinalized(a2)
    requires a1.marksObtained == 8 && a2.marksObtained == 8
    requires a1.submittedAt == Some(t1) && a2.submittedAt == Some(t2) && t1 < t2
    ensures RankIn(RankingOrder([a1, a2], a1.exam), a1.id) == 1
    ensures RankIn(RankingOrder([a1, a2], a1.exam), a2.id) == 2
  {
    var atts := [a1, a2];
    var ex := a1.exam;
    assert DistinctIds(atts);
    RankedIffFinalized(atts, ex, a1);
    RankedIffFinalized(atts, ex, a2);
    var order := RankingOrder(atts, ex);
    var r1 := RankIn(order, a1.id);
    var r2 := RankIn(order, a2.id);
    assert order[r1 - 1].id != order[r2 - 1].id;
    assert !KeyLe(RankKey(a2), RankKey(a1));
    RankFollowsKey(atts, ex, a2, a1);
  }
}
