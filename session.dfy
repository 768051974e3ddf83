/** Session set-up in controllers/attemptController.js: the shuffle, the
    server-side deadline and remaining time, the per-question option order
    fixed when an attempt is created, and the student-facing question list
    rebuilt from the stored orders (option text only, never `isCorrect`). */
module Session {
  import opened Common
  import opened Exams

  /** `shuffleArray`: copies its input and swaps each position, from the
      last down to the second, with an arbitrary position at or before it
      (`Math.random` is an arbitrary choice here). The result is a
      permutation of the input; the input, a value, is unchanged. */
  method ShuffleArray(arr: seq<Id>) returns (shuffled: seq<Id>)
    ensures |shuffled| == |arr|
    ensures multiset(shuffled) == multiset(arr)
  {
    var a := new Id[|arr|](k requires 0 <= k < |arr| => arr[k]);
    assert a[..] == arr;
    var i := a.Length - 1;
    while i > 0
      invariant -1 <= i < a.Length
      invariant multiset(a[..]) == multiset(arr)
    {
      var j :| 0 <= j <= i;
      a[i], a[j] := a[j], a[i];
      i := i - 1;
    }
    shuffled := a[..];
  }

  /** The absolute deadline of a new attempt: `duration` minutes from now,
      clipped to the end of the exam window. */
  function ServerEndTime(now: Millis, duration: int, endTime: Millis): (t: Millis)
    ensures t <= endTime && t <= now + duration * 60 * 1000
    ensures t == endTime || t == now + duration * 60 * 1000
  {
    Min(now + duration * 60 * 1000, endTime)
  }

  /** `Math.max(0, Math.floor((serverEndTime - now) / 1000))`: whole seconds
      left, never negative. */
  function TimeLeftSeconds(serverEndTime: Millis, now: Millis): (r: int)
    ensures r >= 0
    ensures r * 1000 <= Max(0, serverEndTime - now) < r * 1000 + 1000
  {
    Max(0, (serverEndTime - now) / 1000)
  }

  /** Once the deadline is reached no whole second is left. */
  lemma NoTimeLeftAfterDeadline(serverEndTime: Millis, now: Millis)
    requires now >= serverEndTime
    ensures TimeLeftSeconds(serverEndTime, now) == 0
  {
    var r := TimeLeftSeconds(serverEndTime, now);
    assert r * 1000 < 1000;
  }

  /** A new attempt started inside the window with a non-negative duration
      gets a deadline inside the window and at most `duration * 60` seconds. */
  lemma DeadlineWithinWindow(now: Millis, e: Exam)
    requires e.startTime <= now <= e.endTime && e.duration >= 0
    ensures now <= ServerEndTime(now, e.duration, e.endTime) <= e.endTime
    ensures TimeLeftSeconds(ServerEndTime(now, e.duration, e.endTime), now) <= e.duration * 60
  {
    var t := ServerEndTime(now, e.duration, e.endTime);
    var r := TimeLeftSeconds(t, now);
    assert r * 1000 <= t - now <= e.duration * 60 * 1000;
  }

  /** The `timeLeft` answered to a new attempt is `duration * 60` even when
      the deadline was clipped to the end of the window: then it overstates
      the seconds actually left. */
  lemma NewAttemptTimeLeftOverstates(now: Millis, e: Exam)
    requires now <= e.endTime && e.endTime + 1000 <= now + e.duration * 60 * 1000
    ensures TimeLeftSeconds(ServerEndTime(now, e.duration, e.endTime), now) < e.duration * 60
  {
    var t := ServerEndTime(now, e.duration, e.endTime);
    assert t == e.endTime;
    var r := TimeLeftSeconds(t, now);
    assert r * 1000 <= e.endTime - now;
  }

  /** An option order fits a question: a permutation of its option ids, and
      exactly their natural order when options are not shuffled. */
  predicate OrderFits(order: seq<Id>, q: Question, shuffle: bool) {
    multiset(order) == multiset(ChoiceIds(q.options)) && (!shuffle ==> order == ChoiceIds(q.options))
  }

  /** No question after position `i` (and before `k`) has the same id. */
  predicate LastBefore(questions: seq<Question>, i: nat, k: nat)
    requires i < k <= |questions|
  {
    forall j :: i < j < k ==> questions[j].id != questions[i].id
  }

  /** The `optionOrder` map of a new attempt, filled by `forEach` and `set`:
      one entry per question id, the last question with an id deciding its
      entry; each entry fits its question. */
  method BuildOptionOrder(questions: seq<Question>, shuffle: bool) returns (m: map<Id, seq<Id>>)
    ensures forall id :: id in m <==> exists i :: 0 <= i < |questions| && questions[i].id == id
    ensures forall i :: 0 <= i < |questions| && LastBefore(questions, i, |questions|) ==>
              questions[i].id in m && OrderFits(m[questions[i].id], questions[i], shuffle)
  {
    m := map[];
    var k := 0;
    while k < |questions|
      invariant 0 <= k <= |questions|
      invariant forall id :: id in m <==> exists i :: 0 <= i < k && questions[i].id == id
      invariant forall i :: 0 <= i < k && LastBefore(questions, i, k) ==>
                  questions[i].id in m && OrderFits(m[questions[i].id], questions[i], shuffle)
    {
      var q := questions[k];
      var optIds := ChoiceIds(q.options);
      if shuffle {
        optIds := ShuffleArray(optIds);
      }
      m := m[q.id := optIds];
      forall i | 0 <= i < k + 1 && LastBefore(questions, i, k + 1)
        ensures questions[i].id in m && OrderFits(m[questions[i].id], questions[i], shuffle)
      {
        if i < k {
          assert LastBefore(questions, i, k);
          assert questions[i].id != q.id;
        }
      }
      k := k + 1;
    }
  }

  /** An option as a student sees it while the attempt runs: no `isCorrect`. */
  datatype PublicOption = PublicOption(id: Id, text: string)

  /** A question as a student sees it while the attempt runs: no
      explanation, options without correctness. */
  datatype PublicQuestion = PublicQuestion(
    id: Id,
    text: string,
    qtype: QuestionType,
    marks: int,
    difficulty: Difficulty,
    section: string,
    timeLimit: int,
    options: seq<PublicOption>)

  /** `questionsMap[id]`: the map built by `forEach` keeps the last
      question with that id. */
  function LastWithId(questions: seq<Question>, id: Id): (r: Option<Question>)
    ensures r.Some? ==> r.value in questions && r.value.id == id
    ensures r.None? <==> forall i :: 0 <= i < |questions| ==> questions[i].id != id
  {
    if questions == [] then None
    else if questions[|questions| - 1].id == id then Some(questions[|questions| - 1])
    else LastWithId(questions[..|questions| - 1], id)
  }

  /** `q.options.find(o => o._id == id)`: the first option with that id.
      It searches options, where `Grading.FindQuestion` searches the
      questions of an exam by subdocument id; the two lookups are separate
      calls in the source and stay separate here. */
  function FirstChoice(options: seq<Choice>, id: Id): (r: Option<Choice>)
    ensures r.Some? ==> r.value in options && r.value.id == id
    ensures r.None? <==> forall i :: 0 <= i < |options| ==> options[i].id != id
  {
    if options == [] then None
    else if options[0].id == id then Some(options[0])
    else FirstChoice(options[1..], id)
  }

  /** The options of a question in the given id order, ids that are not
      among its options dropped, each carrying only id and text. */
  function PublicOptions(options: seq<Choice>, order: seq<Id>): seq<PublicOption>
  {
    if order == [] then []
    else
      var init := PublicOptions(options, order[..|order| - 1]);
      match FirstChoice(options, order[|order| - 1])
      case None => init
      case Some(c) => init + [PublicOption(c.id, c.text)]
  }

  /** The stored option order of a question, or its natural order when the
      attempt has no entry for it (`optionOrder.get(id) || natural`). */
  function OptionOrderFor(optionOrder: map<Id, seq<Id>>, q: Question): seq<Id>
  {
    if q.id in optionOrder then optionOrder[q.id] else ChoiceIds(q.options)
  }

  function ToPublic(q: Question, optionOrder: map<Id, seq<Id>>): PublicQuestion
  {
    PublicQuestion(q.id, q.text, q.qtype, q.marks, q.difficulty, q.section, q.timeLimit,
                   PublicOptions(q.options, OptionOrderFor(optionOrder, q)))
  }

  /** The question list answered on start and on resume: the stored
      question order, ids the exam no longer has dropped. */
  function OrderedQuestions(questions: seq<Question>, questionOrder: seq<Id>,
                            optionOrder: map<Id, seq<Id>>): seq<PublicQuestion>
  {
    if questionOrder == [] then []
    else
      var init := OrderedQuestions(questions, questionOrder[..|questionOrder| - 1], optionOrder);
      match LastWithId(questions, questionOrder[|questionOrder| - 1])
      case None => init
      case Some(q) => init + [ToPublic(q, optionOrder)]
  }

  /** No two options of the list share an id. */
  predicate DistinctChoiceIds(options: seq<Choice>) {
    forall i, j :: 0 <= i < j < |options| ==> options[i].id != options[j].id
  }

  /** No two questions of the list share an id. */
  predicate DistinctQuestionIds(questions: seq<Question>) {
    forall i, j :: 0 <= i < j < |questions| ==> questions[i].id != questions[j].id
  }

  function Strip(options: seq<Choice>): (r: seq<PublicOption>)
    ensures |r| == |options|
    ensures forall i :: 0 <= i < |options| ==> r[i] == PublicOption(options[i].id, options[i].text)
  {
    seq(|options|, i requires 0 <= i < |options| => PublicOption(options[i].id, options[i].text))
  }

  lemma FirstChoiceDistinct(options: seq<Choice>, i: nat)
    requires DistinctChoiceIds(options) && i < |options|
    ensures FirstChoice(options, options[i].id) == Some(options[i])
  {
    if i > 0 {
      assert options[0].id != options[i].id;
      FirstChoiceDistinct(options[1..], i - 1);
    }
  }

  /** Options listed in their natural order come out in that order, text
      carried over and correctness dropped. */
  lemma {:induction false} PublicOptionsNatural(options: seq<Choice>, n: nat)
    requires DistinctChoiceIds(options) && n <= |options|
    ensures PublicOptions(options, ChoiceIds(options)[..n]) == Strip(options)[..n]
  {
    if n > 0 {
      PublicOptionsNatural(options, n - 1);
      assert ChoiceIds(options)[..n][..n - 1] == ChoiceIds(options)[..n - 1];
      FirstChoiceDistinct(options, n - 1);
      assert Strip(options)[..n] == Strip(options)[..n - 1] + [Strip(options)[n - 1]];
    }
  }

  /** Every option shown is an option of the question, with its own text,
      and every id of the order that names an option is shown. */
  lemma {:induction false} PublicOptionsSound(options: seq<Choice>, order: seq<Id>)
    ensures |PublicOptions(options, order)| <= |order|
    ensures forall p :: p in PublicOptions(options, order) ==>
              p.id in order && exists c :: c in options && p == PublicOption(c.id, c.text)
    ensures (forall k :: 0 <= k < |order| ==> FirstChoice(options, order[k]).Some?) ==>
              |PublicOptions(options, order)| == |order|
  {
    if order != [] {
      PublicOptionsSound(options, order[..|order| - 1]);
      assert forall k :: 0 <= k < |order| - 1 ==> order[..|order| - 1][k] == order[k];
    }
  }

  /** When every id of the order names an option, the options shown are
      exactly one per id, in the order's own sequence. */
  lemma {:induction false} PublicOptionsInOrder(options: seq<Choice>, order: seq<Id>)
    requires forall k :: 0 <= k < |order| ==> FirstChoice(options, order[k]).Some?
    ensures |PublicOptions(options, order)| == |order|
    ensures forall k :: 0 <= k < |order| ==> PublicOptions(options, order)[k].id == order[k]
  {
    if order != [] {
      var n := |order| - 1;
      var init := order[..n];
      assert forall k :: 0 <= k < n ==> init[k] == order[k];
      PublicOptionsInOrder(options, init);
      var r0 := PublicOptions(options, init);
      var c := FirstChoice(options, order[n]).value;
      var r := PublicOptions(options, order);
      assert r == r0 + [PublicOption(c.id, c.text)];
      forall k | 0 <= k < |order| ensures r[k].id == order[k] {
        if k < n { assert r[k] == r0[k]; }
      }
    }
  }

  /** A question as shown with its options in their natural order. */
  function NaturalView(q: Question): PublicQuestion
  {
    ToPublic(q, map[])
  }

  function NaturalViews(questions: seq<Question>): (r: seq<PublicQuestion>)
    ensures |r| == |questions|
  {
    if questions == [] then []
    else NaturalViews(questions[..|questions| - 1]) + [NaturalView(questions[|questions| - 1])]
  }

  /** With the natural question order and natural option orders, the list
      shown is the exam's questions, in order, stripped of correctness. */
  lemma {:induction false} OrderedQuestionsNatural(questions: seq<Question>,
                                                  optionOrder: map<Id, seq<Id>>, n: nat)
    requires DistinctQuestionIds(questions) && n <= |questions|
    requires forall i :: 0 <= i < |questions| ==>
               OptionOrderFor(optionOrder, questions[i]) == ChoiceIds(questions[i].options)
    ensures OrderedQuestions(questions, QuestionIds(questions)[..n], optionOrder) ==
            NaturalViews(questions[..n])
  {
    if n > 0 {
      var ids := QuestionIds(questions);
      var q := questions[n - 1];
      calc {
        OrderedQuestions(questions, ids[..n], optionOrder);
        { assert ids[n - 1] == q.id;
          assert ids[..n] == ids[..n - 1] + [q.id]; }
        OrderedQuestions(questions, ids[..n - 1] + [q.id], optionOrder);
        { OrderedQuestionsSnoc(questions, ids[..n - 1], q.id, optionOrder);
          LastWithIdDistinct(questions, n - 1); }
        OrderedQuestions(questions, ids[..n - 1], optionOrder) + [ToPublic(q, optionOrder)];
        { OrderedQuestionsNatural(questions, optionOrder, n - 1);
          NaturalViewIs(q, optionOrder); }
        NaturalViews(questions[..n - 1]) + [NaturalView(q)];
        { NaturalViewsPrefix(questions, n); }
        NaturalViews(questions[..n]);
      }
    }
  }

  lemma NaturalViewsPrefix(questions: seq<Question>, n: nat)
    requires 0 < n <= |questions|
    ensures NaturalViews(questions[..n]) == NaturalViews(questions[..n - 1]) + [NaturalView(questions[n - 1])]
  {
    assert questions[..n][..n - 1] == questions[..n - 1];
  }

  lemma NaturalViewIs(q: Question, optionOrder: map<Id, seq<Id>>)
    requires OptionOrderFor(optionOrder, q) == ChoiceIds(q.options)
    ensures ToPublic(q, optionOrder) == NaturalView(q)
  {
  }

  lemma OrderedQuestionsSnoc(questions: seq<Question>, order: seq<Id>, id: Id,
                             optionOrder: map<Id, seq<Id>>)
    ensures OrderedQuestions(questions, order + [id], optionOrder) ==
            OrderedQuestions(questions, order, optionOrder) +
            (match LastWithId(questions, id)
             case None => []
             case Some(q) => [ToPublic(q, optionOrder)])
  {
    assert (order + [id])[..|order|] == order;
  }

  lemma LastWithIdDistinct(questions: seq<Question>, i: nat)
    requires DistinctQuestionIds(questions) && i < |questions|
    ensures LastWithId(questions, questions[i].id) == Some(questions[i])
  {
    if i < |questions| - 1 {
      assert questions[|questions| - 1].id != questions[i].id;
      LastWithIdDistinct(questions[..|questions| - 1], i);
    }
  }

  /** Every question shown comes from the exam under an id of the stored
      order, with the option order stored for it; the list is exactly as
      long as the number of stored ids the exam still has. */
  lemma {:induction false} OrderedQuestionsSound(questions: seq<Question>, questionOrder: seq<Id>,
                                                optionOrder: map<Id, seq<Id>>)
    ensures forall p :: p in OrderedQuestions(questions, questionOrder, optionOrder) ==>
              p.id in questionOrder &&
              exists q :: q in questions && p == ToPublic(q, optionOrder)
    ensures |OrderedQuestions(questions, questionOrder, optionOrder)| ==
            CountPresent(questions, questionOrder)
  {
    if questionOrder != [] {
      OrderedQuestionsSound(questions, questionOrder[..|questionOrder| - 1], optionOrder);
      assert forall k :: 0 <= k < |questionOrder| - 1 ==>
               questionOrder[..|questionOrder| - 1][k] == questionOrder[k];
    }
  }

  lemma OrderedQuestionsFound(questions: seq<Question>, questionOrder: seq<Id>,
                              optionOrder: map<Id, seq<Id>>)
    requires questionOrder != [] && LastWithId(questions, questionOrder[|questionOrder| - 1]).Some?
    ensures OrderedQuestions(questions, questionOrder, optionOrder) ==
            OrderedQuestions(questions, questionOrder[..|questionOrder| - 1], optionOrder) +
            [ToPublic(LastWithId(questions, questionOrder[|questionOrder| - 1]).value, optionOrder)]
  {
  }

  lemma OrderedQuestionsMissing(questions: seq<Question>, questionOrder: seq<Id>,
                                optionOrder: map<Id, seq<Id>>)
    requires questionOrder != [] && LastWithId(questions, questionOrder[|questionOrder| - 1]).None?
    ensures OrderedQuestions(questions, questionOrder, optionOrder) ==
            OrderedQuestions(questions, questionOrder[..|questionOrder| - 1], optionOrder)
  {
  }

  lemma {:induction false} OrderedQuestionsCount(questions: seq<Question>, questionOrder: seq<Id>,
                                                optionOrder: map<Id, seq<Id>>)
    ensures |OrderedQuestions(questions, questionOrder, optionOrder)| == CountPresent(questions, questionOrder)
  {
    if questionOrder != [] {
      OrderedQuestionsCount(questions, questionOrder[..|questionOrder| - 1], optionOrder);
    }
  }

  /** The question stored at position `k` of the order, when the exam still
      has it, is shown right after the questions found before it. */
  lemma {:induction false} OrderedQuestionsAt(questions: seq<Question>, questionOrder: seq<Id>,
                                             optionOrder: map<Id, seq<Id>>, k: nat)
    requires k < |questionOrder| && LastWithId(questions, questionOrder[k]).Some?
    ensures CountPresent(questions, questionOrder[..k]) < |OrderedQuestions(questions, questionOrder, optionOrder)|
    ensures OrderedQuestions(questions, questionOrder, optionOrder)[CountPresent(questions, questionOrder[..k])] ==
            ToPublic(LastWithId(questions, questionOrder[k]).value, optionOrder)
  {
    var n := |questionOrder| - 1;
    var init := questionOrder[..n];
    var r0 := OrderedQuestions(questions, init, optionOrder);
    var c := CountPresent(questions, questionOrder[..k]);
    OrderedQuestionsCount(questions, init, optionOrder);
    if k == n {
      assert questionOrder[..k] == init;
      OrderedQuestionsFound(questions, questionOrder, optionOrder);
      var x := ToPublic(LastWithId(questions, questionOrder[n]).value, optionOrder);
      assert (r0 + [x])[c] == x;
    } else {
      assert init[k] == questionOrder[k];
      assert init[..k] == questionOrder[..k];
      OrderedQuestionsAt(questions, init, optionOrder, k);
      if LastWithId(questions, questionOrder[n]).Some? {
        OrderedQuestionsFound(questions, questionOrder, optionOrder);
        var y := ToPublic(LastWithId(questions, questionOrder[n]).value, optionOrder);
        assert (r0 + [y])[c] == r0[c];
      } else {
        OrderedQuestionsMissing(questions, questionOrder, optionOrder);
      }
    }
  }

  /** With every id of the order found, each id counts. */
  lemma {:induction false} CountPresentAll(questions: seq<Question>, order: seq<Id>)
    requires forall k :: 0 <= k < |order| ==> LastWithId(questions, order[k]).Some?
    ensures CountPresent(questions, order) == |order|
  {
    if order != [] {
      var init := order[..|order| - 1];
      assert forall k :: 0 <= k < |init| ==> init[k] == order[k];
      CountPresentAll(questions, init);
    }
  }

  /** When every id of the stored order names a question of the exam, the
      list shown holds one question per id, in the stored order, each with
      the option order stored for it. */
  lemma OrderedQuestionsInOrder(questions: seq<Question>, questionOrder: seq<Id>,
                                optionOrder: map<Id, seq<Id>>)
    requires forall k :: 0 <= k < |questionOrder| ==> LastWithId(questions, questionOrder[k]).Some?
    ensures |OrderedQuestions(questions, questionOrder, optionOrder)| == |questionOrder|
    ensures forall k :: 0 <= k < |questionOrder| ==>
              OrderedQuestions(questions, questionOrder, optionOrder)[k] ==
              ToPublic(LastWithId(questions, questionOrder[k]).value, optionOrder)
  {
    OrderedQuestionsCount(questions, questionOrder, optionOrder);
    CountPresentAll(questions, questionOrder);
    forall k | 0 <= k < |questionOrder|
      ensures OrderedQuestions(questions, questionOrder, optionOrder)[k] ==
              ToPublic(LastWithId(questions, questionOrder[k]).value, optionOrder)
    {
      var pre := questionOrder[..k];
      assert forall j :: 0 <= j < |pre| ==> pre[j] == questionOrder[j];
      CountPresentAll(questions, pre);
      OrderedQuestionsAt(questions, questionOrder, optionOrder, k);
    }
  }

  /** How many ids of the order name a question of the exam. */
  function CountPresent(questions: seq<Question>, order: seq<Id>): nat
  {
    if order == [] then 0
    else CountPresent(questions, order[..|order| - 1])
         + (if LastWithId(questions, order[|order| - 1]).Some? then 1 else 0)
  }
}
