/** The exam-attempt engine of controllers/attemptController.js over an
    in-memory store of attempts: start and resume, autosave, submit,
    auto-submit on a late save, re-ranking, anti-cheat events, the result
    view and the attempt history. The exams are a read-only map from id to
    exam; `now` is the server clock in milliseconds; the verified claims of
    an exam-session token are passed in (`None` when verification fails). */
module AttemptEngine {
  import opened Common
  import opened Strings
  import opened Exams
  import opened Attempts
  import opened Session
  import opened Grading
  import opened Ranking
  import opened Paging

  /** One answer as the request body carries it; a missing field is `None`. */
  datatype AnswerInput = AnswerInput(
    questionId: Option<Id>,
    selectedOptions: Option<seq<Id>>,
    timeSpent: Option<int>,
    answeredAt: Option<Millis>)

  /** `answers.map(a => ({...}))` for one entry: no selection is `[]`, no
      time spent is 0, and an absent or zero `answeredAt` is the receipt
      time; grading fields take their defaults. */
  function StoredAnswer(a: AnswerInput, now: Millis): (r: Answer)
    requires a.questionId.Some?
    ensures r.questionId == a.questionId.value && r.selectedOptions == a.selectedOptions.GetOr([])
    ensures r.timeSpent == a.timeSpent.GetOr(0) && !r.isCorrect && r.marksObtained == 0
    ensures r.answeredAt == Some(if a.answeredAt.None? || a.answeredAt == Some(0) then now else a.answeredAt.value)
  {
    Answer(a.questionId.value, a.selectedOptions.GetOr([]), false, 0, a.timeSpent.GetOr(0),
           Some(if a.answeredAt.None? || a.answeredAt == Some(0) then now else a.answeredAt.value))
  }

  /** The whole replacement answer array, or `None` when an entry has no
      question id (the schema's `required` makes the save fail). */
  function StoredAnswers(inputs: seq<AnswerInput>, now: Millis): (r: Option<seq<Answer>>)
    ensures r.Some? <==> forall k :: 0 <= k < |inputs| ==> inputs[k].questionId.Some?
    ensures r.Some? ==> (|r.value| == |inputs| &&
              forall k :: 0 <= k < |inputs| ==> r.value[k] == StoredAnswer(inputs[k], now))
  {
    if inputs == [] then Some([])
    else
      var init := StoredAnswers(inputs[..|inputs| - 1], now);
      var last := inputs[|inputs| - 1];
      if init.Some? && last.questionId.Some? then Some(init.value + [StoredAnswer(last, now)])
      else None
  }

  /** `Attempt.countDocuments({ exam, student })`: attempts in any status. */
  function CountFor(atts: seq<Attempt>, examId: Id, student: Id): (n: nat)
    ensures n <= |atts|
  {
    if atts == [] then 0
    else CountFor(atts[..|atts| - 1], examId, student)
         + (if atts[|atts| - 1].exam == examId && atts[|atts| - 1].student == student then 1 else 0)
  }

  predicate OpenFor(a: Attempt, examId: Id, student: Id) {
    a.exam == examId && a.student == student && a.status == InProgress
  }

  /** `Attempt.findOne({ exam, student, status: 'in-progress' })`. */
  function FirstInProgress(atts: seq<Attempt>, examId: Id, student: Id): (r: Option<nat>)
    ensures r.Some? ==> r.value < |atts| && OpenFor(atts[r.value], examId, student)
    ensures r.None? <==> forall k :: 0 <= k < |atts| ==> !OpenFor(atts[k], examId, student)
  {
    if atts == [] then None
    else if OpenFor(atts[0], examId, student) then Some(0)
    else
      var r := FirstInProgress(atts[1..], examId, student);
      if r.None? then None else Some(r.value + 1)
  }

  /** `Attempt.findOne({ _id, student })`. */
  function FindOwned(atts: seq<Attempt>, attemptId: Id, student: Id): (r: Option<nat>)
    ensures r.Some? ==> r.value < |atts| && atts[r.value].id == attemptId && atts[r.value].student == student
    ensures r.None? <==> forall k :: 0 <= k < |atts| ==> atts[k].id != attemptId || atts[k].student != student
  {
    if atts == [] then None
    else if atts[0].id == attemptId && atts[0].student == student then Some(0)
    else
      var r := FindOwned(atts[1..], attemptId, student);
      if r.None? then None else Some(r.value + 1)
  }

  /** The position of the attempt with that id (`updateOne({ _id })`). */
  function PositionOf(atts: seq<Attempt>, id: Id): (p: nat)
    requires exists k :: 0 <= k < |atts| && atts[k].id == id
    ensures p < |atts| && atts[p].id == id
  {
    if atts[0].id == id then 0
    else
      assert exists k :: 0 <= k < |atts[1..]| && atts[1..][k].id == id by {
        var k :| 0 <= k < |atts| && atts[k].id == id;
        assert atts[1..][k - 1] == atts[k];
      }
      1 + PositionOf(atts[1..], id)
  }

  /** How `startAttempt` decides, in the order of its checks. */
  datatype StartBranch = Refuse(failure: Failure) | Resume(index: nat) | Create

  function StartBranchFor(exams: map<Id, Exam>, examId: Id, student: Id, now: Millis,
                          atts: seq<Attempt>): StartBranch
  {
    if examId !in exams || !exams[examId].isPublished || !exams[examId].isActive then
      Refuse(Failure(404, "Exam not found or not available."))
    else if now < exams[examId].startTime then Refuse(Failure(400, "Exam has not started yet."))
    else if now > exams[examId].endTime then Refuse(Failure(400, "Exam has ended."))
    else if CountFor(atts, examId, student) >= exams[examId].maxAttempts then
      Refuse(Failure(400, "Maximum attempts reached."))
    else match FirstInProgress(atts, examId, student)
      case Some(i) => Resume(i)
      case None => Create
  }

  /** What a start or resume answers. */
  datatype StartView = StartView(
    attemptId: Id,
    token: ExamClaims,
    questions: seq<PublicQuestion>,
    savedAnswers: seq<Answer>,
    timeLeft: int,
    serverEndTime: Millis)

  datatype SaveOutcome = Saved(timeLeft: int, serverEndTime: Millis) | TimeExpired(attemptId: Id)

  /** The coarse result a submit answers when results are shown at once. */
  datatype Summary = Summary(
    marksObtained: int, totalMarks: int, percentage: int, isPassed: bool,
    correctCount: int, incorrectCount: int, skippedCount: int)

  datatype SubmitView = SubmitView(attemptId: Id, showResult: bool, result: Option<Summary>)

  function SummaryOf(a: Attempt): Summary {
    Summary(a.marksObtained, a.totalMarks, a.percentage, a.isPassed,
            a.correctCount, a.incorrectCount, a.skippedCount)
  }

  /** The attempt after `gradeAttempt` writes its fields, before re-ranking. */
  function Graded(a: Attempt, e: Exam, now: Millis): (r: Attempt)
    ensures r.answers == GradedAnswers(e, a.answers) && r.totalMarks == e.totalMarks
    ensures r.marksObtained == Max(0, RawScore(e, a.answers))
    ensures r.percentage == Percentage(r.marksObtained, e.totalMarks)
    ensures r.isPassed == (r.marksObtained >= e.passingMarks)
    ensures r.correctCount == CountVerdict(e, a.answers, Correct)
    ensures r.incorrectCount == CountVerdict(e, a.answers, Incorrect)
    ensures r.skippedCount == CountVerdict(e, a.answers, Skipped)
    ensures r.status == Submitted && r.submittedAt == Some(now)
    ensures r.id == a.id && r.exam == a.exam && r.student == a.student && r.rank == a.rank
    ensures r.tabSwitchCount == a.tabSwitchCount && r.fullscreenExitCount == a.fullscreenExitCount
    ensures r.flagged == a.flagged && r.flagReason == a.flagReason
  {
    var marks := Max(0, RawScore(e, a.answers));
    a.(answers := GradedAnswers(e, a.answers), totalMarks := e.totalMarks, marksObtained := marks,
       percentage := Percentage(marks, e.totalMarks), isPassed := marks >= e.passingMarks,
       correctCount := CountVerdict(e, a.answers, Correct),
       incorrectCount := CountVerdict(e, a.answers, Incorrect),
       skippedCount := CountVerdict(e, a.answers, Skipped),
       status := Submitted, submittedAt := Some(now))
  }

  /** The store after `gradeAttempt` on the attempt at `i`: graded, then
      the attempt's exam re-ranked. */
  function Finalize(atts: seq<Attempt>, i: nat, e: Exam, now: Millis): (r: seq<Attempt>)
    requires i < |atts|
    ensures |r| == |atts|
  {
    Reranked(atts[i := Graded(atts[i], e, now)], atts[i].exam)
  }

  /** The store after `autoSubmit`: graded and re-ranked as a submission,
      then the status overwritten with auto-submitted. */
  function AutoSubmittedStore(atts: seq<Attempt>, i: nat, e: Exam, now: Millis): (r: seq<Attempt>)
    requires i < |atts|
    ensures |r| == |atts|
  {
    var f := Finalize(atts, i, e, now);
    f[i := f[i].(status := AutoSubmitted)]
  }

  /** `"Tab switches: T, Fullscreen exits: F"`. */
  function FlagMessage(tabs: int, exits: int): string {
    "Tab switches: " + Show(tabs) + ", Fullscreen exits: " + Show(exits)
  }

  /** Submit's anti-cheat step: both counters overwritten from the request,
      and the flag raised with its message when tab switches exceed 5 or
      fullscreen exits exceed 3; an existing flag is never cleared. */
  function WithCounters(a: Attempt, tabs: int, exits: int): (r: Attempt)
    ensures r.tabSwitchCount == tabs && r.fullscreenExitCount == exits
    ensures (tabs > 5 || exits > 3) ==> r.flagged && r.flagReason == FlagMessage(tabs, exits)
    ensures !(tabs > 5 || exits > 3) ==> r.flagged == a.flagged && r.flagReason == a.flagReason
    ensures a.flagged ==> r.flagged
    ensures r.(tabSwitchCount := a.tabSwitchCount, fullscreenExitCount := a.fullscreenExitCount,
               flagged := a.flagged, flagReason := a.flagReason) == a
  {
    var b := a.(tabSwitchCount := tabs, fullscreenExitCount := exits);
    if tabs > 5 || exits > 3 then b.(flagged := true, flagReason := FlagMessage(tabs, exits)) else b
  }

  /** `reportEvent`'s counting: one more tab switch or fullscreen exit, and
      any other event type changes nothing. */
  function Counted(a: Attempt, eventType: string): (r: Attempt)
    ensures eventType == "tabswitch" ==> r == a.(tabSwitchCount := a.tabSwitchCount + 1)
    ensures eventType == "fullscreen" ==> r == a.(fullscreenExitCount := a.fullscreenExitCount + 1)
    ensures eventType != "tabswitch" && eventType != "fullscreen" ==> r == a
  {
    var b := if eventType == "tabswitch" then a.(tabSwitchCount := a.tabSwitchCount + 1) else a;
    if eventType == "fullscreen" then b.(fullscreenExitCount := b.fullscreenExitCount + 1) else b
  }

  /** An answer with its question, as the detailed result shows it. */
  datatype DetailedAnswer = DetailedAnswer(
    questionId: Id,
    questionText: string,
    qtype: QuestionType,
    options: seq<Choice>,
    selectedOptions: seq<Id>,
    isCorrect: bool,
    marksObtained: int,
    totalMarks: int,
    explanation: string,
    difficulty: Difficulty,
    section: string,
    timeSpent: int)

  datatype ResultView =
    | Pending(attemptId: Id, status: Status, submittedAt: Option<Millis>)
    | Detailed(attemptId: Id, title: string, category: string, summary: Summary, rank: int,
               startedAt: Millis, submittedAt: Option<Millis>, status: Status,
               tabSwitchCount: int, flagged: bool, answers: seq<DetailedAnswer>)

  /** The entry `getResult` builds for a stored answer to question `q`. */
  function Detail(q: Question, a: Answer): DetailedAnswer {
    DetailedAnswer(a.questionId, q.text, q.qtype, q.options, a.selectedOptions,
                   a.isCorrect, a.marksObtained, q.marks, q.explanation,
                   q.difficulty, q.section, a.timeSpent)
  }

  /** `answers.map(...).filter(Boolean)`: the stored answers whose question
      the exam still has, each with its question's text, options (with
      correctness), marks and explanation. Every entry comes from a stored
      answer, every stored answer with a known question gives its entry, and
      when every question is known there is one entry per answer, in order. */
  function DetailedAnswers(questions: seq<Question>, answers: seq<Answer>): (r: seq<DetailedAnswer>)
    ensures |r| <= |answers|
    ensures forall d :: d in r ==>
              exists a :: a in answers && FindQuestion(questions, a.questionId).Some?
                          && d == Detail(FindQuestion(questions, a.questionId).value, a)
  {
    if answers == [] then []
    else
      var prefix := answers[..|answers| - 1];
      var init := DetailedAnswers(questions, prefix);
      var a := answers[|answers| - 1];
      assert forall x :: x in prefix ==> x in answers;
      match FindQuestion(questions, a.questionId)
      case None => init
      case Some(q) => init + [Detail(q, a)]
  }

  /** Every stored answer whose question the exam has gives its entry. */
  lemma {:induction false} DetailedAnswersComplete(questions: seq<Question>, answers: seq<Answer>)
    ensures forall a :: a in answers && FindQuestion(questions, a.questionId).Some? ==>
              Detail(FindQuestion(questions, a.questionId).value, a) in DetailedAnswers(questions, answers)
  {
    if answers != [] {
      var prefix := answers[..|answers| - 1];
      DetailedAnswersComplete(questions, prefix);
      assert answers == prefix + [answers[|answers| - 1]];
    }
  }

  /** When the exam has every answered question, there is one entry per
      stored answer, in the stored order. */
  lemma {:induction false} DetailedAnswersInOrder(questions: seq<Question>, answers: seq<Answer>)
    requires forall k :: 0 <= k < |answers| ==> FindQuestion(questions, answers[k].questionId).Some?
    ensures var r := DetailedAnswers(questions, answers);
            |r| == |answers|
            && forall k :: 0 <= k < |answers| ==>
                 r[k] == Detail(FindQuestion(questions, answers[k].questionId).value, answers[k])
  {
    if answers != [] {
      var n := |answers| - 1;
      var prefix := answers[..n];
      assert forall k :: 0 <= k < n ==> prefix[k] == answers[k];
      DetailedAnswersInOrder(questions, prefix);
      var q := FindQuestion(questions, answers[n].questionId).value;
      var r0 := DetailedAnswers(questions, prefix);
      var r := DetailedAnswers(questions, answers);
      assert r == r0 + [Detail(q, answers[n])];
      forall k | 0 <= k < |answers|
        ensures r[k] == Detail(FindQuestion(questions, answers[k].questionId).value, answers[k])
      {
        if k < n {
          assert r[k] == r0[k];
        }
      }
    }
  }

  /** `countDocuments({ student })`. */
  function StudentCount(atts: seq<Attempt>, student: Id): nat {
    if atts == [] then 0
    else StudentCount(atts[..|atts| - 1], student) + (if atts[|atts| - 1].student == student then 1 else 0)
  }

  /** The store positions of one student's attempts, latest first: each such
      position exactly once, in strictly decreasing order. */
  function NewestPositions(atts: seq<Attempt>, student: Id): (idx: seq<nat>)
    ensures |idx| == StudentCount(atts, student)
    ensures forall k :: 0 <= k < |idx| ==> idx[k] < |atts| && atts[idx[k]].student == student
    ensures forall i, j :: 0 <= i < j < |idx| ==> idx[i] > idx[j]
    ensures forall p :: 0 <= p < |atts| && atts[p].student == student ==> p in idx
  {
    if atts == [] then []
    else
      var n := |atts| - 1;
      var init := NewestPositions(atts[..n], student);
      assert forall k :: 0 <= k < n ==> atts[..n][k] == atts[k];
      if atts[n].student == student then [n] + init else init
  }

  /** The attempts of one student, newest first (`sort({ createdAt: -1 })`:
      later in the store means created later): the attempts at the
      positions `NewestPositions` lists, in that order. */
  function NewestFirst(atts: seq<Attempt>, student: Id): (r: seq<Attempt>)
    ensures |r| == |NewestPositions(atts, student)| == StudentCount(atts, student)
    ensures forall k :: 0 <= k < |r| ==> r[k] == atts[NewestPositions(atts, student)[k]]
    ensures forall a :: a in r <==> a in atts && a.student == student
  {
    var idx := NewestPositions(atts, student);
    var r := seq(|idx|, k requires 0 <= k < |idx| => atts[idx[k]]);
    assert forall p :: 0 <= p < |atts| && atts[p].student == student ==> atts[p] in r by {
      forall p | 0 <= p < |atts| && atts[p].student == student ensures atts[p] in r {
        var k :| 0 <= k < |idx| && idx[k] == p;
        assert r[k] == atts[p];
      }
    }
    r
  }

  datatype History = History(attempts: seq<Attempt>, page: int, limit: int, total: nat, pages: int)

  /** Every attempt id is below `nextId`, ids are distinct, `'expired'` is
      never assigned, a finalized attempt has its submission time, and a
      student has at most one attempt in progress per exam. */
  predicate StoreInvariant(atts: seq<Attempt>, nextId: Id) {
    (forall k :: 0 <= k < |atts| ==> atts[k].id < nextId)
    && DistinctIds(atts)
    && (forall k :: 0 <= k < |atts| ==> atts[k].status != Expired)
    && (forall k :: 0 <= k < |atts| && IsFinalized(atts[k]) ==> atts[k].submittedAt.Some?)
    && (forall k, l :: (0 <= k < l < |atts| && atts[k].status == InProgress
                        && atts[l].status == InProgress) ==>
          atts[k].exam != atts[l].exam || atts[k].student != atts[l].student)
  }

  /** Changing fields the invariant does not look at keeps it. */
  lemma SameKeysKeepInvariant(before: seq<Attempt>, after: seq<Attempt>, nextId: Id)
    requires StoreInvariant(before, nextId) && |after| == |before|
    requires forall j :: 0 <= j < |before| ==>
               after[j].id == before[j].id && after[j].status == before[j].status
               && after[j].exam == before[j].exam && after[j].student == before[j].student
               && after[j].submittedAt == before[j].submittedAt
    ensures StoreInvariant(after, nextId)
  {
  }

  /** Changing ranks alone keeps the invariant. */
  lemma RanksOnlyKeepInvariant(before: seq<Attempt>, after: seq<Attempt>, nextId: Id)
    requires StoreInvariant(before, nextId) && |after| == |before|
    requires forall j :: 0 <= j < |before| ==> after[j].(rank := before[j].rank) == before[j]
    ensures StoreInvariant(after, nextId)
  {
    forall j | 0 <= j < |before|
      ensures after[j].id == before[j].id && after[j].status == before[j].status
      ensures after[j].exam == before[j].exam && after[j].student == before[j].student
      ensures after[j].submittedAt == before[j].submittedAt
    {
      assert after[j].(rank := before[j].rank) == before[j];
    }
    SameKeysKeepInvariant(before, after, nextId);
  }

  /** A new attempt in progress, with the next id, for a pair with no
      attempt in progress keeps the invariant. */
  lemma AppendKeepsInvariant(atts: seq<Attempt>, nextId: Id, a: Attempt)
    requires StoreInvariant(atts, nextId)
    requires a.id == nextId && a.status == InProgress
    requires forall k :: 0 <= k < |atts| ==> !OpenFor(atts[k], a.exam, a.student)
    ensures StoreInvariant(atts + [a], nextId + 1)
  {
  }

  /** Turning a finalized attempt into an auto-submitted one keeps the invariant. */
  lemma AutoSubmittedKeepsInvariant(atts: seq<Attempt>, nextId: Id, i: nat)
    requires StoreInvariant(atts, nextId) && i < |atts| && IsFinalized(atts[i])
    ensures StoreInvariant(atts[i := atts[i].(status := AutoSubmitted)], nextId)
  {
  }

  /** The store once the first `k` attempts of the order have their rank. */
  function PartlyRanked(before: seq<Attempt>, order: seq<Attempt>, k: nat): (r: seq<Attempt>)
    requires k <= |order|
    ensures |r| == |before|
    ensures forall j :: 0 <= j < |before| ==> r[j].(rank := before[j].rank) == before[j]
  {
    seq(|before|, j requires 0 <= j < |before| =>
      if RankIn(order[..k], before[j].id) > 0 then before[j].(rank := RankIn(order[..k], before[j].id))
      else before[j])
  }

  lemma PartlyRankedStep(before: seq<Attempt>, order: seq<Attempt>, k: nat, p: nat)
    requires DistinctIds(before) && DistinctIds(order) && k < |order|
    requires p < |before| && before[p].id == order[k].id
    ensures PartlyRanked(before, order, k + 1) ==
            PartlyRanked(before, order, k)[p := PartlyRanked(before, order, k)[p].(rank := k + 1)]
  {
    var cur := PartlyRanked(before, order, k);
    var next := PartlyRanked(before, order, k + 1);
    forall j | 0 <= j < |before|
      ensures next[j] == cur[p := cur[p].(rank := k + 1)][j]
    {
      RankInExtend(order, k, before[j].id);
      if j != p {
        assert before[j].id != before[p].id;
      } else {
        forall m | 0 <= m < k ensures order[..k][m].id != order[k].id {
          assert order[..k][m] == order[m];
        }
      }
    }
  }

  lemma PartlyRankedAll(before: seq<Attempt>, examId: Id)
    ensures PartlyRanked(before, RankingOrder(before, examId), |RankingOrder(before, examId)|)
            == Reranked(before, examId)
  {
    var order := RankingOrder(before, examId);
    assert order[..|order|] == order;
  }

  /** The store of attempts: every attempt id is below `nextId`, ids are
      distinct, `'expired'` is never assigned, a finalized attempt has its
      submission time, and a student has at most one attempt in progress
      per exam. */
  class AttemptStore {
    var attempts: seq<Attempt>
    var nextId: Id

    predicate Valid()
      reads this
    {
      StoreInvariant(attempts, nextId)
    }

    constructor ()
      ensures Valid() && attempts == [] && nextId == 0
    {
      attempts := [];
      nextId := 0;
    }

    /** `startAttempt`: the guards in their order (availability, window,
        attempt limit), then a resume of the attempt in progress with a
        freshly issued token, or a new attempt with its deadline and its
        question and option orders. */
    method Start(exams: map<Id, Exam>, examId: Id, student: Id, now: Millis,
                 ipAddress: string, deviceInfo: string) returns (r: Result<StartView>)
      requires Valid()
      modifies this
      ensures Valid()
      ensures StartBranchFor(exams, examId, student, now, old(attempts)).Refuse? ==>
                r == Err(StartBranchFor(exams, examId, student, now, old(attempts)).failure)
                && attempts == old(attempts) && nextId == old(nextId)
      ensures StartBranchFor(exams, examId, student, now, old(attempts)).Resume? ==>
                var i := StartBranchFor(exams, examId, student, now, old(attempts)).index;
                var a := old(attempts)[i];
                var token := ExamClaims(Some(a.id), student, examId);
                i < |old(attempts)| && attempts == old(attempts)[i := a.(examToken := token)]
                && nextId == old(nextId)
                && r == Ok(StartView(a.id, token,
                                     OrderedQuestions(exams[examId].questions, a.questionOrder, a.optionOrder),
                                     a.answers, TimeLeftSeconds(a.serverEndTime, now), a.serverEndTime))
      ensures StartBranchFor(exams, examId, student, now, old(attempts)) == Create ==>
                var e := exams[examId];
                var id := old(nextId);
                |attempts| == |old(attempts)| + 1 && attempts[..|old(attempts)|] == old(attempts)
                && nextId == id + 1
                && var a := attempts[|old(attempts)|];
                a == NewAttempt(id, examId, student, a.questionOrder, a.optionOrder,
                                ServerEndTime(now, e.duration, e.endTime), now, ipAddress, deviceInfo,
                                ExamClaims(Some(id), student, examId))
                && multiset(a.questionOrder) == multiset(QuestionIds(e.questions))
                && (!e.shuffleQuestions ==> a.questionOrder == QuestionIds(e.questions))
                && (forall k :: 0 <= k < |e.questions| && LastBefore(e.questions, k, |e.questions|) ==>
                      e.questions[k].id in a.optionOrder &&
                      OrderFits(a.optionOrder[e.questions[k].id], e.questions[k], e.shuffleOptions))
                && r == Ok(StartView(id, a.examToken,
                                     OrderedQuestions(e.questions, a.questionOrder, a.optionOrder),
                                     [], e.duration * 60, a.serverEndTime))
    {
      if examId !in exams || !exams[examId].isPublished || !exams[examId].isActive {
        r := Err(Failure(404, "Exam not found or not available."));
        return;
      }
      var e := exams[examId];
      if now < e.startTime {
        r := Err(Failure(400, "Exam has not started yet."));
        return;
      }
      if now > e.endTime {
        r := Err(Failure(400, "Exam has ended."));
        return;
      }
      if CountFor(attempts, examId, student) >= e.maxAttempts {
        r := Err(Failure(400, "Maximum attempts reached."));
        return;
      }
      var existing := FirstInProgress(attempts, examId, student);
      if existing.Some? {
        var i := existing.value;
        var a := attempts[i];
        var token := ExamClaims(Some(a.id), student, examId);
        ghost var before := attempts;
        attempts := attempts[i := a.(examToken := token)];
        SameKeysKeepInvariant(before, attempts, nextId);
        r := Ok(StartView(a.id, token, OrderedQuestions(e.questions, a.questionOrder, a.optionOrder),
                          a.answers, TimeLeftSeconds(a.serverEndTime, now), a.serverEndTime));
        return;
      }
      var serverEndTime := ServerEndTime(now, e.duration, e.endTime);
      var questionOrder := QuestionIds(e.questions);
      if e.shuffleQuestions {
        questionOrder := ShuffleArray(questionOrder);
      }
      var optionOrder := BuildOptionOrder(e.questions, e.shuffleOptions);
      var id := nextId;
      var a := NewAttempt(id, examId, student, questionOrder, optionOrder, serverEndTime, now,
                          ipAddress, deviceInfo, ExamClaims(Some(id), student, examId));
      ghost var before := attempts;
      AppendKeepsInvariant(attempts, nextId, a);
      attempts := attempts + [a];
      nextId := nextId + 1;
      assert attempts[..|before|] == before;
      r := Ok(StartView(id, a.examToken, OrderedQuestions(e.questions, questionOrder, optionOrder),
                        [], e.duration * 60, serverEndTime));
    }

    /** `updateRanks(examId)`: every attempt of the ranking order, one after
        the other, gets its position plus one as its rank. */
    method UpdateRanks(examId: Id)
      requires Valid()
      modifies this
      ensures attempts == Reranked(old(attempts), examId) && nextId == old(nextId)
      ensures Valid()
    {
      var before := attempts;
      var order := RankingOrder(attempts, examId);
      OrderDistinct(attempts, examId);
      var k := 0;
      while k < |order|
        invariant 0 <= k <= |order| && nextId == old(nextId)
        invariant attempts == PartlyRanked(before, order, k)
      {
        assert order[k] in before;
        var p := PositionOf(before, order[k].id);
        PartlyRankedStep(before, order, k, p);
        attempts := attempts[p := attempts[p].(rank := k + 1)];
        k := k + 1;
      }
      PartlyRankedAll(before, examId);
      RanksOnlyKeepInvariant(before, attempts, nextId);
    }

    /** `gradeAttempt`: grades the attempt at `i` against its exam, marks it
        submitted now, and re-ranks its exam. */
    method GradeAttempt(i: nat, e: Exam, now: Millis)
      requires Valid() && i < |attempts|
      modifies this
      ensures attempts == Finalize(old(attempts), i, e, now) && nextId == old(nextId)
      ensures Valid()
    {
      var a := attempts[i];
      var g := Grade(e, a.answers);
      var b := a.(answers := g.answers, totalMarks := g.totalMarks,
                  marksObtained := g.marksObtained, percentage := g.percentage,
                  isPassed := g.isPassed, correctCount := g.correctCount,
                  incorrectCount := g.incorrectCount, skippedCount := g.skippedCount,
                  status := Submitted, submittedAt := Some(now));
      attempts := attempts[i := b];
      UpdateRanks(a.exam);
    }

    /** `autoSubmit`: `gradeAttempt`, then the status overwritten with
        auto-submitted; the ranks written in between are kept. */
    method AutoSubmit(i: nat, e: Exam, now: Millis)
      requires Valid() && i < |attempts|
      modifies this
      ensures attempts == AutoSubmittedStore(old(attempts), i, e, now) && nextId == old(nextId)
      ensures Valid()
    {
      ghost var before := attempts;
      GradeAttempt(i, e, now);
      ghost var g := before[i := Graded(before[i], e, now)];
      assert attempts == Reranked(g, before[i].exam);
      assert attempts[i].(rank := g[i].rank) == g[i];
      AutoSubmittedKeepsInvariant(attempts, nextId, i);
      attempts := attempts[i := attempts[i].(status := AutoSubmitted)];
    }

    /** `saveAnswers`: token, ownership, session and deadline checks, then
        the whole answer array replaced (when the body has one) and the
        remaining time stored; a late save auto-submits the stored answers. */
    method Save(exams: map<Id, Exam>, attemptId: Id, student: Id, decoded: Option<ExamClaims>,
                answers: Option<seq<AnswerInput>>, now: Millis) returns (r: Result<SaveOutcome>)
      requires Valid()
      modifies this
      ensures Valid() && nextId == old(nextId)
      ensures decoded.None? ==> r == Err(Failure(401, "Invalid exam session.")) && attempts == old(attempts)
      ensures decoded.Some? && (FindOwned(old(attempts), attemptId, student).None? ||
                                old(attempts)[FindOwned(old(attempts), attemptId, student).value].status != InProgress) ==>
                r == Err(Failure(404, "Attempt not found or already submitted.")) && attempts == old(attempts)
      ensures decoded.Some? && FindOwned(old(attempts), attemptId, student).Some? ==>
                var i := FindOwned(old(attempts), attemptId, student).value;
                var a := old(attempts)[i];
                a.status == InProgress ==>
                  (decoded.value.attemptId != Some(attemptId) ==>
                     r == Err(Failure(401, "Invalid exam session.")) && attempts == old(attempts))
                  && (decoded.value.attemptId == Some(attemptId) && now > a.serverEndTime ==>
                        (a.exam !in exams ==> r.Err? && r.failure.status == 500 && attempts == old(attempts))
                        && (a.exam in exams ==> (r == Ok(TimeExpired(attemptId))
                              && attempts == AutoSubmittedStore(old(attempts), i, exams[a.exam], now))))
                  && (decoded.value.attemptId == Some(attemptId) && now <= a.serverEndTime ==>
                        (answers.Some? && StoredAnswers(answers.value, now).None? ==>
                           r.Err? && r.failure.status == 500 && attempts == old(attempts))
                        && (answers.None? || StoredAnswers(answers.value, now).Some? ==>
                              var stored := if answers.None? then a.answers else StoredAnswers(answers.value, now).value;
                              var left := TimeLeftSeconds(a.serverEndTime, now);
                              attempts == old(attempts)[i := a.(answers := stored, timeLeft := Some(left))]
                              && r == Ok(Saved(left, a.serverEndTime))))
    {
      if decoded.None? {
        r := Err(Failure(401, "Invalid exam session."));
        return;
      }
      var found := FindOwned(attempts, attemptId, student);
      if found.None? || attempts[found.value].status != InProgress {
        r := Err(Failure(404, "Attempt not found or already submitted."));
        return;
      }
      var i := found.value;
      var a := attempts[i];
      if decoded.value.attemptId != Some(attemptId) {
        r := Err(Failure(401, "Invalid exam session."));
        return;
      }
      if now > a.serverEndTime {
        if a.exam !in exams {
          r := Err(Failure(500, "Cannot read properties of null"));
          return;
        }
        AutoSubmit(i, exams[a.exam], now);
        r := Ok(TimeExpired(attemptId));
        return;
      }
      var stored := a.answers;
      if answers.Some? {
        var replaced := StoredAnswers(answers.value, now);
        if replaced.None? {
          r := Err(Failure(500, "Attempt validation failed: questionId is required"));
          return;
        }
        stored := replaced.value;
      }
      var left := TimeLeftSeconds(a.serverEndTime, now);
      attempts := attempts[i := a.(answers := stored, timeLeft := Some(left))];
      r := Ok(Saved(left, a.serverEndTime));
    }

    /** `submitAttempt`: token, ownership, status and session checks (no
        deadline check), then the answers replaced (when the body has
        them), the counters overwritten and the flag rule applied, the
        attempt graded and its exam re-ranked. */
    method Submit(exams: map<Id, Exam>, attemptId: Id, student: Id, decoded: Option<ExamClaims>,
                  answers: Option<seq<AnswerInput>>, tabSwitchCount: Option<int>,
                  fullscreenExitCount: Option<int>, now: Millis) returns (r: Result<SubmitView>)
      requires Valid()
      modifies this
      ensures Valid() && nextId == old(nextId)
      ensures decoded.None? ==> r == Err(Failure(401, "Invalid exam session.")) && attempts == old(attempts)
      ensures decoded.Some? && FindOwned(old(attempts), attemptId, student).None? ==>
                r == Err(Failure(404, "Attempt not found.")) && attempts == old(attempts)
      ensures decoded.Some? && FindOwned(old(attempts), attemptId, student).Some? ==>
                var i := FindOwned(old(attempts), attemptId, student).value;
                var a := old(attempts)[i];
                (a.status != InProgress ==>
                   r == Err(Failure(400, "Attempt already submitted.")) && attempts == old(attempts))
                && (a.status == InProgress && decoded.value.attemptId != Some(attemptId) ==>
                      r == Err(Failure(401, "Invalid exam session.")) && attempts == old(attempts))
                && (a.status == InProgress && decoded.value.attemptId == Some(attemptId) ==>
                      ((a.exam !in exams || (answers.Some? && StoredAnswers(answers.value, now).None?)) ==>
                         r.Err? && r.failure.status == 500 && attempts == old(attempts))
                      && (a.exam in exams && (answers.None? || StoredAnswers(answers.value, now).Some?) ==>
                            var e := exams[a.exam];
                            var stored := if answers.None? then a.answers else StoredAnswers(answers.value, now).value;
                            var prepared := WithCounters(a.(answers := stored), tabSwitchCount.GetOr(0),
                                                         fullscreenExitCount.GetOr(0));
                            var after := Finalize(old(attempts)[i := prepared], i, e, now);
                            attempts == after
                            && r == Ok(SubmitView(attemptId, e.showResultImmediately,
                                                  if e.showResultImmediately then Some(SummaryOf(after[i])) else None))))
    {
      if decoded.None? {
        r := Err(Failure(401, "Invalid exam session."));
        return;
      }
      var found := FindOwned(attempts, attemptId, student);
      if found.None? {
        r := Err(Failure(404, "Attempt not found."));
        return;
      }
      var i := found.value;
      var a := attempts[i];
      if a.status != InProgress {
        r := Err(Failure(400, "Attempt already submitted."));
        return;
      }
      if decoded.value.attemptId != Some(attemptId) {
        r := Err(Failure(401, "Invalid exam session."));
        return;
      }
      var stored := a.answers;
      if answers.Some? {
        var replaced := StoredAnswers(answers.value, now);
        if replaced.None? {
          r := Err(Failure(500, "Attempt validation failed: questionId is required"));
          return;
        }
        stored := replaced.value;
      }
      if a.exam !in exams {
        r := Err(Failure(500, "Cannot read properties of null"));
        return;
      }
      var e := exams[a.exam];
      var prepared := WithCounters(a.(answers := stored), tabSwitchCount.GetOr(0), fullscreenExitCount.GetOr(0));
      ghost var before := attempts;
      attempts := attempts[i := prepared];
      SameKeysKeepInvariant(before, attempts, nextId);
      GradeAttempt(i, e, now);
      var result := if e.showResultImmediately then Some(SummaryOf(attempts[i])) else None;
      r := Ok(SubmitView(attemptId, e.showResultImmediately, result));
    }

    /** `reportEvent`: only an attempt in progress of the caller counts the
        event; no session token is checked. */
    method ReportEvent(attemptId: Id, student: Id, eventType: string) returns (r: Result<Id>)
      requires Valid()
      modifies this
      ensures Valid() && nextId == old(nextId)
      ensures (FindOwned(old(attempts), attemptId, student).None? ||
               old(attempts)[FindOwned(old(attempts), attemptId, student).value].status != InProgress) ==>
                r == Err(Failure(404, "Attempt not found.")) && attempts == old(attempts)
      ensures FindOwned(old(attempts), attemptId, student).Some? ==>
                var i := FindOwned(old(attempts), attemptId, student).value;
                old(attempts)[i].status == InProgress ==>
                  r == Ok(attemptId) && attempts == old(attempts)[i := Counted(old(attempts)[i], eventType)]
    {
      var found := FindOwned(attempts, attemptId, student);
      if found.None? || attempts[found.value].status != InProgress {
        r := Err(Failure(404, "Attempt not found."));
        return;
      }
      var i := found.value;
      ghost var before := attempts;
      attempts := attempts[i := Counted(attempts[i], eventType)];
      SameKeysKeepInvariant(before, attempts, nextId);
      r := Ok(attemptId);
    }

    /** `getResult`: a missing attempt is 404 and one in progress 400; when
        results are not shown at once only the status and the submission
        time are answered, otherwise the marks and the detailed answers. */
    function ResultFor(exams: map<Id, Exam>, attemptId: Id, student: Id): (r: Result<ResultView>)
      reads this
      ensures FindOwned(attempts, attemptId, student).None? <==> r == Err(Failure(404, "Attempt not found."))
      ensures FindOwned(attempts, attemptId, student).Some? ==>
                var a := attempts[FindOwned(attempts, attemptId, student).value];
                (a.status == InProgress <==> r == Err(Failure(400, "Exam not yet submitted.")))
                && (a.status != InProgress ==> (r.Ok? <==> a.exam in exams))
                && (a.status != InProgress && a.exam !in exams ==> r.Err? && r.failure.status == 500)
      ensures r.Ok? ==> var a := attempts[FindOwned(attempts, attemptId, student).value];
                        a.status != InProgress && a.exam in exams
                        && (r.value.Detailed? <==> exams[a.exam].showResultImmediately)
      ensures r.Ok? && r.value.Pending? ==>
                var a := attempts[FindOwned(attempts, attemptId, student).value];
                r.value == Pending(a.id, a.status, a.submittedAt)
      ensures r.Ok? && r.value.Detailed? ==>
                var a := attempts[FindOwned(attempts, attemptId, student).value];
                var e := exams[a.exam];
                r.value.attemptId == a.id && r.value.title == e.title && r.value.category == e.category
                && r.value.summary == SummaryOf(a) && r.value.rank == a.rank
                && r.value.startedAt == a.startedAt && r.value.submittedAt == a.submittedAt
                && r.value.status == a.status && r.value.tabSwitchCount == a.tabSwitchCount
                && r.value.flagged == a.flagged
                && r.value.answers == DetailedAnswers(e.questions, a.answers)
    {
      match FindOwned(attempts, attemptId, student)
      case None => Err(Failure(404, "Attempt not found."))
      case Some(i) =>
        var a := attempts[i];
        if a.status == InProgress then Err(Failure(400, "Exam not yet submitted."))
        else if a.exam !in exams then Err(Failure(500, "Cannot read properties of null"))
        else
          var e := exams[a.exam];
          if !e.showResultImmediately then Ok(Pending(a.id, a.status, a.submittedAt))
          else Ok(Detailed(a.id, e.title, e.category, SummaryOf(a), a.rank, a.startedAt, a.submittedAt,
                           a.status, a.tabSwitchCount, a.flagged, DetailedAnswers(e.questions, a.answers)))
    }

    /** `getHistory`: the caller's attempts, newest first, one page of them. */
    function HistoryFor(student: Id, pageRaw: Option<string>, limitRaw: Option<string>): (r: Result<History>)
      reads this
      ensures var p := PageRequestOf(pageRaw, limitRaw);
              (r.Err? <==> p.skip < 0)
              && (r.Ok? ==> r.value.total == |NewestFirst(attempts, student)| == StudentCount(attempts, student)
                            && r.value.page == p.page
                            && r.value.limit == p.limit && r.value.pages == PageCount(r.value.total, p.limit)
                            && r.value.attempts == Window(NewestFirst(attempts, student), p.skip, p.limit).value
                            && forall a :: a in r.value.attempts ==> a in attempts && a.student == student)
    {
      var p := PageRequestOf(pageRaw, limitRaw);
      var mine := NewestFirst(attempts, student);
      match Window(mine, p.skip, p.limit)
      case Err(f) => Err(f)
      case Ok(w) =>
        WindowMembers(mine, p.skip, p.limit);
        Ok(History(w, p.page, p.limit, |mine|, PageCount(|mine|, p.limit)))
    }
  }

  /** Extending a prefix of the order by one attempt ranks only that id anew. */
  lemma RankInExtend(order: seq<Attempt>, k: nat, id: Id)
    requires k < |order|
    ensures RankIn(order[..k + 1], id) ==
            if RankIn(order[..k], id) > 0 then RankIn(order[..k], id)
            else if order[k].id == id then k + 1 else 0
  {
    var longer := order[..k + 1];
    assert forall m :: 0 <= m < k ==> longer[m] == order[..k][m];
  }

  /** The start guards in their order: 404 exactly for a missing,
      unpublished or inactive exam; then 400 before the window opens, 400
      after it closes, 400 at the attempt limit; a resume or a new attempt
      only inside the window and below the limit. */
  lemma StartGuardOrder(exams: map<Id, Exam>, examId: Id, student: Id, now: Millis, atts: seq<Attempt>)
    ensures var b := StartBranchFor(exams, examId, student, now, atts);
            (b.Refuse? && b.failure.status == 404) <==>
              (examId !in exams || !exams[examId].isPublished || !exams[examId].isActive)
    ensures var b := StartBranchFor(exams, examId, student, now, atts);
            !b.Refuse? ==>
              examId in exams && exams[examId].startTime <= now <= exams[examId].endTime
              && CountFor(atts, examId, student) < exams[examId].maxAttempts
    ensures var b := StartBranchFor(exams, examId, student, now, atts);
            b.Resume? ==> b.index < |atts| && OpenFor(atts[b.index], examId, student)
    ensures var b := StartBranchFor(exams, examId, student, now, atts);
            b == Create ==> forall k :: 0 <= k < |atts| ==> !OpenFor(atts[k], examId, student)
  {
  }

  lemma {:induction false} CountForAppend(atts: seq<Attempt>, a: Attempt, examId: Id, student: Id)
    ensures CountFor(atts + [a], examId, student) ==
            CountFor(atts, examId, student) + (if a.exam == examId && a.student == student then 1 else 0)
  {
    assert (atts + [a])[..|atts|] == atts;
  }

  /** Creating an attempt keeps the caller's count of attempts on the exam
      within `maxAttempts`. */
  lemma CreateRespectsLimit(exams: map<Id, Exam>, examId: Id, student: Id, now: Millis,
                            atts: seq<Attempt>, a: Attempt)
    requires StartBranchFor(exams, examId, student, now, atts) == Create
    requires a.exam == examId && a.student == student
    ensures CountFor(atts + [a], examId, student) <= exams[examId].maxAttempts
  {
    CountForAppend(atts, a, examId, student);
  }

  /** As written, the attempt limit is checked before the resume lookup: a
      student at the limit cannot resume the attempt they have in progress. */
  lemma LimitBlocksResume(exams: map<Id, Exam>, examId: Id, student: Id, now: Millis,
                          atts: seq<Attempt>, k: nat)
    requires examId in exams && exams[examId].isPublished && exams[examId].isActive
    requires exams[examId].startTime <= now <= exams[examId].endTime
    requires k < |atts| && OpenFor(atts[k], examId, student)
    requires CountFor(atts, examId, student) >= exams[examId].maxAttempts
    ensures StartBranchFor(exams, examId, student, now, atts) == Refuse(Failure(400, "Maximum attempts reached."))
  {
  }

  /** A sixth start with `maxAttempts` 5 and five attempts of the caller on
      the exam already stored, in whatever status, is refused. */
  lemma SixthAttemptRefused(exams: map<Id, Exam>, examId: Id, student: Id, now: Millis, atts: seq<Attempt>)
    requires examId in exams && exams[examId].isPublished && exams[examId].isActive
    requires exams[examId].startTime <= now <= exams[examId].endTime
    requires exams[examId].maxAttempts == 5
    requires |atts| == 5 && forall k :: 0 <= k < 5 ==> atts[k].exam == examId && atts[k].student == student
    ensures StartBranchFor(exams, examId, student, now, atts) == Refuse(Failure(400, "Maximum attempts reached."))
  {
    CountAll(atts, examId, student);
  }

  lemma {:induction false} CountAll(atts: seq<Attempt>, examId: Id, student: Id)
    requires forall k :: 0 <= k < |atts| ==> atts[k].exam == examId && atts[k].student == student
    ensures CountFor(atts, examId, student) == |atts|
  {
    if atts != [] {
      var init := atts[..|atts| - 1];
      assert forall k :: 0 <= k < |init| ==> init[k] == atts[k];
      CountAll(init, examId, student);
    }
  }

  /** As written, submit checks no deadline: even a submit after the
      deadline ends as `'submitted'`, not as auto-submitted. */
  lemma LateSubmitEndsSubmitted(atts: seq<Attempt>, i: nat, e: Exam, now: Millis)
    requires i < |atts| && now > atts[i].serverEndTime
    ensures Finalize(atts, i, e, now)[i].status == Submitted
    ensures Finalize(atts, i, e, now)[i].submittedAt == Some(now)
  {
    var g := atts[i := Graded(atts[i], e, now)];
    assert Finalize(atts, i, e, now)[i].(rank := g[i].rank) == g[i];
  }

  /** A late save ends like an on-time submit of the stored answers that
      keeps the stored counters without raising the flag: the same store,
      grades and ranks, except that the attempt is auto-submitted. */
  lemma LateSaveMatchesSubmit(atts: seq<Attempt>, i: nat, e: Exam, now: Millis)
    requires i < |atts|
    requires !(atts[i].tabSwitchCount > 5 || atts[i].fullscreenExitCount > 3)
    ensures var submitted := Finalize(atts[i := WithCounters(atts[i].(answers := atts[i].answers),
                                                              atts[i].tabSwitchCount,
                                                              atts[i].fullscreenExitCount)], i, e, now);
            AutoSubmittedStore(atts, i, e, now) == submitted[i := submitted[i].(status := AutoSubmitted)]
  {
    var a := atts[i];
    assert WithCounters(a.(answers := a.answers), a.tabSwitchCount, a.fullscreenExitCount) == a;
    assert atts[i := a] == atts;
  }

  /** Six tab switches raise the flag with a reason citing 6; five alone
      leave an unflagged attempt unflagged. */
  lemma FlagThresholdExample(a: Attempt)
    ensures WithCounters(a, 6, 0).flagged
    ensures WithCounters(a, 6, 0).flagReason == "Tab switches: 6, Fullscreen exits: 0"
    ensures !a.flagged ==> !WithCounters(a, 5, 0).flagged
  {
    FlagMessageSixZero();
  }

  lemma FlagMessageSixZero()
    ensures FlagMessage(6, 0) == "Tab switches: 6, Fullscreen exits: 0"
  {
    assert Show(6) == "6" && Show(0) == "0";
  }

  /** Once graded and re-ranked, the attempt holds a rank between 1 and the
      number of finalized attempts of its exam. */
  lemma FinalizedAttemptIsRanked(atts: seq<Attempt>, nextId: Id, i: nat, e: Exam, now: Millis)
    requires StoreInvariant(atts, nextId) && i < |atts|
    ensures var g := atts[i := Graded(atts[i], e, now)];
            1 <= Finalize(atts, i, e, now)[i].rank <= |Finalized(g, atts[i].exam)|
  {
    var g := atts[i := Graded(atts[i], e, now)];
    assert DistinctIds(g) by {
      forall j, k | 0 <= j < k < |g| ensures g[j].id != g[k].id {
        assert g[j].id == atts[j].id && g[k].id == atts[k].id;
      }
    }
    RankedIffFinalized(g, atts[i].exam, g[i]);
  }

}
