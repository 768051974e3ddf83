/** The student-facing exam catalogue of controllers/examController.js:
    the listing of published, active exams in start-time order with the
    caller's attempt counts and a time-window status, and the single-exam
    view. The exam collection is a sequence in store order; questions are
    shown without `isCorrect` and without `explanation`. */
module ExamCatalog {
  import opened Common
  import opened Sorting
  import opened Exams
  import opened Session
  import Attempts
  import opened AttemptEngine

  /** `'upcoming'`, `'expired'` or `'active'`. */
  datatype ExamStatus = Upcoming | Expired | Active

  /** `now < startTime ? 'upcoming' : now > endTime ? 'expired' : 'active'`. */
  function StatusAt(e: Exam, now: Millis): (s: ExamStatus)
    ensures s == Upcoming <==> now < e.startTime
    ensures s == Expired <==> e.startTime <= now && now > e.endTime
    ensures s == Active <==> e.startTime <= now <= e.endTime
  {
    if now < e.startTime then Upcoming else if now > e.endTime then Expired else Active
  }

  /** The listed status agrees with the start guards: for an available
      exam, `'active'` exactly when neither window refusal applies. */
  lemma StatusAgreesWithStart(exams: map<Id, Exam>, examId: Id, student: Id, now: Millis,
                              atts: seq<Attempts.Attempt>)
    requires examId in exams && exams[examId].isPublished && exams[examId].isActive
    ensures var b := StartBranchFor(exams, examId, student, now, atts);
            StatusAt(exams[examId], now) == Upcoming <==> b == Refuse(Failure(400, "Exam has not started yet."))
    ensures var b := StartBranchFor(exams, examId, student, now, atts);
            StatusAt(exams[examId], now) == Expired <==> b == Refuse(Failure(400, "Exam has ended."))
    ensures StatusAt(exams[examId], now) != Active ==> StartBranchFor(exams, examId, student, now, atts).Refuse?
  {
  }

  /** A question as the projection shows it. */
  datatype ShownQuestion = ShownQuestion(
    id: Id,
    text: string,
    qtype: QuestionType,
    options: seq<PublicOption>,
    marks: int,
    negativeMark: int,
    difficulty: Difficulty,
    section: string,
    timeLimit: int)

  /** `select('-questions.options.isCorrect -questions.explanation')`. */
  function Redact(questions: seq<Question>): (r: seq<ShownQuestion>)
    ensures |r| == |questions|
    ensures forall k :: 0 <= k < |r| ==>
              r[k].id == questions[k].id && r[k].options == Strip(questions[k].options)
              && r[k].text == questions[k].text && r[k].marks == questions[k].marks
  {
    seq(|questions|, k requires 0 <= k < |questions| =>
      var q := questions[k];
      ShownQuestion(q.id, q.text, q.qtype, Strip(q.options), q.marks, q.negativeMark,
                    q.difficulty, q.section, q.timeLimit))
  }

  /** One entry of the listing: the exam's own fields (`header`, whose
      question list is emptied), its shown questions, and the enrichment. */
  datatype Listing = Listing(
    header: Exam,
    questions: seq<ShownQuestion>,
    userAttempts: nat,
    status: ExamStatus,
    questionCount: nat)

  /** `Exam.find({ isPublished: true, isActive: true })`, in store order. */
  function Available(exams: seq<Exam>): (r: seq<Exam>)
    ensures |r| <= |exams|
    ensures forall e :: e in r <==> e in exams && e.isPublished && e.isActive
  {
    if exams == [] then []
    else
      var init := Available(exams[..|exams| - 1]);
      var last := exams[|exams| - 1];
      assert exams == exams[..|exams| - 1] + [last];
      if last.isPublished && last.isActive then init + [last] else init
  }

  function ByStartTime(e: Exam): Key {
    Key(e.startTime, 0, 0)
  }

  /** `.sort({ startTime: 1 })` of the available exams. */
  function Listed(exams: seq<Exam>): (r: seq<Exam>)
    ensures multiset(r) == multiset(Available(exams))
    ensures forall e :: e in r <==> e in exams && e.isPublished && e.isActive
    ensures forall i, j :: 0 <= i < j < |r| ==> r[i].startTime <= r[j].startTime
  {
    var r := SortBy(Available(exams), ByStartTime);
    SortByMembers(Available(exams), ByStartTime);
    StartTimeOrder(r);
    r
  }

  lemma StartTimeOrder(r: seq<Exam>)
    requires SortedBy(r, ByStartTime)
    ensures forall i, j :: 0 <= i < j < |r| ==> r[i].startTime <= r[j].startTime
  {
    forall i, j | 0 <= i < j < |r| ensures r[i].startTime <= r[j].startTime {
      assert KeyLe(ByStartTime(r[i]), ByStartTime(r[j]));
    }
  }

  /** The `$match`/`$group` counting of the caller's attempts per listed
      exam, gathered into `attemptMap`: only exams with at least one attempt
      get an entry. */
  method AttemptCounts(atts: seq<Attempts.Attempt>, examIds: seq<Id>, student: Id) returns (m: map<Id, nat>)
    ensures forall id :: id in m <==> id in examIds && CountFor(atts, id, student) > 0
    ensures forall id :: id in m ==> m[id] == CountFor(atts, id, student)
  {
    m := map[];
    var i := 0;
    while i < |atts|
      invariant 0 <= i <= |atts|
      invariant forall id :: id in m <==> id in examIds && CountFor(atts[..i], id, student) > 0
      invariant forall id :: id in m ==> m[id] == CountFor(atts[..i], id, student)
    {
      var a := atts[i];
      assert atts[..i + 1][..i] == atts[..i];
      if a.student == student && a.exam in examIds {
        m := m[a.exam := (if a.exam in m then m[a.exam] else 0) + 1];
      }
      i := i + 1;
    }
    assert atts[..|atts|] == atts;
  }

  /** `attemptMap[id] || 0`. */
  function UserAttempts(m: map<Id, nat>, id: Id): nat {
    if id in m then m[id] else 0
  }

  function Enrich(e: Exam, userAttempts: nat, now: Millis): Listing {
    Listing(e.(questions := []), Redact(e.questions), userAttempts, StatusAt(e, now), |e.questions|)
  }

  /** `getExams`: the listed exams, each enriched with the caller's number of
      attempts (0 when there is none), its status at `now` and its number of
      questions. */
  method GetExams(exams: seq<Exam>, atts: seq<Attempts.Attempt>, student: Id, now: Millis)
    returns (r: seq<Listing>)
    ensures |r| == |Listed(exams)|
    ensures forall k :: 0 <= k < |r| ==>
              r[k] == Enrich(Listed(exams)[k], CountFor(atts, Listed(exams)[k].id, student), now)
  {
    var listed := Listed(exams);
    var ids := seq(|listed|, k requires 0 <= k < |listed| => listed[k].id);
    var m := AttemptCounts(atts, ids, student);
    forall k | 0 <= k < |listed| ensures UserAttempts(m, listed[k].id) == CountFor(atts, listed[k].id, student) {
      assert ids[k] == listed[k].id;
    }
    r := seq(|listed|, k requires 0 <= k < |listed| => Enrich(listed[k], UserAttempts(m, listed[k].id), now));
  }

  /** The listing entries keep the exam's fields, count its questions and
      are in start-time order. */
  lemma ListingShape(exams: seq<Exam>, atts: seq<Attempts.Attempt>, student: Id, now: Millis,
                     r: seq<Listing>, i: nat, j: nat)
    requires |r| == |Listed(exams)|
    requires forall k :: 0 <= k < |r| ==>
               r[k] == Enrich(Listed(exams)[k], CountFor(atts, Listed(exams)[k].id, student), now)
    requires i < j < |r|
    ensures r[i].header.startTime <= r[j].header.startTime
    ensures r[i].header.isPublished && r[i].header.isActive
    ensures r[i].questionCount == |r[i].questions|
    ensures (r[i].status == Active) <==> r[i].header.startTime <= now <= r[i].header.endTime
  {
    assert Listed(exams)[i] in Listed(exams);
  }

  /** `Exam.findById(id)`. */
  function FindExam(exams: seq<Exam>, id: Id): (r: Option<Exam>)
    ensures r.Some? ==> r.value in exams && r.value.id == id
    ensures r.None? <==> forall k :: 0 <= k < |exams| ==> exams[k].id != id
  {
    if exams == [] then None
    else if exams[0].id == id then Some(exams[0])
    else FindExam(exams[1..], id)
  }

  datatype ExamDetail = ExamDetail(header: Exam, questions: seq<ShownQuestion>, questionCount: nat, userAttempts: nat)

  /** `getExam`: 404 when the exam is missing or unpublished; an inactive
      exam is still shown. */
  function GetExam(exams: seq<Exam>, id: Id, atts: seq<Attempts.Attempt>, student: Id): (r: Result<ExamDetail>)
    ensures r.Err? <==> FindExam(exams, id).None? || !FindExam(exams, id).value.isPublished
    ensures r.Err? ==> r.failure.status == 404
    ensures r.Ok? ==> r.value.header.id == id && r.value.header.isPublished
    ensures r.Ok? ==> r.value.questionCount == |FindExam(exams, id).value.questions|
                      && r.value.questions == Redact(FindExam(exams, id).value.questions)
                      && r.value.userAttempts == CountFor(atts, id, student)
  {
    match FindExam(exams, id)
    case None => Err(Failure(404, "Exam not found."))
    case Some(e) =>
      if !e.isPublished then Err(Failure(404, "Exam not found."))
      else Ok(ExamDetail(e.(questions := []), Redact(e.questions), |e.questions|,
                         CountFor(atts, id, student)))
  }

  /** As written, the single view does not check `isActive`: a published
      but inactive exam is shown, although it is not listed and cannot be
      started. */
  lemma InactiveExamShownNotListed(exams: seq<Exam>, k: nat, atts: seq<Attempts.Attempt>, student: Id)
    requires k < |exams| && exams[k].isPublished && !exams[k].isActive
    requires forall j :: 0 <= j < |exams| && j != k ==> exams[j].id != exams[k].id
    ensures GetExam(exams, exams[k].id, atts, student).Ok?
    ensures exams[k] !in Listed(exams)
  {
    assert FindExam(exams, exams[k].id) == Some(exams[k]) by { FindFirst(exams, k); }
  }

  lemma {:induction false} FindFirst(exams: seq<Exam>, k: nat)
    requires k < |exams|
    requires forall j :: 0 <= j < |exams| && j != k ==> exams[j].id != exams[k].id
    ensures FindExam(exams, exams[k].id) == Some(exams[k])
  {
    if k > 0 {
      assert exams[0].id != exams[k].id;
      var t := exams[1..];
      assert t[k - 1] == exams[k];
      forall j | 0 <= j < |t| && j != k - 1 ensures t[j].id != t[k - 1].id {
        assert t[j] == exams[j + 1];
      }
      FindFirst(t, k - 1);
    }
  }
}
