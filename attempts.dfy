/** The attempt document (models/Attempt.js): one student's run through one
    exam, with its stored answers, timing, results and anti-cheat counters,
    and the defaults a freshly created attempt and answer take. */
module Attempts {
  import opened Common

  datatype Status = InProgress | Submitted | AutoSubmitted | Expired

  /** One stored answer entry. `answeredAt` is informational only. */
  datatype Answer = Answer(
    questionId: Id,
    selectedOptions: seq<Id>,
    isCorrect: bool,
    marksObtained: int,
    timeSpent: int,
    answeredAt: Option<Millis>)

  /** The claims an exam-session token carries; the signed token itself is
      opaque and is represented by these claims. A token issued before the
      attempt exists carries no attempt id. */
  datatype ExamClaims = ExamClaims(attemptId: Option<Id>, userId: Id, examId: Id)

  datatype Attempt = Attempt(
    id: Id,
    exam: Id,
    student: Id,
    questionOrder: seq<Id>,
    optionOrder: map<Id, seq<Id>>,
    answers: seq<Answer>,
    startedAt: Millis,
    submittedAt: Option<Millis>,
    serverEndTime: Millis,
    timeLeft: Option<int>,
    status: Status,
    totalMarks: int,
    marksObtained: int,
    percentage: int,
    isPassed: bool,
    rank: int,
    correctCount: int,
    incorrectCount: int,
    skippedCount: int,
    tabSwitchCount: int,
    fullscreenExitCount: int,
    ipAddress: string,
    deviceInfo: string,
    flagged: bool,
    flagReason: string,
    examToken: ExamClaims)

  /** Submitted by the student or by the deadline: graded and ranked. */
  predicate IsFinalized(a: Attempt) {
    a.status == Submitted || a.status == AutoSubmitted
  }

  /** A new answer entry with only its question given takes the schema
      defaults: nothing selected, not correct, no marks, no time spent. */
  function NewAnswer(questionId: Id): (a: Answer)
    ensures a.questionId == questionId && a.selectedOptions == []
    ensures !a.isCorrect && a.marksObtained == 0 && a.timeSpent == 0 && a.answeredAt.None?
  {
    Answer(questionId, [], false, 0, 0, None)
  }

  /** The attempt as `Attempt.create` stores it: the given fields, started
      now, in progress, every result field, counter and the rank at 0, not
      passed, not flagged, no answers and no submission time. */
  function NewAttempt(id: Id, exam: Id, student: Id, questionOrder: seq<Id>,
                      optionOrder: map<Id, seq<Id>>, serverEndTime: Millis, now: Millis,
                      ipAddress: string, deviceInfo: string, token: ExamClaims): (a: Attempt)
    ensures a.id == id && a.exam == exam && a.student == student
    ensures a.questionOrder == questionOrder && a.optionOrder == optionOrder
    ensures a.serverEndTime == serverEndTime && a.startedAt == now && a.examToken == token
    ensures a.ipAddress == ipAddress && a.deviceInfo == deviceInfo
    ensures a.status == InProgress && !IsFinalized(a)
    ensures a.answers == [] && a.submittedAt.None? && a.timeLeft.None?
    ensures a.totalMarks == 0 && a.marksObtained == 0 && a.percentage == 0 && !a.isPassed
    ensures a.rank == 0 && a.correctCount == 0 && a.incorrectCount == 0 && a.skippedCount == 0
    ensures a.tabSwitchCount == 0 && a.fullscreenExitCount == 0
    ensures !a.flagged && a.flagReason == ""
  {
    Attempt(id, exam, student, questionOrder, optionOrder, [], now, None, serverEndTime, None,
            InProgress, 0, 0, 0, false, 0, 0, 0, 0, 0, 0, ipAddress, deviceInfo, false, "", token)
  }
}
