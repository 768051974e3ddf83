/** The exam document (models/Exam.js): its options, questions and settings,
    the schema defaults, and the hook that recomputes `totalMarks` before
    every save. */
module Exams {
  import opened Common

  /** An option of a question. */
  datatype Choice = Choice(id: Id, text: string, isCorrect: bool)

  datatype QuestionType = Single | Multiple | TrueFalse

  datatype Difficulty = Easy | Medium | Hard

  datatype Question = Question(
    id: Id,
    text: string,
    qtype: QuestionType,
    options: seq<Choice>,
    explanation: string,
    marks: int,
    negativeMark: int,
    difficulty: Difficulty,
    section: string,
    timeLimit: int)

  datatype Exam = Exam(
    id: Id,
    title: string,
    description: string,
    instructions: string,
    createdBy: Id,
    questions: seq<Question>,
    duration: int,          // minutes
    startTime: Millis,
    endTime: Millis,
    totalMarks: int,
    passingMarks: int,
    maxAttempts: int,
    shuffleQuestions: bool,
    shuffleOptions: bool,
    negativeMarking: bool,
    negativeMarkValue: int,
    showResultImmediately: bool,
    isPublished: bool,
    isActive: bool,
    category: string,
    tags: seq<string>,
    sections: seq<string>)

  /** The ids of a list of options, in order. */
  function ChoiceIds(options: seq<Choice>): (ids: seq<Id>)
    ensures |ids| == |options| && forall i :: 0 <= i < |options| ==> ids[i] == options[i].id
  {
    seq(|options|, i requires 0 <= i < |options| => options[i].id)
  }

  /** The ids of a list of questions, in order. */
  function QuestionIds(questions: seq<Question>): (ids: seq<Id>)
    ensures |ids| == |questions| && forall i :: 0 <= i < |questions| ==> ids[i] == questions[i].id
  {
    seq(|questions|, i requires 0 <= i < |questions| => questions[i].id)
  }

  /** A new option takes the schema default `isCorrect: false`. */
  function NewChoice(id: Id, text: string): (c: Choice)
    ensures c.id == id && c.text == text && !c.isCorrect
  {
    Choice(id, text, false)
  }

  /** A new question with only its text and options given takes the schema
      defaults: type single, no explanation, 1 mark, no negative mark,
      medium difficulty, section "General", no time limit. */
  function NewQuestion(id: Id, text: string, options: seq<Choice>): (q: Question)
    ensures q.id == id && q.text == text && q.options == options
    ensures q.qtype == Single && q.marks == 1 && q.negativeMark == 0 && q.timeLimit == 0
    ensures q.explanation == "" && q.difficulty == Medium && q.section == "General"
  {
    Question(id, text, Single, options, "", 1, 0, Medium, "General", 0)
  }

  /** A new exam with only its required fields given takes the schema defaults. */
  function NewExam(id: Id, title: string, createdBy: Id, duration: int,
                   startTime: Millis, endTime: Millis): (e: Exam)
    ensures e.id == id && e.title == title && e.createdBy == createdBy
    ensures e.duration == duration && e.startTime == startTime && e.endTime == endTime
    ensures e.questions == [] && e.totalMarks == 0 && e.passingMarks == 0
    ensures e.maxAttempts == 1 && e.shuffleQuestions && e.shuffleOptions
    ensures !e.negativeMarking && e.negativeMarkValue == 0 && e.showResultImmediately
    ensures !e.isPublished && e.isActive && e.category == "General"
  {
    Exam(id, title, "", "", createdBy, [], duration, startTime, endTime,
         0, 0, 1, true, true, false, 0, true, false, true, "General", [], [])
  }

  /** The sum of the questions' marks, as the hook's `reduce` computes it. */
  function SumMarks(questions: seq<Question>): int
  {
    if questions == [] then 0
    else SumMarks(questions[..|questions| - 1]) + questions[|questions| - 1].marks
  }

  lemma {:induction false} SumMarksAppend(a: seq<Question>, b: seq<Question>)
    ensures SumMarks(a + b) == SumMarks(a) + SumMarks(b)
    decreases |b|
  {
    if b == [] {
      assert a + b == a;
    } else {
      assert (a + b)[..|a + b| - 1] == a + b[..|b| - 1];
      SumMarksAppend(a, b[..|b| - 1]);
    }
  }

  /** The `pre('save')` hook: with at least one question, `totalMarks`
      becomes the sum of the question marks; with none it is kept. Nothing
      else changes. */
  function PreSave(e: Exam): (r: Exam)
    ensures |e.questions| > 0 ==> r.totalMarks == SumMarks(e.questions)
    ensures |e.questions| == 0 ==> r == e
    ensures r.(totalMarks := e.totalMarks) == e
  {
    if |e.questions| > 0 then e.(totalMarks := SumMarks(e.questions)) else e
  }

  /** Saving twice stores the same document as saving once. */
  lemma PreSaveIdempotent(e: Exam)
    ensures PreSave(PreSave(e)) == PreSave(e)
  {
  }

  /** After a save, `totalMarks` is the sum of the marks in every case but
      the exam with no question, whose `totalMarks` stays the default 0. */
  lemma SavedTotalMarks(e: Exam)
    requires e.questions == [] ==> e.totalMarks == 0
    ensures PreSave(e).totalMarks == SumMarks(e.questions)
  {
  }

  /** Marks that are each non-negative add up to a non-negative total. */
  lemma {:induction false} SumMarksNonNegative(questions: seq<Question>)
    requires forall i :: 0 <= i < |questions| ==> questions[i].marks >= 0
    ensures SumMarks(questions) >= 0
    decreases |questions|
  {
    if questions != [] {
      SumMarksNonNegative(questions[..|questions| - 1]);
    }
  }
}
