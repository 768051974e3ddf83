/** `gradeAttempt` in controllers/attemptController.js: each stored answer
    is judged against its question, marks are added (and deducted under
    negative marking), the total is clamped at zero, and the percentage,
    pass flag and tallies are derived. Only the answers stored on the
    attempt are graded. */
module Grading {
  import opened Common
  import opened Exams
  import opened Attempts

  /** The outcome of one stored answer. `Unmatched`: the exam has no
      question with the answer's id; such an answer is left as it is and
      is not tallied. */
  datatype Verdict = Unmatched | Skipped | Correct | Incorrect

  /** `exam.questions.id(questionId)`: the first question with that id.
      It has the same shape as `Session.FirstChoice` but searches another
      list: the source looks questions up by subdocument id here and looks
      options up with `Array.find` when a session resumes, so each lookup
      keeps its own name. */
  function FindQuestion(questions: seq<Question>, id: Id): (r: Option<Question>)
    ensures r.Some? ==> r.value in questions && r.value.id == id
    ensures r.None? <==> forall i :: 0 <= i < |questions| ==> questions[i].id != id
  {
    if questions == [] then None
    else if questions[0].id == id then Some(questions[0])
    else FindQuestion(questions[1..], id)
  }

  /** The ids of the correct options, in option order. */
  function CorrectIds(options: seq<Choice>): (ids: seq<Id>)
    ensures forall id :: id in ids <==> exists c :: c in options && c.isCorrect && c.id == id
  {
    if options == [] then []
    else
      var init := CorrectIds(options[..|options| - 1]);
      var last := options[|options| - 1];
      assert options == options[..|options| - 1] + [last];
      if last.isCorrect then init + [last.id] else init
  }

  /** Whether a non-empty selection is judged correct: for single-answer and
      true/false questions exactly one id, naming a correct option; for any
      other type as many ids as there are correct options, each naming a
      correct option (no check for repeated ids). */
  predicate SelectionCorrect(q: Question, selected: seq<Id>) {
    var correct := CorrectIds(q.options);
    if q.qtype == Single || q.qtype == TrueFalse then
      |selected| == 1 && selected[0] in correct
    else
      |selected| == |correct| && forall k :: 0 <= k < |selected| ==> selected[k] in correct
  }

  function Judge(e: Exam, a: Answer): Verdict {
    match FindQuestion(e.questions, a.questionId)
    case None => Unmatched
    case Some(q) =>
      if a.selectedOptions == [] then Skipped
      else if SelectionCorrect(q, a.selectedOptions) then Correct
      else Incorrect
  }

  /** `question.negativeMark || exam.negativeMarkValue || 0`: a question's
      own negative mark unless it is 0, then the exam's. */
  function Deduction(q: Question, e: Exam): (d: int)
    ensures q.negativeMark != 0 ==> d == q.negativeMark
    ensures q.negativeMark == 0 ==> d == e.negativeMarkValue
  {
    if q.negativeMark != 0 then q.negativeMark else e.negativeMarkValue
  }

  /** The marks one stored answer contributes to the raw sum. */
  function Points(e: Exam, a: Answer): int {
    match FindQuestion(e.questions, a.questionId)
    case None => 0
    case Some(q) =>
      if a.selectedOptions == [] then 0
      else if SelectionCorrect(q, a.selectedOptions) then q.marks
      else if e.negativeMarking then -Deduction(q, e)
      else 0
  }

  /** The points of each verdict: a correct answer earns the question's
      marks, an incorrect one loses the deduction only under negative
      marking, and skipped or unmatched answers earn nothing. */
  lemma PointsByVerdict(e: Exam, a: Answer)
    ensures Judge(e, a) == Unmatched || Judge(e, a) == Skipped ==> Points(e, a) == 0
    ensures Judge(e, a) == Correct ==> Points(e, a) == FindQuestion(e.questions, a.questionId).value.marks
    ensures Judge(e, a) == Incorrect ==>
              Points(e, a) == (if e.negativeMarking
                               then -Deduction(FindQuestion(e.questions, a.questionId).value, e)
                               else 0)
  {
  }

  /** The stored answer after grading: an unmatched answer is returned
      unchanged; otherwise only `isCorrect` and `marksObtained` are set. */
  function GradeAnswer(e: Exam, a: Answer): (r: Answer)
    ensures Judge(e, a) == Unmatched ==> r == a
    ensures Judge(e, a) != Unmatched ==>
              r == a.(isCorrect := Judge(e, a) == Correct, marksObtained := Points(e, a))
  {
    match FindQuestion(e.questions, a.questionId)
    case None => a
    case Some(q) =>
      if a.selectedOptions == [] then a.(isCorrect := false, marksObtained := 0)
      else a.(isCorrect := SelectionCorrect(q, a.selectedOptions), marksObtained := Points(e, a))
  }

  function GradedAnswers(e: Exam, answers: seq<Answer>): (r: seq<Answer>)
    ensures |r| == |answers| && forall i :: 0 <= i < |answers| ==> r[i] == GradeAnswer(e, answers[i])
  {
    seq(|answers|, i requires 0 <= i < |answers| => GradeAnswer(e, answers[i]))
  }

  /** The raw sum of points over the stored answers, before the clamp. */
  function RawScore(e: Exam, answers: seq<Answer>): int {
    if answers == [] then 0
    else RawScore(e, answers[..|answers| - 1]) + Points(e, answers[|answers| - 1])
  }

  /** How many stored answers receive verdict `v`. */
  function CountVerdict(e: Exam, answers: seq<Answer>, v: Verdict): (n: nat)
    ensures n <= |answers|
  {
    if answers == [] then 0
    else CountVerdict(e, answers[..|answers| - 1], v) + (if Judge(e, answers[|answers| - 1]) == v then 1 else 0)
  }

  /** `Math.round(marks / total * 100)` when `total > 0`, else 0. */
  function Percentage(marks: int, total: int): (p: int)
    ensures total <= 0 ==> p == 0
    ensures total > 0 ==> 2 * total * p <= 200 * marks + total < 2 * total * p + 2 * total
  {
    if total > 0 then RoundDiv(100 * marks, total) else 0
  }

  /** Marks between 0 and the total give a percentage between 0 and 100. */
  lemma PercentageBounds(marks: int, total: int)
    requires 0 <= marks <= total
    ensures 0 <= Percentage(marks, total) <= 100
  {
    if total > 0 {
      RoundDivNonNegative(100 * marks, total);
      RoundDivAtMost(100 * marks, total, 100);
    }
  }

  /** Full marks are 100 percent. */
  lemma PercentageFull(total: int)
    requires total > 0
    ensures Percentage(total, total) == 100
  {
    var p := Percentage(total, total);
    assert total * (2 * p - 199) > 0 && total * (202 - 2 * p) > 0;
    PositiveFactor(total, 2 * p - 199);
    PositiveFactor(total, 202 - 2 * p);
  }

  /** What `gradeAttempt` computes, before it sets the status and the
      submission time and re-ranks. */
  datatype GradeResult = GradeResult(
    answers: seq<Answer>,
    totalMarks: int,
    marksObtained: int,
    percentage: int,
    isPassed: bool,
    correctCount: int,
    incorrectCount: int,
    skippedCount: int)

  /** The grading loop: one pass over the stored answers, accumulating the
      raw sum and the three tallies, then the clamp, percentage and pass
      flag; `totalMarks` is copied from the exam. */
  method Grade(e: Exam, answers: seq<Answer>) returns (g: GradeResult)
    ensures g.answers == GradedAnswers(e, answers)
    ensures g.totalMarks == e.totalMarks
    ensures g.marksObtained == Max(0, RawScore(e, answers))
    ensures g.percentage == Percentage(g.marksObtained, e.totalMarks)
    ensures g.isPassed <==> g.marksObtained >= e.passingMarks
    ensures g.correctCount == CountVerdict(e, answers, Correct)
    ensures g.incorrectCount == CountVerdict(e, answers, Incorrect)
    ensures g.skippedCount == CountVerdict(e, answers, Skipped)
  {
    var marksObtained := 0;
    var correctCount := 0;
    var incorrectCount := 0;
    var skippedCount := 0;
    var graded: seq<Answer> := [];
    var k := 0;
    while k < |answers|
      invariant 0 <= k <= |answers|
      invariant |graded| == k && forall i :: 0 <= i < k ==> graded[i] == GradeAnswer(e, answers[i])
      invariant marksObtained == RawScore(e, answers[..k])
      invariant correctCount == CountVerdict(e, answers[..k], Correct)
      invariant incorrectCount == CountVerdict(e, answers[..k], Incorrect)
      invariant skippedCount == CountVerdict(e, answers[..k], Skipped)
    {
      var a := answers[k];
      GradeStep(e, answers, k);
      var next, questionMarks, verdict := GradeOne(e, a);
      marksObtained := marksObtained + questionMarks;
      if verdict == Correct {
        correctCount := correctCount + 1;
      } else if verdict == Incorrect {
        incorrectCount := incorrectCount + 1;
      } else if verdict == Skipped {
        skippedCount := skippedCount + 1;
      }
      graded := graded + [next];
      k := k + 1;
    }
    assert answers[..|answers|] == answers;
    var clamped := Max(0, marksObtained);
    g := GradeResult(graded, e.totalMarks, clamped, Percentage(clamped, e.totalMarks),
                     clamped >= e.passingMarks, correctCount, incorrectCount, skippedCount);
  }

  /** The loop body for one stored answer: find its question, judge the
      selection, and work out the marks it earns or loses. */
  method GradeOne(e: Exam, a: Answer) returns (next: Answer, questionMarks: int, verdict: Verdict)
    ensures next == GradeAnswer(e, a) && questionMarks == Points(e, a) && verdict == Judge(e, a)
  {
    var found := FindQuestion(e.questions, a.questionId);
    next := a;
    questionMarks := 0;
    verdict := Unmatched;
    if found.Some? {
      var q := found.value;
      if a.selectedOptions == [] {
        verdict := Skipped;
        next := a.(isCorrect := false, marksObtained := 0);
      } else {
        var isCorrect := SelectionCorrect(q, a.selectedOptions);
        if isCorrect {
          questionMarks := q.marks;
          verdict := Correct;
        } else {
          verdict := Incorrect;
          if e.negativeMarking {
            questionMarks := -Deduction(q, e);
          }
        }
        next := a.(isCorrect := isCorrect, marksObtained := questionMarks);
      }
    }
  }

  /** One more answer adds its points to the raw sum and one to the tally
      of its verdict. */
  lemma GradeStep(e: Exam, answers: seq<Answer>, k: nat)
    requires k < |answers|
    ensures RawScore(e, answers[..k + 1]) == RawScore(e, answers[..k]) + Points(e, answers[k])
    ensures forall v :: CountVerdict(e, answers[..k + 1], v) ==
                        CountVerdict(e, answers[..k], v) + (if Judge(e, answers[k]) == v then 1 else 0)
  {
    assert answers[..k + 1][..k] == answers[..k];
  }

  /** Every stored answer gets exactly one verdict: the three tallies plus
      the unmatched answers make up all of them. */
  lemma {:induction false} TallyPartition(e: Exam, answers: seq<Answer>)
    ensures CountVerdict(e, answers, Correct) + CountVerdict(e, answers, Incorrect)
            + CountVerdict(e, answers, Skipped) + CountVerdict(e, answers, Unmatched) == |answers|
  {
    if answers != [] {
      TallyPartition(e, answers[..|answers| - 1]);
    }
  }

  /** Grading looks only at the question id and the selection, which it
      keeps; so the graded answers judge and score exactly as the originals. */
  lemma GradeAnswerKeepsVerdict(e: Exam, a: Answer)
    ensures GradeAnswer(e, a).questionId == a.questionId
    ensures GradeAnswer(e, a).selectedOptions == a.selectedOptions
    ensures GradeAnswer(e, a).timeSpent == a.timeSpent && GradeAnswer(e, a).answeredAt == a.answeredAt
    ensures Judge(e, GradeAnswer(e, a)) == Judge(e, a) && Points(e, GradeAnswer(e, a)) == Points(e, a)
  {
  }

  /** Grading is idempotent: regrading graded answers changes none of them
      and gives the same raw score and tallies. */
  lemma {:induction false} RegradeIdempotent(e: Exam, answers: seq<Answer>)
    ensures GradedAnswers(e, GradedAnswers(e, answers)) == GradedAnswers(e, answers)
    ensures RawScore(e, GradedAnswers(e, answers)) == RawScore(e, answers)
    ensures forall v :: CountVerdict(e, GradedAnswers(e, answers), v) == CountVerdict(e, answers, v)
  {
    var g := GradedAnswers(e, answers);
    forall i | 0 <= i < |answers|
      ensures GradeAnswer(e, g[i]) == g[i]
    {
      GradeAnswerKeepsVerdict(e, answers[i]);
    }
    RegradeScore(e, answers, |answers|);
    assert answers[..|answers|] == answers && g[..|answers|] == g;
  }

  lemma {:induction false} RegradeScore(e: Exam, answers: seq<Answer>, n: nat)
    requires n <= |answers|
    ensures RawScore(e, GradedAnswers(e, answers)[..n]) == RawScore(e, answers[..n])
    ensures forall v :: CountVerdict(e, GradedAnswers(e, answers)[..n], v) == CountVerdict(e, answers[..n], v)
  {
    if n > 0 {
      var g := GradedAnswers(e, answers);
      RegradeScore(e, answers, n - 1);
      assert g[..n][..n - 1] == g[..n - 1];
      assert answers[..n][..n - 1] == answers[..n - 1];
      GradeAnswerKeepsVerdict(e, answers[n - 1]);
    }
  }

  /** Without a correct answer, with negative marking off or with
      non-negative deductions, the raw score is at most 0, so the clamped
      marks are 0. */
  lemma {:induction false} NoCorrectAnswerScoresZero(e: Exam, answers: seq<Answer>)
    requires forall i :: 0 <= i < |answers| ==> Judge(e, answers[i]) != Correct
    requires forall q :: q in e.questions ==> Deduction(q, e) >= 0
    ensures RawScore(e, answers) <= 0
    ensures Max(0, RawScore(e, answers)) == 0
  {
    if answers != [] {
      var init := answers[..|answers| - 1];
      assert forall i :: 0 <= i < |init| ==> init[i] == answers[i];
      NoCorrectAnswerScoresZero(e, init);
    }
  }

  /** Under negative marking every incorrect answer to a question whose own
      negative mark is 0 costs the exam's `negativeMarkValue`. */
  lemma {:induction false} AllIncorrectRawScore(e: Exam, answers: seq<Answer>)
    requires e.negativeMarking
    requires forall i :: 0 <= i < |answers| ==> Judge(e, answers[i]) == Incorrect
    requires forall q :: q in e.questions ==> q.negativeMark == 0
    ensures RawScore(e, answers) == -|answers| * e.negativeMarkValue
  {
    if answers != [] {
      var init := answers[..|answers| - 1];
      assert forall i :: 0 <= i < |init| ==> init[i] == answers[i];
      AllIncorrectRawScore(e, init);
    }
  }

  /** A one-mark single-answer question whose option `2 * id` is correct
      and `2 * id + 1` is not. */
  function SampleQuestion(id: Id, marks: int): (q: Question)
    ensures q.id == id && q.qtype == Single && q.marks == marks && q.negativeMark == 0
    ensures CorrectIds(q.options) == [2 * id]
  {
    var q := NewQuestion(id, "", [Choice(2 * id, "", true), Choice(2 * id + 1, "", false)]).(marks := marks);
    assert q.options[..1] == [Choice(2 * id, "", true)];
    assert q.options[..1][..0] == [];
    assert CorrectIds(q.options[..1]) == [2 * id];
    q
  }

  /** With no earlier question sharing its id, the question at `k` is the one found. */
  lemma {:induction false} FindQuestionAt(questions: seq<Question>, k: nat)
    requires k < |questions|
    requires forall j :: 0 <= j < k ==> questions[j].id != questions[k].id
    ensures FindQuestion(questions, questions[k].id) == Some(questions[k])
  {
    if k > 0 {
      var t := questions[1..];
      assert t[k - 1] == questions[k];
      forall j | 0 <= j < k - 1 ensures t[j].id != t[k - 1].id {
        assert t[j] == questions[j + 1];
      }
      FindQuestionAt(t, k - 1);
    }
  }

  function Selecting(questionId: Id, selected: seq<Id>): Answer {
    NewAnswer(questionId).(selectedOptions := selected)
  }

  /** Three one-mark questions under negative marking with a default
      deduction of 2, all answered wrongly: the raw score is -6, the marks
      are clamped to 0, the percentage is 0 and the attempt fails. */
  lemma ClampExample()
    ensures
      var e := NewExam(1, "", 1, 60, 0, 1).(questions := [SampleQuestion(1, 1), SampleQuestion(2, 1), SampleQuestion(3, 1)],
                                            totalMarks := 3, passingMarks := 1,
                                            negativeMarking := true, negativeMarkValue := 2);
      var answers := [Selecting(1, [3]), Selecting(2, [5]), Selecting(3, [7])];
      RawScore(e, answers) == -6 && Max(0, RawScore(e, answers)) == 0
      && Percentage(0, e.totalMarks) == 0 && !(0 >= e.passingMarks)
  {
    var e := NewExam(1, "", 1, 60, 0, 1).(questions := [SampleQuestion(1, 1), SampleQuestion(2, 1), SampleQuestion(3, 1)],
                                          totalMarks := 3, passingMarks := 1,
                                          negativeMarking := true, negativeMarkValue := 2);
    var answers := [Selecting(1, [3]), Selecting(2, [5]), Selecting(3, [7])];
    forall i | 0 <= i < |answers| ensures Judge(e, answers[i]) == Incorrect {
      assert e.questions[i].id == i + 1 == answers[i].questionId;
      FindQuestionAt(e.questions, i);
      assert CorrectIds(e.questions[i].options) == [2 * (i + 1)];
    }
    AllIncorrectRawScore(e, answers);
  }

  /** Two five-mark questions, one right and one wrong, no negative
      marking, 10 marks in total and 6 to pass: 5 marks, 50 percent, failed. */
  lemma HalfMarksExample()
    ensures
      var e := NewExam(1, "", 1, 60, 0, 1).(questions := [SampleQuestion(1, 5), SampleQuestion(2, 5)],
                                            totalMarks := 10, passingMarks := 6);
      var answers := [Selecting(1, [2]), Selecting(2, [5])];
      Max(0, RawScore(e, answers)) == 5 && Percentage(5, 10) == 50 && !(5 >= e.passingMarks)
      && CountVerdict(e, answers, Correct) == 1 && CountVerdict(e, answers, Incorrect) == 1
  {
    var e := NewExam(1, "", 1, 60, 0, 1).(questions := [SampleQuestion(1, 5), SampleQuestion(2, 5)],
                                          totalMarks := 10, passingMarks := 6);
    var answers := [Selecting(1, [2]), Selecting(2, [5])];
    assert FindQuestion(e.questions, 1) == Some(e.questions[0]);
    assert FindQuestion(e.questions, 2) == Some(e.questions[1]);
    assert answers[..1] == [answers[0]];
    assert answers[..1][..0] == [];
  }

  /** A multiple-answer question whose options 1 and 3 are correct and 2
      and 4 are not. */
  function MultipleSample(): (q: Question)
    ensures CorrectIds(q.options) == [1, 3]
  {
    var q := NewQuestion(7, "", [Choice(1, "A", true), Choice(2, "B", false),
                                 Choice(3, "C", true), Choice(4, "D", false)]).(qtype := Multiple);
    assert q.options[..1] == [Choice(1, "A", true)];
    assert q.options[..2] == [Choice(1, "A", true), Choice(2, "B", false)];
    assert q.options[..3] == [Choice(1, "A", true), Choice(2, "B", false), Choice(3, "C", true)];
    assert q.options[..1][..0] == [] && q.options[..2][..1] == q.options[..1];
    assert q.options[..3][..2] == q.options[..2] && q.options[..4] == q.options;
    assert CorrectIds(q.options[..1]) == [1];
    assert CorrectIds(q.options[..2]) == [1];
    assert CorrectIds(q.options[..3]) == [1, 3];
    q
  }

  /** With correct set {A, C}: {A} and {A, C, D} are wrong, {A, C} and
      {C, A} are right. */
  lemma MultipleChoiceExamples()
    ensures !SelectionCorrect(MultipleSample(), [1])
    ensures SelectionCorrect(MultipleSample(), [1, 3]) && SelectionCorrect(MultipleSample(), [3, 1])
    ensures !SelectionCorrect(MultipleSample(), [1, 3, 4])
  {
  }

  /** As written, the length-and-membership test accepts a repeated id:
      {A, A} passes for the correct set {A, C}. */
  lemma RepeatedSelectionAccepted()
    ensures SelectionCorrect(MultipleSample(), [1, 1])
  {
  }

  /** As written, two stored answers for the same question are both graded:
      the question's marks are counted twice. */
  lemma DuplicateAnswerCountedTwice(e: Exam, a: Answer)
    requires Judge(e, a) == Correct
    ensures RawScore(e, [a, a]) == 2 * FindQuestion(e.questions, a.questionId).value.marks
    ensures CountVerdict(e, [a, a], Correct) == 2
  {
    assert [a, a][..1] == [a];
    assert [a][..0] == [];
    PointsByVerdict(e, a);
    assert RawScore(e, [a]) == Points(e, a);
    assert RawScore(e, [a, a]) == RawScore(e, [a]) + Points(e, a);
    assert CountVerdict(e, [a], Correct) == 1;
  }

  /** As written, a question whose own negative mark is 0 does not mean
      "no deduction": the exam's `negativeMarkValue` is deducted instead. */
  lemma ZeroNegativeMarkFallsBack(e: Exam, a: Answer)
    requires e.negativeMarking && e.negativeMarkValue > 0
    requires Judge(e, a) == Incorrect
    requires FindQuestion(e.questions, a.questionId).value.negativeMark == 0
    ensures Points(e, a) == -e.negativeMarkValue < 0
  {
  }

  /** No two ids of the list are equal. */
  predicate NoRepeats(ids: seq<Id>) {
    forall i, j :: 0 <= i < j < |ids| ==> ids[i] != ids[j]
  }

  /** The set of ids a list holds. */
  function Elements(ids: seq<Id>): (r: set<Id>)
    ensures forall k :: k in r <==> k in ids
  {
    set k | k in ids
  }

  lemma {:induction false} NoRepeatsCard(ids: seq<Id>)
    requires NoRepeats(ids)
    ensures |Elements(ids)| == |ids|
  {
    if ids != [] {
      var init := ids[..|ids| - 1];
      var last := ids[|ids| - 1];
      assert ids == init + [last];
      assert NoRepeats(init) by {
        forall i, j | 0 <= i < j < |init| ensures init[i] != init[j] {
          assert init[i] == ids[i] && init[j] == ids[j];
        }
      }
      NoRepeatsCard(init);
      assert Elements(ids) == Elements(init) + {last};
      forall i | 0 <= i < |init| ensures init[i] != last {
        assert init[i] == ids[i];
      }
      var before := Elements(init);
      assert last !in before;
      assert |before + {last}| == |before| + 1;
    } else {
      assert Elements(ids) == {};
    }
  }

  lemma {:induction false} CorrectIdsNoRepeats(options: seq<Choice>)
    requires forall i, j :: 0 <= i < j < |options| ==> options[i].id != options[j].id
    ensures NoRepeats(CorrectIds(options))
  {
    if options != [] {
      var init := options[..|options| - 1];
      var last := options[|options| - 1];
      CorrectIdsNoRepeats(init);
      if last.isCorrect {
        forall c | c in init ensures c.id != last.id {
          var i :| 0 <= i < |init| && init[i] == c;
        }
        assert last.id !in CorrectIds(init);
      }
    }
  }

  lemma SubsetSameCard(a: set<Id>, b: set<Id>)
    requires a <= b && |a| == |b|
    ensures a == b
  {
    assert |b - a| == |b| - |a|;
  }

  /** For a multiple-answer question with distinct option ids and a
      selection without repeats, the length-and-membership test is exactly
      set equality with the correct options. */
  lemma MultipleIsSetEquality(q: Question, selected: seq<Id>)
    requires q.qtype == Multiple
    requires forall i, j :: 0 <= i < j < |q.options| ==> q.options[i].id != q.options[j].id
    requires NoRepeats(selected)
    ensures SelectionCorrect(q, selected) <==>
            Elements(selected) == Elements(CorrectIds(q.options))
  {
    var correct := CorrectIds(q.options);
    CorrectIdsNoRepeats(q.options);
    NoRepeatsCard(selected);
    NoRepeatsCard(correct);
    var s := Elements(selected);
    var c := Elements(correct);
    if SelectionCorrect(q, selected) {
      assert s <= c;
      SubsetSameCard(s, c);
    }
    if s == c {
      forall k | 0 <= k < |selected| ensures selected[k] in correct {
        assert selected[k] in s;
      }
    }
  }
}
