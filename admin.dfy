/** The computational parts of controllers/adminController.js: turning CSV
    rows into questions and appending them to an exam, the score
    distribution and pass figures of the exam analytics, and the figures of
    the admin dashboard. A CSV row is the column-to-value map the parser
    yields, its values already trimmed; a column not in the map reads as
    `undefined`. */
module Admin {
  import opened Common
  import opened Strings
  import opened Sorting
  import opened Exams
  import opened Attempts
  import opened Ranking
  import opened StudentDashboard

  type Row = map<string, string>

  /** A column that is present in the row and not empty. */
  predicate Filled(row: Row, column: string) {
    column in row && row[column] != ""
  }

  /** `row[a] || row[b] || … || fallback`: the first column that is present
      and not empty, and the fallback only when there is none. */
  function Pick(row: Row, columns: seq<string>, fallback: string): (v: string)
    ensures (forall k :: 0 <= k < |columns| ==> !Filled(row, columns[k])) ==> v == fallback
    ensures (exists k :: 0 <= k < |columns| && Filled(row, columns[k])) ==>
              exists k :: 0 <= k < |columns| && Filled(row, columns[k]) && v == row[columns[k]]
                          && forall j :: 0 <= j < k ==> !Filled(row, columns[j])
  {
    if columns == [] then fallback
    else if Filled(row, columns[0]) then row[columns[0]]
    else
      var v := Pick(row, columns[1..], fallback);
      assert forall k :: 1 <= k < |columns| ==> columns[k] == columns[1..][k - 1];
      v
  }

  const Letters: seq<char> := ['A', 'B', 'C', 'D']

  /** `row['option_a'] || row['Option A'] || ''` for the letter. */
  function OptionText(row: Row, letter: char): string {
    Pick(row, ["option_" + [LowerChar(letter)], "Option " + [letter]], "")
  }

  function TrimAll(parts: seq<string>): (r: seq<string>)
    ensures |r| == |parts| && forall k :: 0 <= k < |parts| ==> r[k] == Trim(parts[k])
  {
    seq(|parts|, k requires 0 <= k < |parts| => Trim(parts[k]))
  }

  /** `(row.correct || '').toUpperCase().split(',').map(s => s.trim()).includes(letter)`. */
  predicate MarkedCorrect(row: Row, letter: char) {
    [letter] in TrimAll(Split(ToUpper(Pick(row, ["correct"], "")), ','))
  }

  /** The option texts of the letters A to D. */
  function LetterTexts(row: Row): (t: seq<string>)
    ensures |t| == 4 && forall j :: 0 <= j < 4 ==> t[j] == OptionText(row, Letters[j])
  {
    seq(4, j requires 0 <= j < 4 => OptionText(row, Letters[j]))
  }

  /** Whether each of the letters A to D is marked correct. */
  function LetterMarks(row: Row): (m: seq<bool>)
    ensures |m| == 4 && forall j :: 0 <= j < 4 ==> m[j] == MarkedCorrect(row, Letters[j])
  {
    seq(4, j requires 0 <= j < 4 => MarkedCorrect(row, Letters[j]))
  }

  /** The options built from the first `n` letters: a letter with a
      non-empty text gives the option with id `base + n`. */
  function Choices(texts: seq<string>, marks: seq<bool>, base: nat, n: nat): (r: seq<Choice>)
    requires n <= |texts| == |marks|
    ensures |r| <= n
    ensures forall k :: 0 <= k < |r| ==> base < r[k].id <= base + n
  {
    if n == 0 then []
    else
      var init := Choices(texts, marks, base, n - 1);
      if texts[n - 1] != "" then init + [Choice(base + n, texts[n - 1], marks[n - 1])] else init
  }

  function RowChoices(row: Row, base: nat): seq<Choice> {
    Choices(LetterTexts(row), LetterMarks(row), base, 4)
  }

  /** The `['A', 'B', 'C', 'D'].forEach` loop that pushes the options of a row. */
  method RowOptions(row: Row, base: nat) returns (options: seq<Choice>)
    ensures options == RowChoices(row, base)
  {
    options := [];
    for i := 0 to 4
      invariant options == Choices(LetterTexts(row), LetterMarks(row), base, i)
    {
      var letter := Letters[i];
      var text := OptionText(row, letter);
      if text != "" {
        options := options + [Choice(base + i + 1, text, MarkedCorrect(row, letter))];
      }
    }
  }

  /** Letter `j` yields an option exactly when its text is not empty. */
  lemma {:induction false} ChoicesPresent(texts: seq<string>, marks: seq<bool>, base: nat, n: nat, j: nat)
    requires j < n <= |texts| == |marks|
    ensures texts[j] != "" <==> base + j + 1 in ChoiceIds(Choices(texts, marks, base, n))
  {
    var init := Choices(texts, marks, base, n - 1);
    var r := Choices(texts, marks, base, n);
    assert forall k :: 0 <= k < |init| ==> r[k] == init[k];
    assert ChoiceIds(r) == ChoiceIds(init) || ChoiceIds(r) == ChoiceIds(init) + [base + n];
    if j < n - 1 {
      ChoicesPresent(texts, marks, base, n - 1, j);
    } else {
      assert base + j + 1 !in ChoiceIds(init);
    }
  }

  /** Each option carries the text and the mark of its letter, and the
      options keep letter order. */
  predicate FollowsLetters(r: seq<Choice>, texts: seq<string>, marks: seq<bool>, base: nat)
    requires |texts| == |marks|
  {
    (forall k :: 0 <= k < |r| ==>
       0 <= r[k].id - base - 1 < |texts| && r[k].text == texts[r[k].id - base - 1] != ""
       && r[k].isCorrect == marks[r[k].id - base - 1])
    && (forall k, l :: 0 <= k < l < |r| ==> r[k].id < r[l].id)
  }

  lemma {:induction false} ChoicesContent(texts: seq<string>, marks: seq<bool>, base: nat, n: nat)
    requires n <= |texts| == |marks|
    ensures FollowsLetters(Choices(texts, marks, base, n), texts, marks, base)
  {
    if n > 0 {
      ChoicesContent(texts, marks, base, n - 1);
      var init := Choices(texts, marks, base, n - 1);
      var r := Choices(texts, marks, base, n);
      assert forall k :: 0 <= k < |init| ==> r[k] == init[k];
    }
  }

  /** The options of a row, letter by letter: letter `j` yields an option
      exactly when its text is not empty; that option has the letter's text
      and is correct exactly when the letter is marked; there are at most
      four, in letter order. */
  lemma RowChoicesByLetter(row: Row, base: nat)
    ensures |RowChoices(row, base)| <= 4
    ensures forall j :: 0 <= j < 4 ==>
              (OptionText(row, Letters[j]) != "" <==> base + j + 1 in ChoiceIds(RowChoices(row, base)))
    ensures FollowsLetters(RowChoices(row, base), LetterTexts(row), LetterMarks(row), base)
  {
    forall j | 0 <= j < 4
      ensures OptionText(row, Letters[j]) != "" <==> base + j + 1 in ChoiceIds(RowChoices(row, base))
    {
      ChoicesPresent(LetterTexts(row), LetterMarks(row), base, 4, j);
    }
    ChoicesContent(LetterTexts(row), LetterMarks(row), base, 4);
  }

  /** A row mapped as `records.map`, before validation: the marks are
      `parseInt(row.marks || row.Marks || '1')`, absent when not a number. */
  datatype Candidate = Candidate(
    id: Id,
    text: string,
    options: seq<Choice>,
    marks: Option<int>,
    difficulty: string,
    section: string,
    explanation: string)

  function CandidateOf(row: Row, base: nat, options: seq<Choice>): Candidate {
    Candidate(base, Pick(row, ["question", "Question"], ""), options,
              ParseInt(Pick(row, ["marks", "Marks"], "1")),
              ToLower(Pick(row, ["difficulty", "Difficulty"], "medium")),
              Pick(row, ["section", "Section"], "General"),
              Pick(row, ["explanation", "Explanation"], ""))
  }

  /** The candidates of the first `n` rows; row `k` reserves the ids
      `nextId + 5k` (the question) to `nextId + 5k + 4` (its options). */
  function CandidatesUpTo(rows: seq<Row>, nextId: nat, n: nat): (r: seq<Candidate>)
    requires n <= |rows|
    ensures |r| == n
    ensures forall k :: 0 <= k < n ==> r[k].id == nextId + 5 * k && |r[k].options| <= 4
  {
    if n == 0 then []
    else
      var k := n - 1;
      var base := nextId + 5 * k;
      CandidatesUpTo(rows, nextId, k) + [CandidateOf(rows[k], base, RowChoices(rows[k], base))]
  }

  /** `rows.map(...)` over all rows. */
  function Candidates(rows: seq<Row>, nextId: nat): (r: seq<Candidate>)
    ensures |r| == |rows|
    ensures forall k :: 0 <= k < |r| ==> r[k].id == nextId + 5 * k && |r[k].options| <= 4
  {
    CandidatesUpTo(rows, nextId, |rows|)
  }

  predicate Keep(c: Candidate) {
    c.text != "" && |c.options| >= 2
  }

  /** `.filter(q => q.text && q.options.length >= 2)`. */
  function Kept(cs: seq<Candidate>): (r: seq<Candidate>)
    ensures forall c :: c in r <==> c in cs && Keep(c)
    ensures |r| <= |cs|
  {
    if cs == [] then []
    else
      var init := Kept(cs[..|cs| - 1]);
      var last := cs[|cs| - 1];
      assert cs == cs[..|cs| - 1] + [last];
      if Keep(last) then init + [last] else init
  }

  function DifficultyOf(s: string): Option<Difficulty> {
    if s == "easy" then Some(Easy)
    else if s == "medium" then Some(Medium)
    else if s == "hard" then Some(Hard)
    else None
  }

  /** The schema accepts a candidate whose marks are a number and whose
      difficulty is one of the enum values. */
  predicate Valid(c: Candidate) {
    c.marks.Some? && DifficultyOf(c.difficulty).Some?
  }

  /** The question the schema builds: type `'single'`, no negative mark and
      no time limit by default. */
  function ToQuestion(c: Candidate): (q: Question)
    requires Valid(c)
  {
    Question(c.id, c.text, Single, c.options, c.explanation, c.marks.value, 0,
             DifficultyOf(c.difficulty).value, c.section, 0)
  }

  predicate AllValid(cs: seq<Candidate>) {
    forall k :: 0 <= k < |cs| ==> Valid(cs[k])
  }

  function ToQuestions(cs: seq<Candidate>): (r: seq<Question>)
    requires AllValid(cs)
    ensures |r| == |cs| && forall k :: 0 <= k < |cs| ==> r[k] == ToQuestion(cs[k])
  {
    seq(|cs|, k requires 0 <= k < |cs| => ToQuestion(cs[k]))
  }

  datatype Imported = Imported(exam: Exam, imported: nat)

  /** `importQuestions`: 400 without a file, 404 for a missing exam, 500 when
      the schema rejects a kept question; otherwise the rows that have a text
      and at least two options are appended and the exam is saved through
      its hook. */
  method ImportQuestions(file: Option<seq<Row>>, exams: map<Id, Exam>, examId: Id, nextId: nat)
    returns (r: Result<Imported>)
    ensures file.None? ==> r == Err(Failure(400, "No file uploaded."))
    ensures file.Some? && examId !in exams ==> r == Err(Failure(404, "Exam not found."))
    ensures file.Some? && examId in exams ==>
              var kept := Kept(Candidates(file.value, nextId));
              (r.Err? <==> !AllValid(kept))
              && (r.Err? ==> r.failure.status == 500)
              && (r.Ok? ==> AllValid(kept)
                            && r.value.imported == |kept|
                            && r.value.exam == PreSave(exams[examId].(questions := exams[examId].questions
                                                                                  + ToQuestions(kept))))
  {
    if file.None? {
      return Err(Failure(400, "No file uploaded."));
    }
    var candidates := MapRows(file.value, nextId);
    var kept := Kept(candidates);
    if examId !in exams {
      return Err(Failure(404, "Exam not found."));
    }
    if !AllValid(kept) {
      return Err(Failure(500, "Validation failed"));
    }
    var exam := exams[examId];
    r := Ok(Imported(PreSave(exam.(questions := exam.questions + ToQuestions(kept))), |kept|));
  }

  /** `records.map(row => …)`: each row's candidate, its options pushed by
      `RowOptions`. */
  method MapRows(rows: seq<Row>, nextId: nat) returns (candidates: seq<Candidate>)
    ensures candidates == Candidates(rows, nextId)
  {
    candidates := [];
    for k := 0 to |rows|
      invariant candidates == CandidatesUpTo(rows, nextId, k)
    {
      var base := nextId + 5 * k;
      var options := RowOptions(rows[k], base);
      ghost var spec := CandidatesUpTo(rows, nextId, k + 1);
      assert spec == CandidatesUpTo(rows, nextId, k) + [CandidateOf(rows[k], base, RowChoices(rows[k], base))];
      candidates := candidates + [CandidateOf(rows[k], base, options)];
    }
  }

  /** Every appended question has a text, two to four options and type
      `'single'`. */
  lemma ImportedQuestionShape(rows: seq<Row>, nextId: nat, q: Question)
    requires AllValid(Kept(Candidates(rows, nextId)))
    requires q in ToQuestions(Kept(Candidates(rows, nextId)))
    ensures q.text != "" && 2 <= |q.options| <= 4 && q.qtype == Single
  {
    var kept := Kept(Candidates(rows, nextId));
    var k :| 0 <= k < |kept| && ToQuestions(kept)[k] == q;
    assert kept[k] in Candidates(rows, nextId);
  }

  /** After a non-empty import the exam's total is the old questions' marks
      plus the imported ones'. */
  lemma ImportRecomputesTotal(e: Exam, added: seq<Question>)
    requires added != []
    ensures PreSave(e.(questions := e.questions + added)).totalMarks == SumMarks(e.questions) + SumMarks(added)
  {
    SumMarksAppend(e.questions, added);
  }

  /** A complete row with columns `option_a` to `option_d` and `correct`
      "b, d" gives four options of which exactly B and D are correct. */
  lemma ImportRowExample(row: Row)
    requires "correct" in row && row["correct"] == "b, d"
    requires forall j :: 0 <= j < 4 ==> OptionText(row, Letters[j]) != ""
    ensures var r := RowChoices(row, 0);
            |r| == 4 && !r[0].isCorrect && r[1].isCorrect && !r[2].isCorrect && r[3].isCorrect
  {
    CorrectColumnExample(row);
    var t, m := LetterTexts(row), LetterMarks(row);
    assert t[0] != "" && t[1] != "" && t[2] != "" && t[3] != "";
    assert !m[0] && m[1] && !m[2] && m[3];
    assert Choices(t, m, 0, 1) == [Choice(1, t[0], m[0])];
    assert Choices(t, m, 0, 2) == [Choice(1, t[0], m[0]), Choice(2, t[1], m[1])];
    assert Choices(t, m, 0, 3) == [Choice(1, t[0], m[0]), Choice(2, t[1], m[1]), Choice(3, t[2], m[2])];
  }

  lemma UpperExample()
    ensures ToUpper("b, d") == "B, D"
  {
    assert UpperChar('b') == 'B' && UpperChar(',') == ',' && UpperChar(' ') == ' ' && UpperChar('d') == 'D';
  }

  lemma SplitExample()
    ensures Split("B, D", ',') == ["B", " D"]
  {
    assert IndexOf("B, D", ',') == 1;
    assert Split(" D", ',') == [" D"];
    assert "B, D"[..1] == "B" && "B, D"[2..] == " D";
  }

  lemma TrimExample()
    ensures Trim("B") == "B" && Trim(" D") == "D"
  {
    assert IsSpace(' ') && !IsSpace('D') && !IsSpace('B');
    assert LeadingSpaces(" D") == 1;
    assert " D"[1..] == "D";
    assert TrailingSpaces("D") == 0;
  }

  /** With `correct` "b, d", letters B and D are marked and A and C are not. */
  lemma CorrectColumnExample(row: Row)
    requires "correct" in row && row["correct"] == "b, d"
    ensures MarkedCorrect(row, 'B') && MarkedCorrect(row, 'D')
    ensures !MarkedCorrect(row, 'A') && !MarkedCorrect(row, 'C')
  {
    assert Pick(row, ["correct"], "") == "b, d";
    CorrectLetters();
    assert ['A'] != "B" && ['A'] != "D" && ['C'] != "B" && ['C'] != "D";
  }

  lemma CorrectLetters()
    ensures TrimAll(Split(ToUpper("b, d"), ',')) == ["B", "D"]
  {
    calc {
      TrimAll(Split(ToUpper("b, d"), ','));
      { UpperExample(); }
      TrimAll(Split("B, D", ','));
      { SplitExample(); }
      TrimAll(["B", " D"]);
      [Trim("B"), Trim(" D")];
      { TrimExample(); }
      ["B", "D"];
    }
  }

  /** The analytics bucket index of a percentage. */
  function Bucket(p: int): (b: nat)
    ensures b < 5
    ensures b == 0 <==> p <= 20
    ensures b == 1 <==> 20 < p <= 40
    ensures b == 2 <==> 40 < p <= 60
    ensures b == 3 <==> 60 < p <= 80
    ensures b == 4 <==> 80 < p
  {
    if p <= 20 then 0 else if p <= 40 then 1 else if p <= 60 then 2 else if p <= 80 then 3 else 4
  }

  function BucketCount(ps: seq<int>, b: nat): nat {
    if ps == [] then 0 else BucketCount(ps[..|ps| - 1], b) + (if Bucket(ps[|ps| - 1]) == b then 1 else 0)
  }

  /** One more percentage adds one to its own bucket only. */
  lemma BucketCountSnoc(ps: seq<int>, i: nat)
    requires i < |ps|
    ensures forall b :: BucketCount(ps[..i + 1], b) == BucketCount(ps[..i], b) + (if Bucket(ps[i]) == b then 1 else 0)
  {
    assert ps[..i + 1][..i] == ps[..i];
  }

  /** Every percentage falls in exactly one of the five buckets. */
  lemma {:induction false} BucketsCoverAll(ps: seq<int>)
    ensures BucketCount(ps, 0) + BucketCount(ps, 1) + BucketCount(ps, 2) + BucketCount(ps, 3) + BucketCount(ps, 4) == |ps|
  {
    if ps != [] {
      BucketsCoverAll(ps[..|ps| - 1]);
    }
  }

  /** The `distribution` array incremented attempt by attempt: each count
      is the number of percentages in its bucket, and the counts add up to
      the number of attempts. */
  method Distribution(ps: seq<int>) returns (dist: seq<nat>)
    ensures |dist| == 5 && forall b :: 0 <= b < 5 ==> dist[b] == BucketCount(ps, b)
    ensures dist[0] + dist[1] + dist[2] + dist[3] + dist[4] == |ps|
  {
    var d := new nat[5](_ => 0);
    for i := 0 to |ps|
      invariant forall b :: 0 <= b < 5 ==> d[b] == BucketCount(ps[..i], b)
    {
      BucketCountSnoc(ps, i);
      var p := ps[i];
      if p <= 20 { d[0] := d[0] + 1; }
      else if p <= 40 { d[1] := d[1] + 1; }
      else if p <= 60 { d[2] := d[2] + 1; }
      else if p <= 80 { d[3] := d[3] + 1; }
      else { d[4] := d[4] + 1; }
    }
    assert ps[..|ps|] == ps;
    dist := d[..];
    BucketsCoverAll(ps);
  }

  lemma SumOfFive(d: seq<nat>)
    requires |d| == 5
    ensures Sum(d) == d[0] + d[1] + d[2] + d[3] + d[4]
  {
    assert d[..4][..3] == d[..3] && d[..3][..2] == d[..2] && d[..2][..1] == d[..1];
    assert d[..1][..0] == [];
    assert Sum(d[..1]) == d[0];
    assert Sum(d[..2]) == Sum(d[..1]) + d[1];
    assert Sum(d[..3]) == Sum(d[..2]) + d[2];
    assert Sum(d[..4]) == Sum(d[..3]) + d[3];
    assert Sum(d) == Sum(d[..4]) + d[4];
  }

  /** `total > 0 ? Math.round(passed / total * 100) : 0`. */
  function PassRate(passed: nat, total: nat): (r: int)
    requires passed <= total
    ensures 0 <= r <= 100
    ensures total == 0 ==> r == 0
    ensures total > 0 ==> 2 * total * r <= 200 * passed + total < 2 * total * r + 2 * total
  {
    if total == 0 then 0
    else
      RoundDivNonNegative(100 * passed, total);
      RoundDivAtMost(100 * passed, total, 100);
      RoundDiv(100 * passed, total)
  }

  /** The rate rounds to 0 exactly when fewer than one in two hundred pass,
      and everyone passing gives 100. */
  lemma PassRateExtremes(passed: nat, total: nat)
    requires 0 < total && passed <= total
    ensures PassRate(passed, total) == 0 <==> 200 * passed < total
    ensures PassRate(total, total) == 100
  {
    var r := PassRate(passed, total);
    if 200 * passed < total {
      assert 2 * total * (1 - r) > 0;
      PositiveFactor(2 * total, 1 - r);
    }
    var full := PassRate(total, total);
    assert 2 * total * (full - 99) > 0;
    PositiveFactor(2 * total, full - 99);
  }

  datatype ExamStats = ExamStats(
    totalAttempts: nat,
    passedCount: nat,
    failedCount: int,
    passRate: int,
    avgScore: int,
    avgCorrect: int)

  /** One row of the analytics' attempt list; the student's name is not
      part of this model, the student's id stands for it. */
  datatype AttemptRow = AttemptRow(student: Id, marksObtained: int, percentage: int, isPassed: bool, rank: int, flagged: bool)

  datatype Analytics = Analytics(
    title: string,
    totalMarks: int,
    stats: ExamStats,
    distribution: seq<nat>,
    attempts: seq<AttemptRow>)

  function CorrectCounts(s: seq<Attempt>): (cs: seq<int>)
    ensures |cs| == |s| && forall k :: 0 <= k < |s| ==> cs[k] == s[k].correctCount
  {
    seq(|s|, k requires 0 <= k < |s| => s[k].correctCount)
  }

  /** `getExamAnalytics`: 404 for a missing exam; otherwise the figures over
      the exam's finalized attempts in store order. */
  method GetExamAnalytics(exams: map<Id, Exam>, examId: Id, atts: seq<Attempt>) returns (r: Result<Analytics>)
    ensures r.Err? <==> examId !in exams
    ensures r.Err? ==> r.failure.status == 404
    ensures r.Ok? ==>
              var s := Finalized(atts, examId);
              var st := r.value.stats;
              st.totalAttempts == |s| && st.passedCount == PassedCount(s)
              && st.failedCount == st.totalAttempts - st.passedCount >= 0
              && st.passRate == PassRate(st.passedCount, st.totalAttempts)
              && st.avgScore == AvgScore(Percentages(s)) && st.avgCorrect == AvgScore(CorrectCounts(s))
              && |r.value.distribution| == 5
              && (forall b :: 0 <= b < 5 ==> r.value.distribution[b] == BucketCount(Percentages(s), b))
              && Sum(r.value.distribution) == |s|
              && |r.value.attempts| == |s|
              && (forall k :: 0 <= k < |s| ==>
                    r.value.attempts[k] == AttemptRow(s[k].student, s[k].marksObtained, s[k].percentage,
                                                      s[k].isPassed, s[k].rank, s[k].flagged))
              && r.value.title == exams[examId].title && r.value.totalMarks == exams[examId].totalMarks
  {
    if examId !in exams {
      return Err(Failure(404, "Exam not found."));
    }
    var e := exams[examId];
    var s := Finalized(atts, examId);
    var total := |s|;
    var passed := PassedCount(s);
    var dist := Distribution(Percentages(s));
    SumOfFive(dist);
    var rows := seq(|s|, k requires 0 <= k < |s| =>
      AttemptRow(s[k].student, s[k].marksObtained, s[k].percentage, s[k].isPassed, s[k].rank, s[k].flagged));
    var stats := ExamStats(total, passed, total - passed, PassRate(passed, total),
                           AvgScore(Percentages(s)), AvgScore(CorrectCounts(s)));
    r := Ok(Analytics(e.title, e.totalMarks, stats, dist, rows));
  }

  /** `Attempt.find({ status ∈ {submitted, auto-submitted} })`, in store order. */
  function AllFinalized(atts: seq<Attempt>): (r: seq<Attempt>)
    ensures |r| <= |atts|
    ensures forall a :: a in r <==> a in atts && IsFinalized(a)
  {
    if atts == [] then []
    else
      var init := AllFinalized(atts[..|atts| - 1]);
      var last := atts[|atts| - 1];
      assert atts == atts[..|atts| - 1] + [last];
      if IsFinalized(last) then init + [last] else init
  }

  function ActiveExams(exams: seq<Exam>): (n: nat)
    ensures n <= |exams|
    ensures n == 0 <==> forall k :: 0 <= k < |exams| ==> !exams[k].isActive
    ensures n == |exams| <==> forall k :: 0 <= k < |exams| ==> exams[k].isActive
  {
    if exams == [] then 0 else ActiveExams(exams[..|exams| - 1]) + (if exams[|exams| - 1].isActive then 1 else 0)
  }

  datatype AdminDashboard = AdminDashboard(
    totalStudents: nat,
    totalExams: nat,
    totalAttempts: nat,
    passRate: int,
    recent: seq<Attempt>)

  /** The admin `getDashboard` figures: the student count comes from the
      user collection, which is not part of this model, so it is a
      parameter; the recent list is the ten latest finalized attempts. */
  function AdminDashboardOf(totalStudents: nat, exams: seq<Exam>, atts: seq<Attempt>): (d: AdminDashboard)
    ensures d.totalStudents == totalStudents && d.totalExams == ActiveExams(exams)
    ensures d.totalAttempts == |AllFinalized(atts)|
    ensures d.passRate == PassRate(PassedCount(AllFinalized(atts)), |AllFinalized(atts)|)
    ensures 0 <= d.passRate <= 100
    ensures |d.recent| == Min(10, d.totalAttempts)
    ensures forall a :: a in d.recent ==> a in atts && IsFinalized(a)
    ensures SortedBy(d.recent, NewestKey)
    ensures multiset(d.recent) <= multiset(AllFinalized(atts))
    ensures forall a, b :: a in multiset(AllFinalized(atts)) - multiset(d.recent) && b in d.recent ==>
              KeyLe(NewestKey(b), NewestKey(a))
  {
    var all := AllFinalized(atts);
    var sorted := SortBy(all, NewestKey);
    var recent := sorted[..Min(10, |sorted|)];
    PrefixIsSmallest(sorted, NewestKey, Min(10, |sorted|));
    assert forall a :: a in recent ==> a in multiset(all);
    AdminDashboard(totalStudents, ActiveExams(exams), |all|, PassRate(PassedCount(all), |all|), recent)
  }
}
