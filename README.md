# onlineexam — a Dafny model of the exam engine

This project models the server side of an online examination system (an
Express application over MongoDB) and proves properties of that model. The
center of the model is the attempt engine: a student starts an exam, gets the
questions in a per-attempt order, autosaves answers, submits, and is graded
and ranked. The engine also has anti-cheat counters and gates when results
are shown.

Around the engine the model covers:

- the exam and attempt records with their defaults, and the hook that
  recomputes an exam's total marks before saving;
- the student's exam catalog and the student dashboard;
- the admin-side CSV question import, the score analytics and the admin
  dashboard;
- the authentication gate and the role check;
- the central error handler.

The modules follow the program's structure:

| module | file | models |
|---|---|---|
| `Common`, `Strings`, `Sorting` | common.dfy, strings.dfy, sorting.dfy | option/result values, rounding, `split`/`join`/`trim`/case mapping/`parseInt`, and the database's stable sort |
| `Exams`, `Attempts` | exams.dfy, attempts.dfy | models/Exam.js and models/Attempt.js |
| `Session` | session.dfy | `shuffleArray`, the deadline, the time left, the option orders and the question view a student sees |
| `Grading`, `Ranking` | grading.dfy, ranking.dfy | `gradeAttempt` and `updateRanks` |
| `AttemptEngine` | engine.dfy | the class `AttemptStore`, holding the attempt collection, with start, save, submit, auto-submit, report, result and history |
| `Paging` | paging.dfy | `parseInt(...) \|\| default`, skip, page count and the skip/limit window |
| `ExamCatalog`, `StudentDashboard`, `Admin` | catalog.dfy, dashboard.dfy, admin.dfy | the exam, student and admin controllers |
| `Auth`, `ErrorHandler` | auth.dfy, errors.dfy | middleware/auth.js and middleware/errorHandler.js |

Modelling choices:

- **Time.** Times are integer milliseconds, and the current time is a parameter.
- **Ids.** Ids are natural numbers.
- **Exam token.** Verifying an exam token is an input: an optional decoded payload.
- **Access token.** The access-token verifier is a function parameter that returns a payload, "expired" or "invalid".
- **Randomness.** `Math.random` becomes an arbitrary choice inside `Session.ShuffleArray`.
- **Rounding.** `Math.round(n / d)` for `d > 0` is the integer `(2n + d) div 2d`, that is `floor(n/d + 1/2)` on the exact quotient. For a single division of integers (the dashboard averages) this agrees with the source: an exact half is exactly representable, and division is correctly rounded. The percentages and pass rates, `Math.round((m / t) * 100)`, divide and then multiply in double precision, and the model rounds the exact value instead (see "## Left out").

The model follows the code where the code departs from what one might expect. Each such case is proved as a lemma:

- **Attempt limit before resume.** The limit check runs before the in-progress lookup, so a student at the limit cannot resume (`LimitBlocksResume`).
- **Time left of a new attempt.** A new attempt reports `duration * 60` seconds left even when its deadline was clipped to the end of the exam window (`NewAttemptTimeLeftOverstates`).
- **No deadline check on submit.** Submit does not look at the deadline (`LateSubmitEndsSubmitted`).
- **Duplicates are counted.** Duplicate answers and duplicate selections are counted, not deduplicated (`DuplicateAnswerCountedTwice`, `RepeatedSelectionAccepted`).
- **Negative-mark fallback.** A question negative mark of 0 falls back to the exam value (`ZeroNegativeMarkFallsBack`).
- **Auto-submit order.** Auto-submit grades and re-ranks as a plain submission first, then overwrites the status (`LateSaveMatchesSubmit`).
- **`getExam` ignores `isActive`.** An inactive published exam can still be opened, though it is never listed (`InactiveExamShownNotListed`).

Where the database or JavaScript would throw, the model returns a 500 failure, as the controllers' `catch` blocks do. This covers:

- an attempt whose exam no longer exists;
- an answer without a question id, which fails the schema's `required`;
- an imported row whose marks do not parse or whose difficulty is outside the enum.

## Model

| member | source | states |
|---|---|---|
| Exams.NewChoice | models/Exam.js:3-6 | a new option carries its text and is not correct |
| Exams.NewQuestion | models/Exam.js:8-18 | a new question is single-choice, worth 1 mark, has no negative mark and no time limit, an empty explanation, medium difficulty and section "General" |
| Exams.NewExam | models/Exam.js:20-50 | a new exam has no questions, 0 total and passing marks, 1 allowed attempt, both shuffles on, negative marking off with value 0, results shown at once, unpublished, active, category "General" |
| Exams.PreSave | models/Exam.js:53-58 | with at least one question, saving sets `totalMarks` to the sum of the question marks; with none it leaves the exam as it is; no other field changes |
| Exams.PreSaveIdempotent | models/Exam.js:53-58 | saving twice gives the same exam as saving once |
| Exams.SavedTotalMarks | models/Exam.js:53-58 | starting from the default total of 0, a saved exam's total always equals the sum of its question marks |
| Exams.SumMarksNonNegative | models/Exam.js:53-58 | with non-negative question marks the total is non-negative |
| Attempts.NewAnswer | models/Attempt.js:3-10 | a new answer entry has no selection, is not correct, has 0 marks and 0 seconds spent, and no answer time |
| Attempts.NewAttempt | models/Attempt.js:12-54 | a new attempt is in progress with no answers, no submission time, all results, counters and rank at 0, not passed, not flagged, with an empty flag reason, and it keeps the given orders, deadline, start time, address, device and token |
| Session.ShuffleArray | controllers/attemptController.js:6-13 | the shuffled copy has the input's length and is a permutation of it |
| Session.ServerEndTime | controllers/attemptController.js:91-94 | the deadline is the smaller of `now + duration` minutes and the exam's end time |
| Session.TimeLeftSeconds | controllers/attemptController.js:74 | the time left is the floor of the remaining milliseconds over 1000, and never negative |
| Session.NoTimeLeftAfterDeadline | controllers/attemptController.js:218 | at or after the deadline no second is left |
| Session.DeadlineWithinWindow | controllers/attemptController.js:91-94 | a start inside the window gets a deadline between now and the end of the window, and at most `duration * 60` seconds |
| Session.NewAttemptTimeLeftOverstates | controllers/attemptController.js:166 | when the deadline is clipped by the window end, the reported `duration * 60` exceeds the real seconds left |
| Session.BuildOptionOrder | controllers/attemptController.js:102-110 | the option-order map has exactly the exam's question ids as keys; the entry of each id (set by the last question with it) is a permutation of that question's option ids, and exactly their natural order when options are not shuffled |
| Session.LastWithId | controllers/attemptController.js:55-56 | the id-to-question map keeps a question with that id, and has none exactly when no question has that id |
| Session.FirstChoice | controllers/attemptController.js:64 | `find` returns an option with that id, and none exactly when no option has it |
| Session.PublicOptionsNatural | controllers/attemptController.js:62-66 | with distinct option ids and the natural order, the options shown are the exam's options in order, reduced to id and text |
| Session.PublicOptionsSound | controllers/attemptController.js:63-66 | every option shown is one of the question's options, reduced to id and text, with its id in the order; ids not found are dropped, so nothing is lost only when all ids are found |
| Session.PublicOptionsInOrder | controllers/attemptController.js:62-66 | when every id of the option order names an option, exactly one option is shown per id, and the k-th option shown has the k-th id of the order |
| Session.OrderedQuestionsNatural | controllers/attemptController.js:58-72 | with distinct question ids, the natural question order and natural option orders, the student sees the exam's questions in order, without correctness |
| Session.OrderedQuestionsSound | controllers/attemptController.js:58-72 | every question shown is an exam question whose id is in the stored order; there is one question per stored id the exam has, and unknown ids are dropped |
| Session.OrderedQuestionsAt | controllers/attemptController.js:58-72 | a stored id that the exam still has is shown at the position counting only the stored ids before it that the exam has, as that question with its stored option order |
| Session.OrderedQuestionsInOrder | controllers/attemptController.js:58-72 | when every stored question id names a question of the exam, exactly one question is shown per id, and the k-th one shown is the question with the k-th stored id, given the option order stored for it |
| Grading.FindQuestion | controllers/attemptController.js:315 | `questions.id(id)` finds a question with that id, and none exactly when no question has it |
| Grading.CorrectIds | controllers/attemptController.js:323-325 | an id is a correct id exactly when some option with that id is marked correct |
| Grading.Deduction | controllers/attemptController.js:344 | the penalty is the question's negative mark, or the exam's value when the question's is 0 |
| Grading.PointsByVerdict | controllers/attemptController.js:337-346 | an unknown or skipped answer scores 0; a correct answer scores the question's marks; an incorrect one loses the penalty when negative marking is on, and scores 0 otherwise |
| Grading.GradeAnswer | controllers/attemptController.js:314-349 | an answer to an unknown question is returned untouched; otherwise only its correctness and marks are written |
| Grading.GradedAnswers | controllers/attemptController.js:314-352 | the graded answers are the answers graded one by one, in order |
| Grading.Percentage | controllers/attemptController.js:355 | the percentage is the half-up rounding of `100 * marks / total`, and 0 unless the total is positive |
| Grading.PercentageBounds | controllers/attemptController.js:355 | with marks between 0 and the total, the percentage is between 0 and 100 |
| Grading.PercentageFull | controllers/attemptController.js:355 | full marks give 100 |
| Grading.Grade | controllers/attemptController.js:307-361 | the loop's result is the graded answers, the exam's total, the raw score clamped at 0, its percentage, the pass flag (marks at least the passing marks) and the tallies of correct, incorrect and skipped answers |
| Grading.GradeOne | controllers/attemptController.js:315-349 | one step of the loop yields the graded answer, its marks and its verdict |
| Grading.TallyPartition | controllers/attemptController.js:309-350 | every answer is counted exactly once: as correct, incorrect or skipped, or not at all when its question is unknown |
| Grading.GradeAnswerKeepsVerdict | controllers/attemptController.js:349 | grading keeps the question, the selection, the time spent and the answer time, and the verdict and marks of a graded answer are unchanged |
| Grading.RegradeIdempotent | controllers/attemptController.js:314-350 | grading graded answers changes nothing, and neither the score nor the tallies |
| Grading.NoCorrectAnswerScoresZero | controllers/attemptController.js:354 | with no correct answer and non-negative penalties, the raw score is not positive and the stored marks are 0 |
| Grading.AllIncorrectRawScore | controllers/attemptController.js:341-346 | when every answer is incorrect, negative marking is on and no question has its own penalty, the raw score is minus the answer count times the exam's penalty |
| Grading.ClampExample | controllers/attemptController.js:354-356 | three wrong answers with a penalty of 2 give a raw score of -6, stored as 0 marks, 0 percent, not passed |
| Grading.HalfMarksExample | controllers/attemptController.js:353-356 | one of two 5-mark questions right gives 5 marks, 50 percent, not passed at 6, one correct and one incorrect |
| Grading.MultipleChoiceExamples | controllers/attemptController.js:332-335 | a multiple-choice answer is correct with all correct options in any order, and wrong with too few or too many |
| Grading.RepeatedSelectionAccepted | controllers/attemptController.js:333-334 | selecting one correct option twice passes the length-and-membership check of a two-answer question |
| Grading.DuplicateAnswerCountedTwice | controllers/attemptController.js:314 | a correct answer stored twice scores twice and is counted twice |
| Grading.ZeroNegativeMarkFallsBack | controllers/attemptController.js:344 | a question penalty of 0 falls back to the exam's positive penalty |
| Grading.MultipleIsSetEquality | controllers/attemptController.js:333-334 | with distinct option ids and a selection without repeats, the multiple-choice check is exactly equality of the selected and the correct sets |
| Ranking.Finalized | controllers/attemptController.js:369 | the attempts ranked are exactly the exam's submitted and auto-submitted ones |
| Ranking.RankingOrder | controllers/attemptController.js:369-370 | the order holds exactly the exam's finalized attempts, sorted by marks descending, then by submission time ascending |
| Ranking.RankIn | controllers/attemptController.js:372-374 | an attempt's rank is one more than its first position in the order, and 0 when it is absent |
| Ranking.Reranked | controllers/attemptController.js:368-376 | re-ranking changes no field but `rank` |
| Ranking.RerankedRanks | controllers/attemptController.js:368-376 | after re-ranking, a finalized attempt of the exam holds its position in the order plus one (at least 1), and every other attempt keeps its rank |
| Ranking.RankAtPosition | controllers/attemptController.js:372-373 | with distinct ids the attempt at position k gets rank k + 1 |
| Ranking.RankedIffFinalized | controllers/attemptController.js:368-376 | an attempt gets a rank exactly when it is a finalized attempt of the exam, and the rank is between 1 and their number |
| Ranking.RanksArePositions | controllers/attemptController.js:372-374 | ranks are the positions plus one, and two distinct ranked attempts never share a rank |
| Ranking.RankFollowsKey | controllers/attemptController.js:370 | a better rank means a key no worse, and more marks always mean a better rank |
| Ranking.TieBrokenBySubmission | controllers/attemptController.js:370 | of two attempts with equal marks, the one submitted first ranks 1 and the other 2 |
| Paging.QueryInt | controllers/attemptController.js:472-473 | a missing parameter, one that is not a number and one that reads as 0 all give the default; any other number is taken as it is, so the result is never 0 when the default is not |
| Paging.QueryIntShow | controllers/attemptController.js:472-473 | a number written out in decimal reads back as itself, and "0" gives the default |
| Paging.PageRequestOf | controllers/attemptController.js:472-474 | page and limit come from the query with defaults 1 and 10, neither is 0, and skip is `(page - 1) * limit` |
| Paging.DefaultPageRequest | controllers/adminController.js:76-78 | without parameters the first ten records are asked for, with skip 0 |
| Paging.PageCount | controllers/attemptController.js:487 | with a positive limit the page count is the least number of pages that hold all records |
| Paging.Window | controllers/attemptController.js:480-481 | a negative skip is refused; otherwise the window holds up to `limit` records (the limit taken without its sign) starting at `skip`, in order |
| Paging.PageOfRecord | controllers/attemptController.js:474-487 | record i falls on page `i / limit + 1`, which is within the page count |
| Paging.RecordOnItsPage | controllers/attemptController.js:474-481 | record i is item `i % limit` of its page's window |
| AttemptEngine.StoredAnswer | controllers/attemptController.js:210-215 | a stored answer keeps the question id, with the selection defaulting to none, the time spent to 0, and the answer time to now when it is missing or 0 |
| AttemptEngine.StoredAnswers | controllers/attemptController.js:209-216 | the request's answers replace the stored ones one by one, and this fails exactly when some entry lacks its question id |
| AttemptEngine.FirstInProgress | controllers/attemptController.js:39-41 | the lookup finds an in-progress attempt of this student on this exam, and none exactly when there is none |
| AttemptEngine.FindOwned | controllers/attemptController.js:245-248 | the lookup finds the attempt with this id owned by this student, and none exactly when there is none |
| AttemptEngine.Graded | controllers/attemptController.js:352-361 | grading writes the graded answers, the exam's total, the clamped marks, their percentage, the pass flag, the three tallies, status submitted and submission time now, and keeps id, exam, student, rank and the anti-cheat fields |
| AttemptEngine.WithCounters | controllers/attemptController.js:272-278 | both counters are overwritten; the flag is raised with the reason text when tab switches exceed 5 or fullscreen exits exceed 3, and is otherwise left alone, so a flag is never cleared; nothing else changes |
| AttemptEngine.Counted | controllers/attemptController.js:504-505 | a tab switch adds one to its counter, a fullscreen exit adds one to its counter, and any other event changes nothing |
| AttemptEngine.DetailedAnswers | controllers/attemptController.js:421-438 | each detailed answer is the entry built from a stored answer whose question the exam has: the question's text, type, options, marks, explanation, difficulty and section with the answer's selection, correctness, marks and time spent; there are no more of them than answers |
| AttemptEngine.DetailedAnswersComplete | controllers/attemptController.js:421-438 | every stored answer whose question the exam has gives its entry; only answers to unknown questions are dropped |
| AttemptEngine.DetailedAnswersInOrder | controllers/attemptController.js:421-438 | when the exam has every answered question, there is exactly one entry per stored answer, in the stored order |
| AttemptEngine.NewestPositions | controllers/attemptController.js:476-479 | the store positions of the student's attempts, each exactly once, latest first; their number is the student's attempt count |
| AttemptEngine.NewestFirst | controllers/attemptController.js:476-479 | the history is the student's attempts, each once, in reverse store order (newest first), as many as `countDocuments` reports |
| AttemptEngine.AppendKeepsInvariant | controllers/attemptController.js:118-127 | creating an attempt with the next id for a pair with no attempt in progress keeps the store invariant: ids below the next id and distinct, no attempt expired, finalized attempts timestamped, at most one attempt in progress per student and exam |
| AttemptEngine.AutoSubmittedKeepsInvariant | controllers/attemptController.js:381 | relabelling a finalized attempt as auto-submitted keeps the store invariant |
| AttemptEngine.RanksOnlyKeepInvariant | controllers/attemptController.js:372-374 | writing ranks alone keeps the store invariant |
| AttemptEngine.AttemptStore.Start | controllers/attemptController.js:17-173 | the guards refuse in their order and change nothing; a resume re-issues only the token and shows the stored orders with the remaining time; a create appends one in-progress attempt with the next id, a clipped deadline, a question order that is a permutation of the exam's (natural when not shuffled), fitting option orders, and reports `duration * 60` seconds; the store invariant holds after each |
| AttemptEngine.AttemptStore.UpdateRanks | controllers/attemptController.js:368-376 | the loop writes each attempt of the ranking order its position plus one, so the store becomes the re-ranked store, and the invariant holds |
| AttemptEngine.AttemptStore.GradeAttempt | controllers/attemptController.js:307-365 | the attempt is graded and timestamped, then its exam re-ranked, and the invariant holds |
| AttemptEngine.AttemptStore.AutoSubmit | controllers/attemptController.js:379-389 | the store is graded and re-ranked as after a submission, then the attempt's status is auto-submitted, and the invariant holds |
| AttemptEngine.AttemptStore.Save | controllers/attemptController.js:177-230 | 401 on an invalid token, 404 when the caller has no such attempt in progress, 401 when the token names another attempt, all without change; past the deadline the stored answers are auto-submitted; otherwise the answers are replaced and the time left recorded, nothing else changes |
| AttemptEngine.AttemptStore.Submit | controllers/attemptController.js:234-304 | 401 on an invalid token, 404 for an attempt not the caller's, 400 if not in progress, 401 when the token names another attempt, all without change; otherwise answers replaced, counters and flag set, graded and re-ranked with no deadline check, and the summary returned only when results are shown at once |
| AttemptEngine.AttemptStore.ReportEvent | controllers/attemptController.js:497-511 | 404 without change unless the caller owns the attempt and it is in progress; otherwise only the event's counter on that attempt changes |
| AttemptEngine.AttemptStore.ResultFor | controllers/attemptController.js:393-466 | 404 exactly when the caller owns no such attempt; 400 "Exam not yet submitted." exactly when it is in progress; a finished attempt is always answered when its exam exists (500 otherwise); without immediate results only its id, status and submission time; with them the exam's title and category, the stored summary, rank, start and submission times, status, tab switches, flag and the detailed answers |
| AttemptEngine.AttemptStore.HistoryFor | controllers/attemptController.js:470-493 | refused exactly when the skip is negative; otherwise the page is the window of the student's attempts, newest first, with the total (the student's attempt count), the page, the limit and the page count |
| AttemptEngine.StartGuardOrder | controllers/attemptController.js:19-43 | 404 exactly for a missing, unpublished or inactive exam; a start that is not refused is inside the window and under the limit; a resume picks an open attempt, and a create happens only when none is open |
| AttemptEngine.CreateRespectsLimit | controllers/attemptController.js:33-36 | after a create the student's attempt count on the exam is still within the limit |
| AttemptEngine.LimitBlocksResume | controllers/attemptController.js:33-43 | at the limit an open attempt cannot be resumed: the start is refused with 400 |
| AttemptEngine.SixthAttemptRefused | controllers/attemptController.js:33-36 | with five attempts and a limit of five the next start is refused |
| AttemptEngine.LateSubmitEndsSubmitted | controllers/attemptController.js:234-280 | a submit after the deadline still ends as submitted, stamped now |
| AttemptEngine.LateSaveMatchesSubmit | controllers/attemptController.js:204-205 | with the counters under the flag thresholds, a save past the deadline gives the same store as submitting the stored answers and counters, except that the status is auto-submitted |
| AttemptEngine.FlagThresholdExample | controllers/attemptController.js:275-278 | six tab switches raise the flag with the reason "Tab switches: 6, Fullscreen exits: 0"; five leave an unflagged attempt unflagged |
| AttemptEngine.FinalizedAttemptIsRanked | controllers/attemptController.js:352-376 | once graded and re-ranked, the attempt's rank is between 1 and the number of finalized attempts of its exam |
| ExamCatalog.StatusAt | controllers/examController.js:28 | an exam is upcoming exactly before its start, expired exactly when it has started and its end has passed, and active inside the window, both bounds included |
| ExamCatalog.StatusAgreesWithStart | controllers/attemptController.js:25-30 | the listed status agrees with the start guards: upcoming exactly when a start is refused as not started, expired exactly when refused as ended |
| ExamCatalog.Redact | controllers/examController.js:12 | the questions shown keep id, text and marks, and their options lose correctness |
| ExamCatalog.Available | controllers/examController.js:9-11 | the catalog holds exactly the published and active exams |
| ExamCatalog.Listed | controllers/examController.js:9-14 | the listing is a permutation of the published and active exams, sorted by start time |
| ExamCatalog.AttemptCounts | controllers/examController.js:17-23 | the loop maps exactly the listed exams with an attempt by the student to their attempt counts |
| ExamCatalog.GetExams | controllers/examController.js:6-36 | every listed exam comes with the student's attempt count (0 without one), its status and its question count, in the listing's order |
| ExamCatalog.ListingShape | controllers/examController.js:25-30 | the enriched listing is ordered by start time, holds only published active exams, counts each exam's questions, and shows "active" exactly inside the window |
| ExamCatalog.FindExam | controllers/examController.js:42 | the lookup finds an exam with that id, and none exactly when there is none |
| ExamCatalog.GetExam | controllers/examController.js:40-62 | 404 exactly when the exam is missing or unpublished; otherwise the redacted exam with its question count and the student's attempt count |
| ExamCatalog.InactiveExamShownNotListed | controllers/examController.js:46-48 | a published but inactive exam is shown by id but never listed |
| StudentDashboard.OwnFinalized | controllers/studentController.js:10 | the dashboard counts exactly the student's submitted and auto-submitted attempts |
| StudentDashboard.NewestFirst | controllers/studentController.js:10-12 | the dashboard's attempts are a permutation of those, sorted by submission time, newest first |
| StudentDashboard.NewestFirstOrder | controllers/studentController.js:12 | earlier in the list means submitted no earlier |
| StudentDashboard.AvgScore | controllers/studentController.js:18-20 | the average is the half-up rounded mean percentage, and 0 with no attempts |
| StudentDashboard.BestScore | controllers/studentController.js:21 | the best score is the largest percentage, and 0 with no attempts |
| StudentDashboard.AverageWithinScores | controllers/studentController.js:18-21 | with percentages in a range, the average lies between its lower end and the best score |
| StudentDashboard.Recent | controllers/studentController.js:24-34 | the recent list is the first min(5, n) attempts, in order |
| StudentDashboard.CategoryOf | controllers/studentController.js:39 | an attempt's category is its exam's category when the exam exists and has a non-empty one, and "General" otherwise |
| StudentDashboard.Dedup | controllers/studentController.js:44 | every category seen is listed, and each only once |
| StudentDashboard.StatsMeaning | controllers/studentController.js:37-43 | after the loop over the first n attempts, a category has an entry exactly when it was seen, with its count and its percentage total |
| StudentDashboard.CategoryStats | controllers/studentController.js:37-48 | one entry per category in first-seen order, each with its count (at least 1) and its rounded average percentage; the counts sum to the number of attempts |
| StudentDashboard.CountsCoverAll | controllers/studentController.js:37-43 | every attempt is counted under exactly one category |
| StudentDashboard.GetDashboard | controllers/studentController.js:7-61 | the totals, passed count (at most the total), average, best score, recent slice, catalog size and per-category entries are those of the student's finalized attempts, newest first; the category counts sum to the total |
| Admin.Pick | controllers/adminController.js:159 | the `\|\|` chain yields the text of the first named column that is present and not empty, and the fallback exactly when there is none |
| Admin.TrimAll | controllers/adminController.js:163 | each piece is trimmed, in order |
| Admin.LetterTexts | controllers/adminController.js:158-159 | the four candidate option texts are those of letters A to D |
| Admin.LetterMarks | controllers/adminController.js:163 | each letter's correctness is whether it appears in the `correct` column |
| Admin.Choices | controllers/adminController.js:158-166 | the first n letters yield at most n options, with ids inside the row's block |
| Admin.RowOptions | controllers/adminController.js:156-166 | the `forEach` pushing options produces the row's options |
| Admin.ChoicesPresent | controllers/adminController.js:160 | a letter gives an option exactly when its text is non-empty |
| Admin.ChoicesContent | controllers/adminController.js:158-166 | the options are the non-empty letters in order A to D, each with its text and correctness |
| Admin.RowChoicesByLetter | controllers/adminController.js:158-166 | a row has at most four options, one exactly for each letter with text, in letter order |
| Admin.Candidates | controllers/adminController.js:155-176 | one candidate question per row, with its own block of ids and at most four options |
| Admin.MapRows | controllers/adminController.js:155-176 | the `map` over the rows produces the candidates |
| Admin.Kept | controllers/adminController.js:176 | the filter keeps exactly the candidates with text and at least two options |
| Admin.ToQuestions | controllers/adminController.js:167-175 | each kept candidate becomes a question, in order |
| Admin.ImportQuestions | controllers/adminController.js:148-192 | 400 without a file, 404 for a missing exam, 500 exactly when a kept row has a bad number of marks or a bad difficulty; otherwise the kept questions are appended, the exam is saved through the hook, and the count imported is their number |
| Admin.ImportedQuestionShape | controllers/adminController.js:167-176 | every imported question has text, two to four options, and single type |
| Admin.ImportRecomputesTotal | controllers/adminController.js:181-182 | after an import the exam's total is the old questions' marks plus the new ones' |
| Admin.ImportRowExample | controllers/adminController.js:158-166 | a row with four texts and `correct` "b, d" gives four options, B and D correct |
| Admin.CorrectColumnExample | controllers/adminController.js:163 | `correct` "b, d" marks B and D and neither A nor C |
| Admin.Bucket | controllers/adminController.js:399-403 | a percentage up to 20 falls in bucket 0, up to 40 in bucket 1, up to 60 in bucket 2, up to 80 in bucket 3, and any higher one in bucket 4 |
| Admin.BucketsCoverAll | controllers/adminController.js:397-404 | every percentage falls in exactly one bucket |
| Admin.Distribution | controllers/adminController.js:397-404 | the loop counts each bucket's percentages, and the counts sum to the number of attempts |
| Admin.PassRate | controllers/adminController.js:414 | the pass rate is the half-up rounded percentage passed, between 0 and 100, and 0 without attempts |
| Admin.PassRateExtremes | controllers/adminController.js:414 | the pass rate is 0 exactly when under half a percent passed, and 100 when all passed |
| Admin.GetExamAnalytics | controllers/adminController.js:383-435 | 404 exactly for a missing exam; otherwise the totals, passed and failed counts (failed is total minus passed, never negative), pass rate, rounded averages, bucket counts summing to the total, one row per finalized attempt in order with its student, marks, percentage, pass flag, rank and flag, and the exam's title and total |
| Admin.AllFinalized | controllers/adminController.js:15-16 | the admin dashboard counts exactly the submitted and auto-submitted attempts |
| Admin.ActiveExams | controllers/adminController.js:14 | the active-exam count is 0 exactly when no exam is active, and the number of exams exactly when all are |
| Sorting.PrefixIsSmallest | controllers/adminController.js:19-20 | `sort(...).limit(m)` keeps part of the sorted records without repeats, and every record left out has a key no smaller than any record kept |
| Admin.AdminDashboardOf | controllers/adminController.js:10-58 | the dashboard shows the student total, the active exams, the finalized attempts, their pass rate (0 to 100), and the most recent min(10, n) finalized attempts, newest first: drawn from the finalized attempts without repeats, and no attempt left out was submitted later than one kept |
| ErrorHandler.DuplicateMessage | middleware/errorHandler.js:19 | the message is the field with its first letter upper-cased, then " already exists." |
| ErrorHandler.StatusOr500 | middleware/errorHandler.js:38 | an error's own non-zero status is kept, and a missing or zero one becomes 500 |
| ErrorHandler.Handle | middleware/errorHandler.js:1-42 | a bad id gives 404 first; a duplicate key gives 400 naming the first key field; only an expired token carries a code |
| ErrorHandler.HandleStatus | middleware/errorHandler.js:10-41 | every recognised error gets 400, 401 or 404; 404 exactly for a bad id and 401 exactly for the two token errors; any other error keeps its status or gets 500, and keeps its message or gets "Internal Server Error" |
| ErrorHandler.CastErrorFirst | middleware/errorHandler.js:11-21 | a bad-id error that also has the duplicate-key code still gives 404 |
| ErrorHandler.DuplicateEmail | middleware/errorHandler.js:17-21 | a duplicate email gives 400 "Email already exists." |
| ErrorHandler.ValidationMessages | middleware/errorHandler.js:24-28 | a validation error that is not a duplicate key gives 400 with all its messages, in order, joined by ", " (one message alone, two as "m1, m2", none as "") and no error code |
| ErrorHandler.DefaultKeepsOwn | middleware/errorHandler.js:38-41 | an unrecognised error with its own status and message keeps both |
| Auth.BearerToken | middleware/auth.js:8-10 | a token is taken only after "Bearer ", and it is non-empty and has no space |
| Auth.BearerRoundTrip | middleware/auth.js:8-10 | "Bearer " followed by a space-free token gives that token back |
| Auth.TokenOfPieces | middleware/auth.js:9 | the token is the second space-separated piece, whatever follows it |
| Auth.OtherSchemeNoToken | middleware/auth.js:8 | a header with another scheme carries no token |
| Auth.ThrownReply | middleware/auth.js:39-44 | a verification error gives 401, with the "Token expired." reply exactly for an expired token |
| Auth.Protect | middleware/auth.js:4-45 | the request passes exactly with a token that verifies, for an existing active unbanned user without a device conflict, and passes as that user; without a token 401 "Not authorized. No token."; a token that fails to verify gives the expired or the invalid reply; a missing user 401 "User no longer exists."; an inactive or banned user 403; a device mismatch the 401 device conflict |
| Auth.NoTokenNoVerify | middleware/auth.js:12-14 | without a token the answer is 401 "Not authorized. No token.", whatever the verifier would say |
| Auth.BanCheckedBeforeDevice | middleware/auth.js:23-34 | a banned user is refused with 403 before the device check |
| Auth.DeviceConflictOnlyOnMismatch | middleware/auth.js:28-34 | the device conflict is answered exactly when both device ids are present and differ |
| Auth.ThrownRepliesAgree | middleware/auth.js:39-44 | the gate's replies to token errors are the error handler's replies for the same errors |
| Auth.Request.ProtectRequest | middleware/auth.js:4-45 | on a pass the request records the user and the user id and calls `next` once; on a refusal it records the reply and changes nothing else |
| Auth.Request.AuthorizeRequest | middleware/auth.js:47-57 | `next` runs once exactly when the role is allowed; otherwise the 403 reply is recorded; the user is unchanged |
| Auth.Authorization | middleware/auth.js:47-57 | no refusal exactly when the role is listed; otherwise a 403 naming the role |
| Auth.OnlyGates | middleware/auth.js:59-60 | `adminOnly` lets exactly admins through and `studentOnly` exactly students |

## Left out

- Input and output: the HTTP layer, response bodies beyond status, message and the fields listed above, the database queries and saves, and process logging. Each operation is one atomic step over the in-memory store.
- Concurrency: the count-then-create race in `startAttempt` and the unordered `Promise.all` rank writes are not modelled; operations run one after another.
- Token signing and verification (utils/jsonwebtoken): the exam token and the access token are inputs; utils/jwt.js is not part of this model. A database error inside `protect` (a failing user lookup) is not modelled.
- Randomness: `Math.random` is an arbitrary choice, so a shuffle is any permutation reachable by those swaps.
- Floating point: marks, percentages and averages are integers, `Math.round` is integer half-up division, and `Math.ceil` of the page count is integer division; NaN and fractional marks are not represented.
- Grading.Percentage: rounds the exact value of `100 * marks / total`; the source computes `(marks / total) * 100` in double precision, which can land just below an exact half and round down (23 of 40 gives 57.49999999999999, so 57 in the source and 58 here).
- Admin.PassRate: rounds the exact value of `100 * passed / total`, with the same double-precision caveat as `Grading.Percentage` (23 passed of 40 gives 57 in the source and 58 here); the admin dashboard's and the analytics' pass rates inherit it.
- Case mapping and parsing: `toUpperCase`/`toLowerCase` map ASCII letters only, and `parseInt` reads decimal and `0x` hexadecimal digits after optional white space and sign.
- Database ordering: ties in `sort` keep store order (a stable sort); the real database leaves their order unspecified. Object ids are numbers, with the import assigning each row its own block of five ids from `nextId`.
- `Object.entries` puts integer-like keys first; the per-category list keeps first-seen order for every key.
- A negative `limit` is read as its absolute value by the window, as the database does.
- The CSV tokenizer (csv-parse) is not modelled: rows arrive as maps from column name to text.
- Admin exam CRUD, student listing search, ban/unban, reset of attempts, the Excel and PDF exports, the monthly statistics aggregate, and the attempt-count and average-score aggregates of the admin exam list are left out as database pipelines or library calls. Of the admin listings only the paging arithmetic is modelled.
- The user collection (models/User.js) is reduced to the fields the gate reads; the student total of the admin dashboard is an input, and student names populated into results are not modelled.
- AttemptEngine.NewestFirst: orders by store position, standing in for `createdAt` descending.
- ErrorHandler.Handle: requires a duplicate-key error to carry at least one key field, as the database always supplies one.
- Auth.Request.AuthorizeRequest: requires a recorded user, as it always runs after `protect`.
