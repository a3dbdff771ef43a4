# Quiz preparation app: validated quiz definitions and scoring

This project models the core of a small quiz application in Dafny. It has two parts:

- **Quiz definition validator** (`schemas.py`). A decoded record either becomes a `Test` that holds `Question`s, or it is rejected. A question must have at least two options. Its `correct_answers` must be non-empty and every index must fall inside `options`. A `single` question must have exactly one correct answer. A test must have at least one question, and its `passing_score` must lie in [0, 100]. An absent `passing_score` becomes 80.
- **Scoring engine** (`calculate_results` in `main.py`). Given a test and the options the taker picked, keyed by each question's original position, it builds one entry per question, counts the correct ones, computes the percentage and sets the pass flag. There is no partial credit. It also covers the loading loop of `load_all_tests`, which skips definitions that fail to parse and stores the accepted ones by `name`, so a later file replaces an earlier one with the same name.

Modules:

- `wrappers.dfy` (`Wrappers`): `Option` and `Result`.
- `schemas.dfy` (`Schemas`): `QuestionType`, `Question`, `Test`, and the `ValidQuestion` / `ValidTest` invariants. It also holds the raw records (`RawQuestion`, `RawTest`, where the `None` value of a field means the record leaves that field out), the `Error` taxonomy, and the rule predicates stated on raw records (`QuestionRulesHold`, `TestRulesHold`). The parsers are `ParseQuestion`, `ParseQuestionsFrom` and `ParseTest`. The file ends with the per-rule rejection lemmas and the round-trip lemmas.
- `scoring.dfy` (`Scoring`): `QuestionResult`, `TestResult`, and the specification functions `IsCorrect`, `ResultsUpTo`, `CountCorrect`, `Percentage` and `Scored`. `CalculateResults` is the scoring loop, proved equal to `Scored`. The lemmas say what correctness means for each question type, and what the score, the entries and the pass flag are.
- `loading.dfy` (`Loading`): `TestFrom` (the outcome of one file), `Loaded` (the specification of the fold), and `LoadAllTests` (the loop, proved equal to `Loaded`). It also proves which names get loaded and that the last definition of a name wins.
- `sample_quiz.dfy` (`SampleQuiz`): the sample definition the application writes on its first run. The module proves that this definition is accepted, and scores one worked attempt at it.

How the source is represented:

- A rejected definition yields `Err` with the first broken rule. Fields are checked in their declaration order. A failure inside a question is wrapped in `InQuestion(position, …)`.
- The answer map is a `map<int, seq<int>>`. A position that is absent counts as the empty selection.
- The wall clock behind `timestamp` becomes a parameter of `CalculateResults`.
- File reading and JSON decoding become the input sequence of `LoadAllTests`. Each element is `None` when the file could not be read or decoded into a record, or `Some(record)` otherwise.
- The percentage is an exact `real`. The pass flag is `percentage >= passing_score`, as in the source. `PassedIffCrossMultiplied` restates the flag in integers.

Source behaviour the model keeps:

- `text` and `name` may be empty: no length constraint is placed on them (schemas.py:12, 39).
- `correct_answers` is a list, and a `multiple` question may repeat an index, for example `[0, 0]` (schemas.py:15, 21-35).
- `single` scoring checks `user_answer[0] in correct_answers` after `len(user_answer) == 1`, so `[1, 1]` is marked wrong (main.py:90-92).
- With zero questions, `percentage` is 0 and `passed` is `0 >= passing_score` (main.py:109-110). A validated test always has at least one question, so this case cannot occur for one.

## Model

| member | source | states |
|---|---|---|
| Schemas.ParseQuestionType | schemas.py:6-8 | The question type accepts exactly "single" and "multiple". Any other string gives `UnknownQuestionType`. |
| Schemas.FirstOutOfRange | schemas.py:27-30 | The scan finds nothing iff every index is in [0, max_index]. Otherwise it returns an out-of-range index, and every index before it is in range. |
| Schemas.ParseQuestion | schemas.py:11-35 | Accepted iff every question rule holds (fields present, known type, at least 2 options, non-empty in-range answers, exactly one answer for `single`). An accepted question is `ValidQuestion` and keeps every field of the record, `correct_answers` included. |
| Schemas.ParseQuestionsFrom | schemas.py:41 | The list is accepted iff every question is. On success it has one parsed question per record, in order. On failure the error names the first failing position and carries that question's own error. |
| Schemas.ParseTest | schemas.py:38-43 | Accepted iff every test rule holds. An accepted test is `ValidTest` and keeps name, description, questions (each parsed from its record) and time limit. Its passing score is the one given, or 80 if absent. |
| Schemas.TooFewOptionsRejected | schemas.py:14 | Fewer than two options rejects the question. |
| Schemas.NoCorrectAnswersRejected | schemas.py:24-25 | An empty `correct_answers` rejects the question. |
| Schemas.OutOfRangeIndexRejected | schemas.py:27-30 | Any index below 0 or above `len(options)-1` rejects the question. |
| Schemas.FirstBadIndexReported | schemas.py:28-30 | When the earlier fields are well formed, the error names the first out-of-range index the scan meets. |
| Schemas.SingleWithoutOneAnswerRejected | schemas.py:32-33 | A `single` question whose `correct_answers` does not have exactly one element is rejected. |
| Schemas.MultipleNeedsOnlyNonEmptyInRange | schemas.py:21-35 | A `multiple` question with at least two options and a non-empty, in-range answer list is accepted, whatever the order, count or repetition, and it keeps that list. |
| Schemas.NoQuestionsRejected | schemas.py:41 | A test with no questions is rejected. |
| Schemas.PassingScoreOutOfRangeRejected | schemas.py:43 | A given passing score outside [0, 100] rejects the test. |
| Schemas.BadQuestionRejectsTest | schemas.py:41 | One rejected question rejects the whole test. |
| Schemas.QuestionRoundTrip | schemas.py:11-35 | A valid question written back as a record parses to itself. |
| Schemas.TestRoundTrip | schemas.py:38-43 | A valid test written back as a record parses to itself. |
| Schemas.ParsedTestDeterminesRecord | schemas.py:38-43 | An accepted record equals the written-out form of its test, except that the default passing score is filled in. |
| Scoring.CalculateResults | main.py:80-120 | The scoring loop returns exactly `Scored(test, answers, timestamp)`. |
| Scoring.SingleCorrectIff | main.py:90-92 | A `single` question is right iff the selection is exactly one index and that index is among the correct answers. |
| Scoring.ValidSingleCorrectIff | main.py:90-92 | For a validated `single` question, the selection is right iff it equals the correct-answer list. |
| Scoring.MultipleCorrectIff | main.py:93-95 | A `multiple` question is right iff every selected index is correct and every correct index is selected. A subset and a superset are both wrong. |
| Scoring.MultipleIgnoresOrderAndRepetition | main.py:94 | Two selections with the same elements score the same on a `multiple` question. |
| Scoring.EmptyAnswerIsWrong | main.py:87-95 | An empty selection never earns a validated question. |
| Scoring.ResultsUpToLength | main.py:100-107 | One entry is appended per question processed. |
| Scoring.ResultsUpToAt | main.py:86-107 | Entry k is built from question k and the selection stored at position k. |
| Scoring.CountCorrectBounded | main.py:97-98 | The count of correct questions never exceeds the number processed. |
| Scoring.CountCorrectIsCountMarked | main.py:97-107 | The running score equals the number of appended entries marked correct. |
| Scoring.ScoredShape | main.py:82-107 | `max_score` is the number of questions and 0 ≤ score ≤ max_score. There is one entry per question, in question order. Entry i copies text, type, correct answers and explanation from question i and the selection from the map, or `[]` if position i is absent. Its flag is `IsCorrect` of that selection. |
| Scoring.ScoreCountsMarkedAnswers | main.py:97-107 | The score is the number of entries marked `is_correct`. |
| Scoring.PassedIffCrossMultiplied | main.py:109-110 | With questions, passed iff score·100 ≥ passing_score·max_score. With none, the percentage is 0 and passed iff passing_score ≤ 0. |
| Scoring.PercentageAtLeast | main.py:109-110 | The exact percentage reaches a threshold iff score·100 ≥ threshold·max_score. |
| Scoring.PercentageBounds | main.py:109 | The percentage lies in [0, 100], and with questions it is 100 iff every question is right. |
| Scoring.UnansweredIsWrong | main.py:87 | In a validated test, a position missing from the map gets the empty selection and is marked wrong. |
| Scoring.ParsedTestHasQuestions | schemas.py:41 | A test accepted by the validator always has max_score ≥ 1, so the zero guard is only defensive. |
| Loading.TestFrom | main.py:23-31 | A file yields a test iff it was decoded and its record obeys every test rule. The test it yields is valid. |
| Loading.LoadAllTests | main.py:70-77 | The loading loop returns exactly `Loaded(files)`. |
| Loading.LoadedTestsValid | main.py:72-73 | Every loaded test is valid and is stored under its own name. |
| Loading.LoadedStep | main.py:70-75 | Taking one more file adds or replaces that file's test by name, and leaves every other name as it was. |
| Loading.LoadedNames | main.py:70-75 | A name is loaded iff some file yields a test of that name. Failed files contribute nothing. |
| Loading.LastDefinitionWins | main.py:73 | The test kept under a name comes from a file that yields that name, and no later file yields it. |
| SampleQuiz.SampleDefinitionAccepted | main.py:41-61 | The sample definition is accepted, with two questions and passing score 70. |
| SampleQuiz.PartialSelectionScoresHalf | main.py:86-110 | On the sample test, a right first answer and a subset of the second question's correct options give score 1 of 2, 50%, not passed. |

## Left out

- Streamlit rendering, navigation, session state, `show_results` and the body of `main`: this is user-interface code with no invariants of its own.
- File-system work: creating the quiz folder, writing the sample file, the `glob` scan, `open` and `json.load`. The loader takes each file's decoded record (or its absence) as input, in the order the scan visits the files.
- The `st.error` / `st.warning` messages for files that fail to load: failed files are skipped and no message is modelled.
- Pydantic's type coercion (strings to ints, bools as ints): the raw records already carry the expected primitive types, and a missing required field is an absent `Option`.
- Pydantic's error aggregation, and the rule that the `correct_answers` checks run only when `options` validated: both only affect which errors are listed. The model reports the first broken rule, and a definition is rejected exactly when some rule fails.
- Scoring.CalculateResults: `percentage` is an exact real, not an IEEE double. Python's `(score / max_score) * 100` can round below the exact value, for example 29/100·100 gives 28.999…. So the source can refuse a pass that the exact comparison in `PassedIffCrossMultiplied` grants.
- The timestamp text from `datetime.now()`: the caller passes it in as an opaque string.
- The `random.shuffle` of display order: it is random and belongs to the user interface. Scoring always uses original positions.
- `time_limit`: it is carried through parsing unchanged and is never validated or used.
- The order of the loaded names: Python's dictionary keeps insertion order, and a replaced name keeps its first position (main.py:73). `Loaded` is an unordered `map`. Only the user interface's listing of tests depends on that order.
- The conversion of `TestResult.answers` to a list of dictionaries: entries are a record type here.
