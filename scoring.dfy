/**
  The scoring engine: turns a test and the taker's answers (keyed by the
  question's original position) into a result with one entry per question,
  the score, the maximum score, the percentage and the pass flag.
 */
module Scoring {
  import opened Wrappers
  import opened Schemas

  /** One entry of the detailed answers, copied from its question. */
  datatype QuestionResult = QuestionResult(
    questionText: string,
    questionType: QuestionType,
    userAnswer: seq<int>,
    correctAnswer: seq<int>,
    isCorrect: bool,
    explanation: Option<string>)

  datatype TestResult = TestResult(
    testName: string,
    score: nat,
    maxScore: nat,
    percentage: real,
    passed: bool,
    answers: seq<QuestionResult>,
    timestamp: string)

  /** The answers selected for question `i`, or none when it was not answered. */
  function AnswerFor(userAnswers: map<int, seq<int>>, i: int): seq<int> {
    if i in userAnswers then userAnswers[i] else []
  }

  /** The set of indices a selection contains, ignoring order and repetition. */
  function Elements(s: seq<int>): set<int> {
    set x | x in s
  }

  /** Whether a selection earns the question's point; there is no partial credit. */
  predicate IsCorrect(q: Question, answer: seq<int>) {
    match q.kind
    case Single => |answer| == 1 && answer[0] in q.correctAnswers
    case Multiple => Elements(answer) == Elements(q.correctAnswers)
  }

  function ResultFor(q: Question, answer: seq<int>): QuestionResult {
    QuestionResult(q.text, q.kind, answer, q.correctAnswers, IsCorrect(q, answer), q.explanation)
  }

  /** The detailed answers for the first `n` questions, in question order. */
  function ResultsUpTo(qs: seq<Question>, userAnswers: map<int, seq<int>>, n: nat): seq<QuestionResult>
    requires n <= |qs|
  {
    if n == 0 then []
    else ResultsUpTo(qs, userAnswers, n - 1) + [ResultFor(qs[n - 1], AnswerFor(userAnswers, n - 1))]
  }

  /** How many of the first `n` questions are answered correctly. */
  function CountCorrect(qs: seq<Question>, userAnswers: map<int, seq<int>>, n: nat): nat
    requires n <= |qs|
  {
    if n == 0 then 0
    else CountCorrect(qs, userAnswers, n - 1) + (if IsCorrect(qs[n - 1], AnswerFor(userAnswers, n - 1)) then 1 else 0)
  }

  /** How many entries of a list of detailed answers are marked correct. */
  function CountMarked(rs: seq<QuestionResult>): nat {
    if rs == [] then 0
    else CountMarked(rs[..|rs| - 1]) + (if rs[|rs| - 1].isCorrect then 1 else 0)
  }

  /** The percentage of correct answers, computed exactly; 0 when there is nothing to score. */
  function Percentage(score: nat, maxScore: nat): real {
    if maxScore > 0 then (score as real / maxScore as real) * 100.0 else 0.0
  }

  /** The result the engine is to produce, as a function of its inputs. */
  function Scored(test: Test, userAnswers: map<int, seq<int>>, timestamp: string): TestResult {
    var n := |test.questions|;
    var score := CountCorrect(test.questions, userAnswers, n);
    var percentage := Percentage(score, n);
    TestResult(test.name, score, n, percentage, percentage >= test.passingScore as real,
               ResultsUpTo(test.questions, userAnswers, n), timestamp)
  }

  /**
    The scoring loop.  `timestamp` stands for the wall-clock time the caller
    reads when scoring.
   */
  method CalculateResults(test: Test, userAnswers: map<int, seq<int>>, timestamp: string)
    returns (result: TestResult)
    ensures result == Scored(test, userAnswers, timestamp)
  {
    var score: nat := 0;
    var maxScore := |test.questions|;
    var detailedAnswers: seq<QuestionResult> := [];
    var i := 0;
    while i < |test.questions|
      invariant 0 <= i <= |test.questions|
      invariant score == CountCorrect(test.questions, userAnswers, i)
      invariant detailedAnswers == ResultsUpTo(test.questions, userAnswers, i)
    {
      var question := test.questions[i];
      var userAnswer := if i in userAnswers then userAnswers[i] else [];
      var isCorrect := false;
      if question.kind == Single {
        if |userAnswer| == 1 {
          isCorrect := userAnswer[0] in question.correctAnswers;
        }
      } else {
        if Elements(userAnswer) == Elements(question.correctAnswers) {
          isCorrect := true;
        }
      }
      if isCorrect {
        score := score + 1;
      }
      detailedAnswers := detailedAnswers + [QuestionResult(question.text, question.kind, userAnswer,
                                                           question.correctAnswers, isCorrect, question.explanation)];
      i := i + 1;
    }
    var percentage := if maxScore > 0 then (score as real / maxScore as real) * 100.0 else 0.0;
    var passed := percentage >= test.passingScore as real;
    result := TestResult(test.name, score, maxScore, percentage, passed, detailedAnswers, timestamp);
  }

  // ---------------------------------------------------------------------
  // What a question's correctness means
  // ---------------------------------------------------------------------

  /** A `single` question is right iff exactly one index is chosen and it is a correct one. */
  lemma SingleCorrectIff(q: Question, answer: seq<int>)
    requires q.kind == Single
    ensures IsCorrect(q, answer) <==> exists c :: c in q.correctAnswers && answer == [c]
  {
    if IsCorrect(q, answer) {
      var c := answer[0];
      assert c in q.correctAnswers && answer == [c];
    }
  }

  /** For a validated `single` question, the one correct selection is the correct-answer list itself. */
  lemma ValidSingleCorrectIff(q: Question, answer: seq<int>)
    requires ValidQuestion(q) && q.kind == Single
    ensures IsCorrect(q, answer) <==> answer == q.correctAnswers
  {}

  /**
    A `multiple` question is right iff every chosen index is correct and
    every correct index is chosen: a proper subset or superset is wrong.
   */
  lemma MultipleCorrectIff(q: Question, answer: seq<int>)
    requires q.kind == Multiple
    ensures IsCorrect(q, answer) <==>
      (forall x :: x in answer ==> x in q.correctAnswers) && (forall c :: c in q.correctAnswers ==> c in answer)
  {
    if (forall x :: x in answer ==> x in q.correctAnswers) && (forall c :: c in q.correctAnswers ==> c in answer) {
      assert Elements(answer) == Elements(q.correctAnswers);
    }
    if IsCorrect(q, answer) {
      forall x | x in answer ensures x in q.correctAnswers { assert x in Elements(answer); }
      forall c | c in q.correctAnswers ensures c in answer { assert c in Elements(q.correctAnswers); }
    }
  }

  /** The order and repetition of the chosen indices do not matter for a `multiple` question. */
  lemma MultipleIgnoresOrderAndRepetition(q: Question, a: seq<int>, b: seq<int>)
    requires q.kind == Multiple
    requires forall x :: x in a <==> x in b
    ensures IsCorrect(q, a) == IsCorrect(q, b)
  {
    forall x ensures x in Elements(a) <==> x in Elements(b) {
      assert x in Elements(a) <==> x in a;
      assert x in Elements(b) <==> x in b;
    }
    assert Elements(a) == Elements(b);
  }

  /** A validated question is never earned by choosing nothing. */
  lemma EmptyAnswerIsWrong(q: Question)
    requires ValidQuestion(q)
    ensures !IsCorrect(q, [])
  {
    if q.kind == Multiple {
      assert q.correctAnswers[0] in Elements(q.correctAnswers);
    }
  }

  // ---------------------------------------------------------------------
  // Properties of the result
  // ---------------------------------------------------------------------

  lemma {:induction false} ResultsUpToAt(qs: seq<Question>, userAnswers: map<int, seq<int>>, n: nat, k: nat)
    requires n <= |qs| && k < n
    ensures |ResultsUpTo(qs, userAnswers, n)| == n
    ensures ResultsUpTo(qs, userAnswers, n)[k] == ResultFor(qs[k], AnswerFor(userAnswers, k))
  {
    ResultsUpToLength(qs, userAnswers, n - 1);
    if k < n - 1 {
      ResultsUpToAt(qs, userAnswers, n - 1, k);
    }
  }

  lemma {:induction false} ResultsUpToLength(qs: seq<Question>, userAnswers: map<int, seq<int>>, n: nat)
    requires n <= |qs|
    ensures |ResultsUpTo(qs, userAnswers, n)| == n
  {
    if n > 0 {
      ResultsUpToLength(qs, userAnswers, n - 1);
    }
  }

  lemma {:induction false} CountCorrectBounded(qs: seq<Question>, userAnswers: map<int, seq<int>>, n: nat)
    requires n <= |qs|
    ensures CountCorrect(qs, userAnswers, n) <= n
  {
    if n > 0 {
      CountCorrectBounded(qs, userAnswers, n - 1);
    }
  }

  lemma {:induction false} CountCorrectIsCountMarked(qs: seq<Question>, userAnswers: map<int, seq<int>>, n: nat)
    requires n <= |qs|
    ensures CountCorrect(qs, userAnswers, n) == CountMarked(ResultsUpTo(qs, userAnswers, n))
  {
    if n > 0 {
      CountCorrectIsCountMarked(qs, userAnswers, n - 1);
      var rs := ResultsUpTo(qs, userAnswers, n);
      assert rs[..|rs| - 1] == ResultsUpTo(qs, userAnswers, n - 1);
    }
  }

  /**
    The shape of a result: one entry per question in question order, each
    copying its question's text, type, correct answers and explanation and
    the selection recorded for its original position (empty if none); the
    maximum score is the number of questions and the score lies between 0
    and it.
   */
  lemma ScoredShape(test: Test, userAnswers: map<int, seq<int>>, timestamp: string)
    ensures var r := Scored(test, userAnswers, timestamp);
      && r.testName == test.name
      && r.maxScore == |test.questions|
      && 0 <= r.score <= r.maxScore
      && |r.answers| == |test.questions|
      && r.timestamp == timestamp
      && forall i :: 0 <= i < |test.questions| ==>
           var q := test.questions[i];
           && r.answers[i].questionText == q.text
           && r.answers[i].questionType == q.kind
           && r.answers[i].correctAnswer == q.correctAnswers
           && r.answers[i].explanation == q.explanation
           && r.answers[i].userAnswer == (if i in userAnswers then userAnswers[i] else [])
           && r.answers[i].isCorrect == IsCorrect(q, r.answers[i].userAnswer)
  {
    var n := |test.questions|;
    CountCorrectBounded(test.questions, userAnswers, n);
    ResultsUpToLength(test.questions, userAnswers, n);
    forall i | 0 <= i < n
      ensures ResultsUpTo(test.questions, userAnswers, n)[i] == ResultFor(test.questions[i], AnswerFor(userAnswers, i))
    {
      ResultsUpToAt(test.questions, userAnswers, n, i);
    }
  }

  /** The score is the number of entries marked correct. */
  lemma ScoreCountsMarkedAnswers(test: Test, userAnswers: map<int, seq<int>>, timestamp: string)
    ensures Scored(test, userAnswers, timestamp).score == CountMarked(Scored(test, userAnswers, timestamp).answers)
  {
    CountCorrectIsCountMarked(test.questions, userAnswers, |test.questions|);
  }

  /**
    The pass flag in integers: with at least one question it holds iff
    score * 100 >= passing score * max score; with none the percentage is 0
    and it holds iff the passing score is at most 0.
   */
  lemma PassedIffCrossMultiplied(test: Test, userAnswers: map<int, seq<int>>, timestamp: string)
    ensures var r := Scored(test, userAnswers, timestamp);
      && (r.maxScore == 0 ==> r.percentage == 0.0 && (r.passed <==> test.passingScore <= 0))
      && (r.maxScore > 0 ==> (r.passed <==> r.score * 100 >= test.passingScore * r.maxScore))
  {}

  lemma PercentageAtLeast(score: nat, maxScore: nat, threshold: int)
    requires maxScore > 0
    ensures Percentage(score, maxScore) >= threshold as real <==> score * 100 >= threshold * maxScore
  {}

  /** The percentage stays within [0, 100], and is 100 exactly when every question is right. */
  lemma PercentageBounds(test: Test, userAnswers: map<int, seq<int>>, timestamp: string)
    ensures var r := Scored(test, userAnswers, timestamp);
      && 0.0 <= r.percentage <= 100.0
      && (r.maxScore > 0 ==> (r.percentage == 100.0 <==> r.score == r.maxScore))
  {
    var r := Scored(test, userAnswers, timestamp);
    CountCorrectBounded(test.questions, userAnswers, |test.questions|);
    if r.maxScore > 0 {
      var m := r.maxScore as real;
      var p := r.percentage;
      assert p * m == r.score as real * 100.0;
      assert r.score as real <= m;
      if r.score == r.maxScore {
        assert p * m == 100.0 * m;
      }
    }
  }

  /** In a validated test, a question missing from the answers is scored as wrong. */
  lemma UnansweredIsWrong(test: Test, userAnswers: map<int, seq<int>>, timestamp: string, i: nat)
    requires ValidTest(test)
    requires i < |test.questions| && i !in userAnswers
    ensures var r := Scored(test, userAnswers, timestamp);
      |r.answers| == |test.questions| && r.answers[i].userAnswer == [] && !r.answers[i].isCorrect
  {
    ScoredShape(test, userAnswers, timestamp);
    EmptyAnswerIsWrong(test.questions[i]);
  }

  /** A test that passed validation always has something to score. */
  lemma ParsedTestHasQuestions(raw: RawTest, userAnswers: map<int, seq<int>>, timestamp: string)
    requires ParseTest(raw).Ok?
    ensures Scored(ParseTest(raw).value, userAnswers, timestamp).maxScore >= 1
  {}
}
