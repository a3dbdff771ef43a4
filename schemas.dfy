/**
  The quiz definition schema: the `Question` and `Test` records, the rules a
  definition must satisfy, and the parser that turns a raw (already decoded)
  record into a validated `Test` or rejects it with the first rule it breaks.
 */
module Schemas {
  import opened Wrappers

  // ---------------------------------------------------------------------
  // Validated data model
  // ---------------------------------------------------------------------

  datatype QuestionType = Single | Multiple

  datatype Question = Question(
    text: string,
    kind: QuestionType,
    options: seq<string>,
    correctAnswers: seq<int>,
    explanation: Option<string>)

  datatype Test = Test(
    name: string,
    description: string,
    questions: seq<Question>,
    timeLimit: Option<int>,
    passingScore: int)

  /** The passing score a definition gets when it does not give one. */
  const DefaultPassingScore: int := 80

  /** Every index in `v` names one of `optionCount` options. */
  predicate AllInRange(v: seq<int>, optionCount: int) {
    forall k :: 0 <= k < |v| ==> 0 <= v[k] < optionCount
  }

  /** The invariants every question of a loaded test satisfies. */
  predicate ValidQuestion(q: Question) {
    && |q.options| >= 2
    && |q.correctAnswers| > 0
    && AllInRange(q.correctAnswers, |q.options|)
    && (q.kind == Single ==> |q.correctAnswers| == 1)
  }

  /** The invariants every loaded test satisfies. */
  predicate ValidTest(t: Test) {
    && |t.questions| >= 1
    && (forall k :: 0 <= k < |t.questions| ==> ValidQuestion(t.questions[k]))
    && 0 <= t.passingScore <= 100
  }

  // ---------------------------------------------------------------------
  // Raw records and errors
  // ---------------------------------------------------------------------

  /** A decoded question record; `None` marks a field the record leaves out. */
  datatype RawQuestion = RawQuestion(
    text: Option<string>,
    kind: Option<string>,
    options: Option<seq<string>>,
    correctAnswers: Option<seq<int>>,
    explanation: Option<string>)

  /** A decoded test record; `None` marks a field the record leaves out. */
  datatype RawTest = RawTest(
    name: Option<string>,
    description: Option<string>,
    questions: Option<seq<RawQuestion>>,
    timeLimit: Option<int>,
    passingScore: Option<int>)

  datatype Error =
    | MissingField(field: string)
    | UnknownQuestionType(given: string)
    | TooFewOptions(count: nat)
    | NoCorrectAnswers
    | IndexOutOfRange(index: int)
    | SingleNeedsOneAnswer(count: nat)
    | NoQuestions
    | PassingScoreOutOfRange(score: int)
    | InQuestion(position: nat, inner: Error)

  // ---------------------------------------------------------------------
  // The rules, stated on raw records
  // ---------------------------------------------------------------------

  predicate KnownQuestionType(s: string) {
    s == "single" || s == "multiple"
  }

  /** The rules a raw question must satisfy to be accepted. */
  predicate QuestionRulesHold(raw: RawQuestion) {
    && raw.text.Some?
    && raw.kind.Some? && KnownQuestionType(raw.kind.value)
    && raw.options.Some? && |raw.options.value| >= 2
    && raw.correctAnswers.Some? && |raw.correctAnswers.value| > 0
    && AllInRange(raw.correctAnswers.value, |raw.options.value|)
    && (raw.kind.value == "single" ==> |raw.correctAnswers.value| == 1)
  }

  /** The rules a raw test must satisfy to be accepted. */
  predicate TestRulesHold(raw: RawTest) {
    && raw.name.Some?
    && raw.description.Some?
    && raw.questions.Some? && |raw.questions.value| >= 1
    && (forall k :: 0 <= k < |raw.questions.value| ==> QuestionRulesHold(raw.questions.value[k]))
    && (raw.passingScore.Some? ==> 0 <= raw.passingScore.value <= 100)
  }

  // ---------------------------------------------------------------------
  // Parsing
  // ---------------------------------------------------------------------

  function KindName(k: QuestionType): string {
    match k
    case Single => "single"
    case Multiple => "multiple"
  }

  /** The enumeration accepts exactly its two value strings. */
  function ParseQuestionType(s: string): (r: Result<QuestionType, Error>)
    ensures r.Ok? <==> KnownQuestionType(s)
    ensures r.Ok? ==> KindName(r.value) == s
    ensures r.Err? ==> r.error == UnknownQuestionType(s)
  {
    if s == "single" then Ok(Single)
    else if s == "multiple" then Ok(Multiple)
    else Err(UnknownQuestionType(s))
  }

  /**
    The scan over the correct-answer indices: the first index that is below
    0 or above `maxIndex`, or `None` when every index is in range.
   */
  function FirstOutOfRange(v: seq<int>, maxIndex: int): (r: Option<int>)
    ensures r.None? <==> forall k :: 0 <= k < |v| ==> 0 <= v[k] <= maxIndex
    ensures r.Some? ==>
      exists k :: 0 <= k < |v| && v[k] == r.value && !(0 <= r.value <= maxIndex)
        && forall j :: 0 <= j < k ==> 0 <= v[j] <= maxIndex
  {
    if v == [] then None
    else if v[0] < 0 || v[0] > maxIndex then Some(v[0])
    else
      assert forall k :: 0 <= k < |v| - 1 ==> v[1..][k] == v[k + 1];
      FirstOutOfRange(v[1..], maxIndex)
  }

  /**
    Builds a question from a raw record, checking the fields in declaration
    order and reporting the first rule broken.  An accepted question keeps
    every field of the record as given.
   */
  function ParseQuestion(raw: RawQuestion): (r: Result<Question, Error>)
    ensures r.Ok? <==> QuestionRulesHold(raw)
    ensures r.Ok? ==> ValidQuestion(r.value)
    ensures r.Ok? ==>
      && r.value.text == raw.text.value
      && KindName(r.value.kind) == raw.kind.value
      && r.value.options == raw.options.value
      && r.value.correctAnswers == raw.correctAnswers.value
      && r.value.explanation == raw.explanation
  {
    if raw.text.None? then Err(MissingField("text"))
    else if raw.kind.None? then Err(MissingField("type"))
    else
      var kind := ParseQuestionType(raw.kind.value);
      if kind.Err? then Err(kind.error)
      else if raw.options.None? then Err(MissingField("options"))
      else if |raw.options.value| < 2 then Err(TooFewOptions(|raw.options.value|))
      else if raw.correctAnswers.None? then Err(MissingField("correct_answers"))
      else
        var v := raw.correctAnswers.value;
        if |v| == 0 then Err(NoCorrectAnswers)
        else
          match FirstOutOfRange(v, |raw.options.value| - 1)
          case Some(idx) => Err(IndexOutOfRange(idx))
          case None =>
            if kind.value == Single && |v| != 1 then Err(SingleNeedsOneAnswer(|v|))
            else Ok(Question(raw.text.value, kind.value, raw.options.value, v, raw.explanation))
  }

  /**
    Parses questions `i..` of a list in order; the error of the first
    question that fails is reported together with its position.
   */
  function ParseQuestionsFrom(raws: seq<RawQuestion>, i: nat): (r: Result<seq<Question>, Error>)
    requires i <= |raws|
    decreases |raws| - i
    ensures r.Ok? <==> forall k :: i <= k < |raws| ==> QuestionRulesHold(raws[k])
    ensures r.Ok? ==>
      && |r.value| == |raws| - i
      && forall k :: 0 <= k < |r.value| ==> ParseQuestion(raws[i + k]) == Ok(r.value[k])
    ensures r.Err? ==>
      && r.error.InQuestion?
      && i <= r.error.position < |raws|
      && ParseQuestion(raws[r.error.position]) == Err(r.error.inner)
      && forall k :: i <= k < r.error.position ==> QuestionRulesHold(raws[k])
  {
    if i == |raws| then Ok([])
    else
      match ParseQuestion(raws[i])
      case Err(e) => Err(InQuestion(i, e))
      case Ok(q) =>
        match ParseQuestionsFrom(raws, i + 1)
        case Err(e) => Err(e)
        case Ok(qs) => Ok([q] + qs)
  }

  /**
    Builds a test from a raw record: fields in declaration order, every
    question validated, at least one question, and a passing score in
    [0, 100] that defaults to 80 when the record leaves it out.
   */
  function ParseTest(raw: RawTest): (r: Result<Test, Error>)
    ensures r.Ok? <==> TestRulesHold(raw)
    ensures r.Ok? ==> ValidTest(r.value)
    ensures r.Ok? ==>
      && r.value.name == raw.name.value
      && r.value.description == raw.description.value
      && |r.value.questions| == |raw.questions.value|
      && (forall k :: 0 <= k < |r.value.questions| ==>
            ParseQuestion(raw.questions.value[k]) == Ok(r.value.questions[k]))
      && r.value.timeLimit == raw.timeLimit
      && r.value.passingScore == (if raw.passingScore.Some? then raw.passingScore.value else DefaultPassingScore)
  {
    if raw.name.None? then Err(MissingField("name"))
    else if raw.description.None? then Err(MissingField("description"))
    else if raw.questions.None? then Err(MissingField("questions"))
    else if |raw.questions.value| == 0 then Err(NoQuestions)
    else
      match ParseQuestionsFrom(raw.questions.value, 0)
      case Err(e) => Err(e)
      case Ok(qs) =>
        var score := if raw.passingScore.Some? then raw.passingScore.value else DefaultPassingScore;
        if score < 0 || score > 100 then Err(PassingScoreOutOfRange(score))
        else Ok(Test(raw.name.value, raw.description.value, qs, raw.timeLimit, score))
  }

  // ---------------------------------------------------------------------
  // Each rule, when broken, rejects
  // ---------------------------------------------------------------------

  lemma TooFewOptionsRejected(raw: RawQuestion)
    requires raw.options.Some? && |raw.options.value| < 2
    ensures ParseQuestion(raw).Err?
  {}

  lemma NoCorrectAnswersRejected(raw: RawQuestion)
    requires raw.correctAnswers.Some? && raw.correctAnswers.value == []
    ensures ParseQuestion(raw).Err?
  {}

  /** Any index below 0 or above the last option rejects the question. */
  lemma OutOfRangeIndexRejected(raw: RawQuestion, k: nat)
    requires raw.options.Some? && raw.correctAnswers.Some?
    requires k < |raw.correctAnswers.value|
    requires raw.correctAnswers.value[k] < 0 || raw.correctAnswers.value[k] > |raw.options.value| - 1
    ensures ParseQuestion(raw).Err?
  {}

  lemma SingleWithoutOneAnswerRejected(raw: RawQuestion)
    requires raw.kind == Some("single")
    requires raw.correctAnswers.Some? && |raw.correctAnswers.value| != 1
    ensures ParseQuestion(raw).Err?
  {}

  /**
    When all earlier fields are well formed, the error names the first
    out-of-range index the scan meets.
   */
  lemma FirstBadIndexReported(raw: RawQuestion, k: nat)
    requires raw.text.Some? && raw.kind.Some? && KnownQuestionType(raw.kind.value)
    requires raw.options.Some? && |raw.options.value| >= 2
    requires raw.correctAnswers.Some? && k < |raw.correctAnswers.value|
    requires forall j :: 0 <= j < k ==> 0 <= raw.correctAnswers.value[j] < |raw.options.value|
    requires !(0 <= raw.correctAnswers.value[k] < |raw.options.value|)
    ensures ParseQuestion(raw) == Err(IndexOutOfRange(raw.correctAnswers.value[k]))
  {}

  /**
    For a `multiple` question nothing beyond "non-empty and in range" is
    asked of the correct answers: any order, any repetition, any count.
   */
  lemma MultipleNeedsOnlyNonEmptyInRange(raw: RawQuestion)
    requires raw.text.Some? && raw.kind == Some("multiple")
    requires raw.options.Some? && |raw.options.value| >= 2
    requires raw.correctAnswers.Some? && |raw.correctAnswers.value| > 0
    requires AllInRange(raw.correctAnswers.value, |raw.options.value|)
    ensures ParseQuestion(raw).Ok?
    ensures ParseQuestion(raw).value.kind == Multiple
    ensures ParseQuestion(raw).value.correctAnswers == raw.correctAnswers.value
  {}

  lemma NoQuestionsRejected(raw: RawTest)
    requires raw.questions == Some([])
    ensures ParseTest(raw).Err?
  {}

  lemma PassingScoreOutOfRangeRejected(raw: RawTest)
    requires raw.passingScore.Some?
    requires raw.passingScore.value < 0 || raw.passingScore.value > 100
    ensures ParseTest(raw).Err?
  {}

  /** A rejected question rejects the whole test. */
  lemma BadQuestionRejectsTest(raw: RawTest, k: nat)
    requires raw.questions.Some? && k < |raw.questions.value|
    requires ParseQuestion(raw.questions.value[k]).Err?
    ensures ParseTest(raw).Err?
  {}

  // ---------------------------------------------------------------------
  // Round trip: a test written back as a record parses to itself
  // ---------------------------------------------------------------------

  function QuestionToRaw(q: Question): RawQuestion {
    RawQuestion(Some(q.text), Some(KindName(q.kind)), Some(q.options), Some(q.correctAnswers), q.explanation)
  }

  function TestToRaw(t: Test): RawTest {
    RawTest(Some(t.name), Some(t.description),
            Some(seq(|t.questions|, k requires 0 <= k < |t.questions| => QuestionToRaw(t.questions[k]))),
            t.timeLimit, Some(t.passingScore))
  }

  lemma QuestionRoundTrip(q: Question)
    requires ValidQuestion(q)
    ensures ParseQuestion(QuestionToRaw(q)) == Ok(q)
  {}

  /** Every valid test survives being written out and parsed again. */
  lemma {:induction false} TestRoundTrip(t: Test)
    requires ValidTest(t)
    ensures ParseTest(TestToRaw(t)) == Ok(t)
  {
    var raw := TestToRaw(t);
    forall k | 0 <= k < |t.questions|
      ensures QuestionRulesHold(raw.questions.value[k])
      ensures ParseQuestion(raw.questions.value[k]) == Ok(t.questions[k])
    {
      QuestionRoundTrip(t.questions[k]);
    }
    var r := ParseTest(raw);
    assert r.Ok?;
    assert r.value.questions == t.questions;
  }

  /**
    Conversely, an accepted record is exactly the written-out form of its
    test, up to the filled-in default passing score.
   */
  lemma {:induction false} ParsedTestDeterminesRecord(raw: RawTest)
    requires ParseTest(raw).Ok?
    ensures TestToRaw(ParseTest(raw).value) == raw.(passingScore := Some(ParseTest(raw).value.passingScore))
  {
    var t := ParseTest(raw).value;
    var qs := raw.questions.value;
    forall k | 0 <= k < |qs|
      ensures QuestionToRaw(t.questions[k]) == qs[k]
    {
      assert ParseQuestion(qs[k]) == Ok(t.questions[k]);
    }
    assert TestToRaw(t).questions.value == qs;
  }
}
