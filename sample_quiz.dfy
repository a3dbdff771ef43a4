/**
  The sample definition the application writes when its quiz folder does
  not exist yet (a `single` and a `multiple` question, passing score 70),
  and a worked attempt at it.
 */
module SampleQuiz {
  import opened Wrappers
  import opened Schemas
  import opened Scoring

  function SampleDefinition(): RawTest {
    RawTest(
      Some("Пример теста"),
      Some("Это пример теста для демонстрации работы приложения"),
      Some([
        RawQuestion(Some("Какой оператор используется для возведения в степень в Python?"), Some("single"),
                    Some(["^", "**", "pow", "^^"]), Some([1]),
                    Some("Оператор ** используется для возведения в степень в Python")),
        RawQuestion(Some("Какие из перечисленных типов являются встроенными в Python?"), Some("multiple"),
                    Some(["list", "array", "dict", "tuple", "vector"]), Some([0, 2, 3]),
                    Some("list, dict и tuple - встроенные типы. array и vector требуют импорта модулей"))
      ]),
      None,
      Some(70))
  }

  /** The sample definition is accepted, keeps its passing score of 70 and has two questions. */
  lemma SampleDefinitionAccepted()
    ensures ParseTest(SampleDefinition()).Ok?
    ensures ParseTest(SampleDefinition()).value.passingScore == 70
    ensures |ParseTest(SampleDefinition()).value.questions| == 2
  {}

  /**
    Answering the first question right and the second with only two of its
    three correct options scores 1 of 2, i.e. 50%, which fails the 70% bar.
   */
  lemma PartialSelectionScoresHalf(timestamp: string)
    ensures ParseTest(SampleDefinition()).Ok?
    ensures var r := Scored(ParseTest(SampleDefinition()).value, map[0 := [1], 1 := [0, 2]], timestamp);
      && r.score == 1 && r.maxScore == 2 && r.percentage == 50.0 && !r.passed
  {
    SampleDefinitionAccepted();
    var t := ParseTest(SampleDefinition()).value;
    var m := map[0 := [1], 1 := [0, 2]];
    assert IsCorrect(t.questions[0], [1]);
    MultipleCorrectIff(t.questions[1], [0, 2]);
    assert 3 in t.questions[1].correctAnswers;
    assert !IsCorrect(t.questions[1], [0, 2]);
    assert CountCorrect(t.questions, m, 2) == 1;
  }
}
