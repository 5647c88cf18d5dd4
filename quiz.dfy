/**
 * The `Quiz` component: the only state is the log of the answers given so
 * far; the index of the question on screen is derived from the log's length.
 */
module Quiz {
  import opened Wrappers

  datatype Question = Question(text: string, answers: seq<string>)

  datatype QuizState = QuizState(userAnswers: seq<string>)

  /** What reading a field of a missing question throws. */
  datatype QuizError = QuestionUndefined(index: nat)

  /** `useState([])`. */
  const InitialQuiz := QuizState([])

  /**
   * `activeQuestionIndex`: as many as the answers already given, so the
   * first question is on screen exactly while no answer has been given.
   */
  function ActiveQuestionIndex(s: QuizState): (i: nat)
    ensures i == |s.userAnswers|
    ensures i == 0 <==> s.userAnswers == []
  {
    |s.userAnswers|
  }

  /** `handleSelectAnswer`: the new answer goes after every earlier one, which keep their order. */
  function HandleSelectAnswer(s: QuizState, selectedAnswer: string): (r: QuizState)
    ensures |r.userAnswers| == |s.userAnswers| + 1
    ensures r.userAnswers[..|s.userAnswers|] == s.userAnswers
    ensures r.userAnswers[|s.userAnswers|] == selectedAnswer
  {
    QuizState(s.userAnswers + [selectedAnswer])
  }

  /**
   * `QUESTIONS[activeQuestionIndex]`, whose `.text` and `.answers` are read
   * with no guard: past the last question the entry is `undefined` and the
   * read throws.
   */
  function ActiveQuestion(questions: seq<Question>, s: QuizState): (r: Result<Question, QuizError>)
    ensures r.Success? <==> ActiveQuestionIndex(s) < |questions|
    ensures r.Success? ==> r.value == questions[|s.userAnswers|]
    ensures r.Failure? ==> r.error == QuestionUndefined(|s.userAnswers|)
  {
    var i := ActiveQuestionIndex(s);
    if i < |questions| then Success(questions[i]) else Failure(QuestionUndefined(i))
  }

  /** The state after selecting `answers` one after another. */
  function SelectAll(s: QuizState, answers: seq<string>): QuizState
    decreases |answers|
  {
    if answers == [] then s else SelectAll(HandleSelectAnswer(s, answers[0]), answers[1..])
  }

  /** Each selection advances the active question by exactly one. */
  lemma SelectionAdvancesIndex(s: QuizState, a: string)
    ensures ActiveQuestionIndex(HandleSelectAnswer(s, a)) == ActiveQuestionIndex(s) + 1
  {
  }

  /** A run of selections appends the answers in order, and the index counts them. */
  lemma {:induction false} SelectAllAppends(s: QuizState, answers: seq<string>)
    ensures SelectAll(s, answers).userAnswers == s.userAnswers + answers
    ensures ActiveQuestionIndex(SelectAll(s, answers)) == ActiveQuestionIndex(s) + |answers|
    decreases |answers|
  {
    if answers != [] {
      SelectAllAppends(HandleSelectAnswer(s, answers[0]), answers[1..]);
      assert s.userAnswers + [answers[0]] + answers[1..] == s.userAnswers + answers;
    }
  }

  /**
   * From the start, the question after `k` answers is question `k` while
   * questions remain, and once every question is answered the next read throws.
   */
  lemma {:induction false} QuizRunsPastLastQuestion(questions: seq<Question>, answers: seq<string>)
    ensures |answers| < |questions| ==>
      ActiveQuestion(questions, SelectAll(InitialQuiz, answers)) == Success(questions[|answers|])
    ensures |answers| >= |questions| ==>
      ActiveQuestion(questions, SelectAll(InitialQuiz, answers)).Failure?
  {
    SelectAllAppends(InitialQuiz, answers);
  }
}
