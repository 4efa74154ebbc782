/** The rows of the store's five tables. Timestamps are whole seconds;
    identifiers are the tables' primary keys. */
module Schema {
  import opened Results

  /** `questions.question_type`: one of the three values the schema allows. */
  datatype QuestionType = MultipleChoice | TrueFalse | TextInput

  datatype User = User(id: int, username: string, email: string, registrationDate: int, isAdmin: bool)

  datatype Category = Category(id: int, name: string, description: string)

  /** A `questions` row; `options` is the decoded JSON list, or None for NULL. */
  datatype QuestionRow = QuestionRow(
    id: int, categoryId: int, questionText: string, questionType: QuestionType,
    correctAnswer: string, options: Option<seq<string>>, difficulty: int,
    explanation: string, isActive: bool)

  datatype TestResult = TestResult(
    id: int, userId: int, categoryId: int, totalQuestions: int,
    correctAnswers: int, testDate: int, timeSpent: int)

  datatype AnswerDetail = AnswerDetail(
    testResultId: int, questionId: int, userAnswer: string, isCorrect: bool, timeSpent: int)

  /** SQLite's `DATE(t)` as a day number. */
  function Day(t: int): int { t / 86400 }
}
