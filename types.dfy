/** The domain records of the application (types.ts). */
module Types {
  import opened Wrappers

  /** The four question kinds an exam may hold (types.ts:24). */
  datatype QuestionType = MultipleChoice | FillInTheBlank | TrueFalse | ShortAnswer

  /** An answer is either text or a boolean (`string | boolean`). */
  datatype Answer = TextAnswer(text: string) | BoolAnswer(flag: bool)

  /** One exam question; `options` is optional in the record (types.ts:22-27). */
  datatype Question = Question(
    question: string,
    kind: QuestionType,
    options: Option<seq<string>>,
    answer: Answer)

  /** A generated exam (types.ts:29-32). */
  datatype Exam = Exam(title: string, questions: seq<Question>)

  /** One feedback entry of a correction (types.ts:39-44). */
  datatype Feedback = Feedback(
    questionIndex: int,
    isCorrect: bool,
    correctAnswer: Answer,
    explanation: string)

  /** The grading of one submission (types.ts:36-45). */
  datatype CorrectionResult = CorrectionResult(
    score: int,
    total: int,
    feedback: seq<Feedback>)

  /** Who wrote a chat message. */
  datatype Sender = User | Bot

  /** One entry of the chat transcript (types.ts:47-50). */
  datatype ChatMessage = ChatMessage(sender: Sender, text: string)
}
