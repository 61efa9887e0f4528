/**
  What the two revisions of the grading service share: the grading request
  a prompt is rendered from, the text-generation service that answers it,
  the input guard and the exceptions raised. Rendering the prompt text, the
  system prompt and the sampling temperature are fixed by each caller and
  stay outside the model.
 */
module Grading {
  import opened Json
  import opened Rubric

  /** What a grading prompt is rendered from. */
  datatype Prompt = Prompt(reference: string, student: string, rubric: Value)

  /** The outcome of one call: the reply text, or an exception with its message. */
  datatype Reply = Text(text: string) | Raised(message: string)

  /** A model of the text-generation service: the outcome of a call with a given prompt. */
  type Service = Prompt -> Reply

  /** The exceptions `grade_assignment` raises, all of them `GradingServiceError`. */
  datatype GradingError =
    | MissingInput
    | InvalidRubric(rubricError: RubricError)
    | Failed(message: string)

  const MissingInputMessage := "Missing required input: student_answer, reference_answer, and rubric are required"
  const FailedPrefix := "Failed to grade assignment: "

  /** `not student_answer or not reference_answer or not rubric`. */
  predicate MissingAny(student: string, reference: string, rubric: Value) {
    student == "" || reference == "" || !Truthy(rubric)
  }
}
