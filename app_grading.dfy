/**
  `GradingService.grade_assignment` in the application revision: an input
  guard, rubric validation, one call to the text-generation service, and a
  check that rejects any reply mentioning "Error". Exceptions raised inside
  the call are re-raised with the prefix "Failed to grade assignment: ".
 */
module AppGrading {
  import opened Base
  import opened Json
  import opened Text
  import opened Rubric
  import opened Grading

  /** The returned dict `{success, grading_result}`. */
  datatype Graded = Graded(success: bool, gradingResult: string)

  /** A reply containing this word is treated as a service failure. */
  const ErrorMarker := "Error"

  function GradeAssignment(student: string, reference: string, rubric: Value, llm: Service): Result<Graded, GradingError> {
    if MissingAny(student, reference, rubric) then Err(MissingInput)
    else match ValidateRubric(rubric)
      case Fail(e) => Err(InvalidRubric(e))
      case Pass =>
        match llm(Prompt(reference, student, rubric))
        case Raised(m) => Err(Failed(FailedPrefix + m))
        case Text(reply) =>
          if Contains(reply, ErrorMarker) then Err(Failed(FailedPrefix + "LLM error: " + reply))
          else Ok(Graded(true, reply))
  }

  /**
    A missing answer or an empty rubric is reported before the rubric is
    looked at and before the service is called: the outcome is the same
    whatever the service would answer, even for a rubric that would fail
    validation.
   */
  lemma GuardComesFirst(student: string, reference: string, rubric: Value, llm: Service)
    requires MissingAny(student, reference, rubric)
    ensures GradeAssignment(student, reference, rubric, llm) == Err(MissingInput)
  {
  }

  /**
    A rubric error is raised as it is, outside the try block, so it is not
    prefixed, and the service's answer plays no part in it.
   */
  lemma RubricErrorNotRewrapped(student: string, reference: string, rubric: Value, llm: Service)
    requires !MissingAny(student, reference, rubric) && ValidateRubric(rubric).Fail?
    ensures GradeAssignment(student, reference, rubric, llm) == Err(InvalidRubric(ValidateRubric(rubric).error))
  {
  }

  /**
    Grading succeeds exactly when the inputs are present, the rubric is
    valid and the service returns a reply without "Error"; the reply is then
    returned unchanged, with success true.
   */
  lemma GradeSucceedsIff(student: string, reference: string, rubric: Value, llm: Service)
    ensures var r := GradeAssignment(student, reference, rubric, llm);
            var reply := llm(Prompt(reference, student, rubric));
            r.Ok? <==> (!MissingAny(student, reference, rubric) && ValidateRubric(rubric) == Pass
                        && reply.Text? && !Contains(reply.text, ErrorMarker))
    ensures var r := GradeAssignment(student, reference, rubric, llm);
            r.Ok? ==> r.value == Graded(true, llm(Prompt(reference, student, rubric)).text)
  {
  }

  /**
    Once the inputs pass, every failure carries the "Failed to grade
    assignment: " prefix: a raised call with its message, a reply mentioning
    "Error" with "LLM error: " and the reply.
   */
  lemma CallFailuresRewrapped(student: string, reference: string, rubric: Value, llm: Service)
    requires !MissingAny(student, reference, rubric) && ValidateRubric(rubric) == Pass
    ensures var reply := llm(Prompt(reference, student, rubric));
            && (reply.Raised? ==> GradeAssignment(student, reference, rubric, llm) == Err(Failed(FailedPrefix + reply.message)))
            && (reply.Text? && Contains(reply.text, ErrorMarker) ==>
                  GradeAssignment(student, reference, rubric, llm) == Err(Failed(FailedPrefix + "LLM error: " + reply.text)))
  {
  }

  /** The empty-input case of the integration test. */
  lemma EmptyInputsRejected(llm: Service)
    ensures GradeAssignment("", "", Object([]), llm) == Err(MissingInput)
  {
  }

  /** The reply the application's client returns when the service cannot be reached. */
  const UnreachableReply := ErrorMarker + ": LM-Studio API is not accessible. Please ensure LM-Studio is running."

  /**
    The client reports an unreachable service as reply text; that text
    mentions "Error", so grading rejects it with the text in the message.
   */
  lemma UnreachableServiceRejected(student: string, reference: string, rubric: Value, llm: Service)
    requires !MissingAny(student, reference, rubric) && ValidateRubric(rubric) == Pass
    requires llm(Prompt(reference, student, rubric)) == Text(UnreachableReply)
    ensures GradeAssignment(student, reference, rubric, llm) == Err(Failed(FailedPrefix + "LLM error: " + UnreachableReply))
  {
    assert OccursAt(UnreachableReply, ErrorMarker, 0);
    ContainsIff(UnreachableReply, ErrorMarker);
  }
}
