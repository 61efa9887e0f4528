/**
  `GradingService.grade_assignment` in the domain revision: the same guard
  and rubric validation as the application revision, then one call to the
  text-generation service (whose client raises on failure), extraction of a
  fenced JSON payload from the reply, and decoding of that payload. A reply
  that does not decode is returned whole as the raw response.
 */
module DomainGrading {
  import opened Base
  import opened Json
  import opened Text
  import opened Rubric
  import opened Grading

  const Fence := "```"
  const JsonFence := Fence + "json"

  /**
    The JSON text taken from a reply: the text after the first "```json"
    (or, failing that, the first "```") up to the next "```", stripped of
    surrounding white space; a reply without a fence is taken whole.
   */
  function ExtractPayload(reply: string): string {
    if Contains(reply, JsonFence) then Strip(Split(Split(reply, JsonFence)[1], Fence)[0])
    else if Contains(reply, Fence) then Strip(Split(Split(reply, Fence)[1], Fence)[0])
    else reply
  }

  /** "```json" begins with "```", so a reply holding the first holds the second. */
  lemma JsonFenceIsFence(s: string)
    requires Contains(s, JsonFence)
    ensures Contains(s, Fence)
  {
    ContainsIff(s, JsonFence);
    var j :| OccursAt(s, JsonFence, j);
    assert forall m :: 0 <= m < |Fence| ==> s[j + m] == JsonFence[m] == Fence[m];
    assert OccursAt(s, Fence, j);
    ContainsIff(s, Fence);
  }

  /** A "```json" in a text is also a "```" there. */
  lemma JsonFenceAt(s: string, j: nat)
    requires OccursAt(s, JsonFence, j)
    ensures OccursAt(s, Fence, j)
    ensures s[j + 1] == '`' && s[j + 2] == '`'
  {
    assert forall m :: 0 <= m < |Fence| ==> s[j + m] == JsonFence[m] == Fence[m];
    assert s[j + 1] == JsonFence[1] && s[j + 2] == JsonFence[2];
  }

  /** A body in which no "```" starts is its own first `split("```")` piece. */
  lemma BodyAlone(body: string)
    requires NoneStartsIn(body, Fence)
    ensures Split(body, Fence)[0] == body
  {
    assert Fence[..|Fence| - 1] == "``";
    NotContainsSlice(body + "``", 0, |body|, Fence);
    assert (body + "``")[0..|body|] == body;
    SplitFirst(body, Fence);
  }

  /** Right after a closing fence, no two backticks follow when the text after it does not begin with one. */
  lemma TicksAfterFence(body: string, post: string, j: nat)
    requires post == "" || post[0] != '`'
    requires j + 3 <= |body + Fence + post|
    ensures var rest := body + Fence + post;
            |body| < j < |body| + |Fence| ==> !(rest[j + 1] == '`' && rest[j + 2] == '`')
  {
    if |body| < j < |body| + |Fence| {
      assert (body + Fence + post)[|body| + 3] == post[0];
    }
  }

  /**
    In a body, a closing fence and text not beginning with a backtick, a
    "```json" can start only at the closing fence or after it.
   */
  lemma JsonFenceNotInside(body: string, post: string)
    requires NoneStartsIn(body, Fence)
    requires post == "" || post[0] != '`'
    ensures var f := Find(body + Fence + post, JsonFence);
            f.None? || f.value == |body| || f.value >= |body| + |Fence|
  {
    var rest := body + Fence + post;
    FirstOccurrence(body, Fence, post);
    if Find(rest, JsonFence).Some? {
      var j := Find(rest, JsonFence).value;
      JsonFenceAt(rest, j);
      TicksAfterFence(body, post, j);
    }
  }

  /** A piece that runs from the body past its closing fence splits back to the body. */
  lemma BodyBeforeFence(body: string, tail: string)
    requires NoneStartsIn(body, Fence)
    ensures Split(body + Fence + tail, Fence)[0] == body
  {
    FirstOccurrence(body, Fence, tail);
    SplitFirst(body + Fence + tail, Fence);
    assert (body + Fence + tail)[..|body|] == body;
  }

  /**
    After the opening fence: the block body, then the closing fence. With
    "```json" as the opening, the text after the closing fence must not
    begin with a backtick, else a later "```json" could start inside that
    fence and cut it short.
   */
  lemma BodyBeforeClosingFence(body: string, post: string, open: string)
    requires NoneStartsIn(body, Fence)
    requires open == Fence || (open == JsonFence && (post == "" || post[0] != '`'))
    ensures Split(Split(body + Fence + post, open)[0], Fence)[0] == body
  {
    var rest := body + Fence + post;
    SplitFirst(rest, open);
    if open == Fence {
      FirstOccurrence(body, Fence, post);
      assert rest[..|body|] == body;
      BodyAlone(body);
    } else {
      BodyBeforeJsonFence(body, post);
    }
  }

  /** The "```json" case: the piece before the next "```json" still starts with the body and its fence. */
  lemma BodyBeforeJsonFence(body: string, post: string)
    requires NoneStartsIn(body, Fence)
    requires post == "" || post[0] != '`'
    ensures Split(Split(body + Fence + post, JsonFence)[0], Fence)[0] == body
  {
    var rest := body + Fence + post;
    SplitFirst(rest, JsonFence);
    JsonFenceNotInside(body, post);
    var f := Find(rest, JsonFence);
    if f.None? {
      BodyBeforeFence(body, post);
    } else if f.value == |body| {
      assert rest[..|body|] == body;
      BodyAlone(body);
    } else {
      BodyBeforeLaterFence(body, post, f.value);
    }
  }

  /** Cut anywhere past the closing fence, the text still splits back to the body. */
  lemma BodyBeforeLaterFence(body: string, post: string, j: nat)
    requires NoneStartsIn(body, Fence)
    requires |body| + |Fence| <= j <= |body + Fence + post|
    ensures Split((body + Fence + post)[..j], Fence)[0] == body
  {
    var tail := post[..j - |body| - |Fence|];
    assert (body + Fence + post)[..j] == body + Fence + tail;
    BodyBeforeFence(body, tail);
  }


  /**
    A reply laid out as a "```json" block yields the block's body, stripped,
    when no "```json" starts before the block, no "```" starts inside the
    body, and the text after the block does not begin with a backtick.
   */
  lemma JsonBlockRoundTrip(pre: string, body: string, post: string)
    requires NoneStartsIn(pre, JsonFence) && NoneStartsIn(body, Fence)
    requires post == "" || post[0] != '`'
    ensures ExtractPayload(pre + JsonFence + body + Fence + post) == Strip(body)
  {
    var rest := body + Fence + post;
    var reply := pre + JsonFence + rest;
    assert reply == pre + JsonFence + body + Fence + post;
    FirstOccurrence(pre, JsonFence, rest);
    SplitSecond(reply, JsonFence);
    assert reply[|pre| + |JsonFence|..] == rest;
    BodyBeforeClosingFence(body, post, JsonFence);
  }

  /**
    The same for a bare "```" block, when the reply nowhere reads "```json"
    (the body could begin with "json"); here the text after the block may
    be anything.
   */
  lemma PlainBlockRoundTrip(pre: string, body: string, post: string)
    requires NoneStartsIn(pre, Fence) && NoneStartsIn(body, Fence)
    requires !Contains(pre + Fence + body + Fence + post, JsonFence)
    ensures ExtractPayload(pre + Fence + body + Fence + post) == Strip(body)
  {
    var rest := body + Fence + post;
    var reply := pre + Fence + rest;
    assert reply == pre + Fence + body + Fence + post;
    FirstOccurrence(pre, Fence, rest);
    SplitSecond(reply, Fence);
    assert reply[|pre| + |Fence|..] == rest;
    BodyBeforeClosingFence(body, post, Fence);
  }

  /** A reply holding no fence is decoded as it is, not stripped. */
  lemma NoFenceUnchanged(reply: string)
    requires !Contains(reply, Fence)
    ensures ExtractPayload(reply) == reply
  {
    if Contains(reply, JsonFence) {
      JsonFenceIsFence(reply);
    }
  }

  /** Whatever the reply, the extracted payload contains no fence. */
  lemma PayloadHasNoFence(reply: string)
    ensures !Contains(ExtractPayload(reply), Fence)
  {
    if Contains(reply, JsonFence) {
      var inner := Split(reply, JsonFence)[1];
      TrimKeepsAbsence(Split(inner, Fence)[0], Whitespace, Fence);
    } else if Contains(reply, Fence) {
      var inner := Split(reply, Fence)[1];
      TrimKeepsAbsence(Split(inner, Fence)[0], Whitespace, Fence);
    }
  }

  /** Extracting again changes nothing: a payload is its own payload. */
  lemma ExtractIdempotent(reply: string)
    ensures ExtractPayload(ExtractPayload(reply)) == ExtractPayload(reply)
  {
    var p := ExtractPayload(reply);
    PayloadHasNoFence(reply);
    if Contains(p, JsonFence) {
      JsonFenceIsFence(p);
    }
  }

  /** What the call returns as `grading_result`: the decoded payload, or the raw reply. */
  datatype Outcome = Parsed(result: Value) | RawResponse(rawResponse: string)

  /** The returned dict `{success, grading_result}`. */
  datatype Graded = Graded(success: bool, gradingResult: Outcome)

  /** A model of `json.loads`: the decoded value, or None where it raises `JSONDecodeError`. */
  type Decoder = string -> Option<Value>

  function GradeAssignment(student: string, reference: string, rubric: Value, llm: Service, decode: Decoder)
    : Result<Graded, GradingError>
  {
    if MissingAny(student, reference, rubric) then Err(MissingInput)
    else match ValidateRubric(rubric)
      case Fail(e) => Err(InvalidRubric(e))
      case Pass =>
        match llm(Prompt(reference, student, rubric))
        case Raised(m) => Err(Failed(FailedPrefix + m))
        case Text(reply) =>
          match decode(ExtractPayload(reply))
          case Some(v) => Ok(Graded(true, Parsed(v)))
          case None => Ok(Graded(true, RawResponse(reply)))
  }

  /**
    Once the inputs pass, grading fails only when the service raises, and
    then with the prefixed message. Otherwise success is reported whether or
    not the payload decodes, whatever the reply says (a reply mentioning
    "Error" included): the result is the decoded payload when it decodes,
    and the whole reply, fences and surrounding text included, when it does
    not.
   */
  lemma DomainGradeOutcome(student: string, reference: string, rubric: Value, llm: Service, decode: Decoder)
    requires !MissingAny(student, reference, rubric) && ValidateRubric(rubric) == Pass
    ensures var r := GradeAssignment(student, reference, rubric, llm, decode);
            var reply := llm(Prompt(reference, student, rubric));
            && (reply.Raised? <==> r.Err?)
            && (reply.Raised? ==> r.error == Failed(FailedPrefix + reply.message))
            && (reply.Text? ==> r.value.success)
            && (reply.Text? && decode(ExtractPayload(reply.text)).Some? ==>
                  r.value.gradingResult == Parsed(decode(ExtractPayload(reply.text)).value))
            && (reply.Text? && decode(ExtractPayload(reply.text)).None? ==>
                  r.value.gradingResult == RawResponse(reply.text))
  {
  }

  /** The guard and the rubric check come first, as in the application revision. */
  lemma DomainGuardsFirst(student: string, reference: string, rubric: Value, llm: Service, decode: Decoder)
    ensures MissingAny(student, reference, rubric) ==>
              GradeAssignment(student, reference, rubric, llm, decode) == Err(MissingInput)
    ensures !MissingAny(student, reference, rubric) && ValidateRubric(rubric).Fail? ==>
              GradeAssignment(student, reference, rubric, llm, decode) == Err(InvalidRubric(ValidateRubric(rubric).error))
  {
  }
}
