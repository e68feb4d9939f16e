/**
 * RiddleJudge.Evaluate: checks the riddle before any call, sends the judge
 * prompt and a block with the question, the criteria and the player's answer,
 * then runs the structured-reply pipeline.  The backend's reply and the JSON
 * decoder are inputs.
 */
module RiddleJudge {
  import opened Wrappers
  import opened Text
  import opened ChatTypes
  import opened ChatMessageSanitizer
  import opened JsonEnvelopeExtractor
  import opened RiddleTypes
  import opened StructuredReply

  const JudgeSystemPrompt: string :=
    "\nYou" + " are a strict puzzle judge. You do NOT roleplay.\n"
    + "\nOutput a JSON object wrapped in either:\n"
    + "1) <JSON> ... </JSON>\n"
    + "or\n"
    + "2) ```json ... ```\n"
    + "\nSchema:\n"
    + "{\n"
    + "  \"solved\": boolean,\n"
    + "  \"confidence\": number,\n"
    + "  \"reason\": string\n"
    + "}\n"
    + "\nRules:\n"
    + "- solved=true only if the PLAYER'S LAST ANSWER satisfies the riddle acceptance criteria.\n"
    + "- Be strict. If unsure, solved=false.\n"
  const NullRiddle: string := "Judge called but CurrentRiddle is null (no riddle has been generated yet)."
  const IncompleteRiddle: string := "Judge called with incomplete riddle (question/acceptanceCriteria missing)."
  const NoEnvelope: string := "Judge returned no JSON envelope."
  const ParseFailed: string := "Judge JSON parse failed."

  /** The user message: the riddle's question and criteria, then the answer. */
  function UserBlock(question: string, criteria: string, answer: string): string
  {
    "RIDDLE:\n" + "Question: " + question + "\n" + "Acceptance criteria: " + criteria + "\n\n" + "PLAYER_LAST_ANSWER:\n" + answer
  }

  /** The checks before the call: the error that ends Evaluate without a call, if any. */
  function RiddleProblem(riddle: Option<RiddleDefinition>): Option<string>
  {
    match riddle
    case None => Some(NullRiddle)
    case Some(rd) =>
      if IsBlank(rd.question) || IsBlank(rd.acceptanceCriteria) then Some(IncompleteRiddle) else None
  }

  /** The message list Evaluate sends, or the error that ends it without a call. */
  function JudgeRequest(riddle: Option<RiddleDefinition>, answer: string): (r: Result<seq<ChatMessage>>)
    ensures r.Success? <==> riddle.Some? && !IsBlank(riddle.value.question) && !IsBlank(riddle.value.acceptanceCriteria)
    ensures r.Failure? ==> r.error == NullRiddle || r.error == IncompleteRiddle
    ensures r.Success? ==> |r.value| == 2 && r.value[0].role == "system" && r.value[1].role == "user"
  {
    match RiddleProblem(riddle)
    case Some(e) => Failure(e)
    case None =>
      var rd := riddle.value;
      Success([ChatMessage("system", JudgeSystemPrompt), ChatMessage("user", UserBlock(rd.question, rd.acceptanceCriteria, answer))])
  }

  /** What the call's reply turns into. */
  function JudgeOutcome(reply: ChatOutcome, decode: string -> Option<JudgeResponse>): Result<JudgeResponse>
  {
    DecodeReply(reply, decode, NoEnvelope, ParseFailed)
  }

  /** Evaluate, with the backend's reply to the request (ignored when none is sent). */
  function Evaluate(riddle: Option<RiddleDefinition>, answer: string, reply: ChatOutcome, decode: string -> Option<JudgeResponse>): (r: Result<JudgeResponse>)
    ensures riddle.None? ==> r == Failure(NullRiddle)
    ensures r.Success? ==> JudgeRequest(riddle, answer).Success? && CapturedError(reply) == [] && TryExtract(CapturedText(reply)).Some?
    ensures r.Failure? ==>
              r.error == NullRiddle || r.error == IncompleteRiddle || r.error == CapturedError(reply) || r.error == NoEnvelope || r.error == ParseFailed
  {
    match RiddleProblem(riddle)
    case Some(e) => Failure(e)
    case None => JudgeOutcome(reply, decode)
  }

  /** No riddle, or one with a blank question or criteria, fails before any call. */
  lemma PreconditionsChecked(riddle: Option<RiddleDefinition>, answer: string, reply: ChatOutcome, decode: string -> Option<JudgeResponse>)
    ensures riddle.None? ==> JudgeRequest(riddle, answer) == Failure(NullRiddle) && Evaluate(riddle, answer, reply, decode) == Failure(NullRiddle)
    ensures riddle.Some? && (IsBlank(riddle.value.question) || IsBlank(riddle.value.acceptanceCriteria)) ==>
              JudgeRequest(riddle, answer) == Failure(IncompleteRiddle) && Evaluate(riddle, answer, reply, decode) == Failure(IncompleteRiddle)
    ensures JudgeRequest(riddle, answer).Success? <==>
              riddle.Some? && !IsBlank(riddle.value.question) && !IsBlank(riddle.value.acceptanceCriteria)
  {
  }

  lemma PromptNotBlank()
    ensures !IsBlank(JudgeSystemPrompt)
  {
    assert JudgeSystemPrompt[1] == 'Y';
  }

  /** The block starts with the question and ends with the answer. */
  lemma UserBlockShape(question: string, criteria: string, answer: string)
    ensures var b := UserBlock(question, criteria, answer);
      && |b| >= 18 + |question| + |answer| && b[0] == 'R'
      && b[..18 + |question|] == "RIDDLE:\nQuestion: " + question
      && b[|b| - |answer|..] == answer
  {
    var b := UserBlock(question, criteria, answer);
    var head := "RIDDLE:\n" + "Question: " + question;
    var mid := "\n" + "Acceptance criteria: " + criteria + "\n\n" + "PLAYER_LAST_ANSWER:\n";
    assert b == head + mid + answer;
    assert b == head + (mid + answer);
  }

  /** A complete riddle is sent as the judge prompt and the riddle block, and
      both survive sanitizing, so the backend sends exactly these two messages. */
  lemma RequestSent(rd: RiddleDefinition, answer: string)
    requires !IsBlank(rd.question) && !IsBlank(rd.acceptanceCriteria)
    ensures JudgeRequest(Some(rd), answer).Success?
    ensures var m := JudgeRequest(Some(rd), answer).value;
      && m == [ChatMessage("system", JudgeSystemPrompt), ChatMessage("user", UserBlock(rd.question, rd.acceptanceCriteria, answer))]
      && Sanitized(m) == m
  {
    var m := JudgeRequest(Some(rd), answer).value;
    PromptNotBlank();
    UserBlockShape(rd.question, rd.acceptanceCriteria, answer);
    SanitizeClean(m);
  }

  /** The request does not depend on the riddle's id or hint: the hint is never sent. */
  lemma HintNeverSent(rd: RiddleDefinition, id: string, hint: string, answer: string)
    ensures JudgeRequest(Some(rd), answer) == JudgeRequest(Some(RiddleDefinition(id, rd.question, rd.acceptanceCriteria, hint)), answer)
  {
  }

  /** After the checks: a backend error verbatim, then the two decoding errors,
      and success only with the decoded object, passed on unchanged. */
  lemma EvaluateOutcome(rd: RiddleDefinition, answer: string, reply: ChatOutcome, decode: string -> Option<JudgeResponse>)
    requires !IsBlank(rd.question) && !IsBlank(rd.acceptanceCriteria)
    ensures reply.Failure? && reply.error != [] ==> Evaluate(Some(rd), answer, reply, decode) == Failure(reply.error)
    ensures reply.Success? && TryExtract(reply.value).None? ==> Evaluate(Some(rd), answer, reply, decode) == Failure(NoEnvelope)
    ensures reply.Success? && TryExtract(reply.value).Some? && decode(TryExtract(reply.value).value).None? ==>
              Evaluate(Some(rd), answer, reply, decode) == Failure(ParseFailed)
    ensures Evaluate(Some(rd), answer, reply, decode).Success? <==>
              reply.Success? && TryExtract(reply.value).Some? && decode(TryExtract(reply.value).value).Some?
    ensures Evaluate(Some(rd), answer, reply, decode).Success? ==>
              Evaluate(Some(rd), answer, reply, decode).value == decode(TryExtract(reply.value).value).value
  {
    DecodeReplySpec(reply, decode, NoEnvelope, ParseFailed);
  }

  /** A reply that wraps a decodable JSON object in the tag pair yields that object. */
  lemma EvaluateTaggedReply(rd: RiddleDefinition, answer: string, j: string, q: string, decode: string -> Option<JudgeResponse>)
    requires !IsBlank(rd.question) && !IsBlank(rd.acceptanceCriteria)
    requires IsBracketed(j) && forall k :: !OccursAt(j, CloseTag, k)
    requires decode(j).Some?
    ensures Evaluate(Some(rd), answer, Success(OpenTag + j + CloseTag + q), decode) == Success(decode(j).value)
  {
    TaggedReplyDecodes(j, q, decode, NoEnvelope, ParseFailed);
  }

  /** Every failure carries a non-empty message, so a caller testing the error
      for null or empty never takes a failure for a verdict. */
  lemma EvaluateErrorNonEmpty(riddle: Option<RiddleDefinition>, answer: string, reply: ChatOutcome, decode: string -> Option<JudgeResponse>)
    ensures Evaluate(riddle, answer, reply, decode).Failure? ==> Evaluate(riddle, answer, reply, decode).error != []
  {
    DecodeReplySpec(reply, decode, NoEnvelope, ParseFailed);
  }
}
