/**
 * The riddle record and the two objects JsonUtility decodes from structured
 * replies.  A null string field is "".
 */
module RiddleTypes {
  import opened Wrappers
  import opened Text

  /** RiddleDefinition: the riddle the door poses. */
  datatype RiddleDefinition = RiddleDefinition(id: string, question: string, acceptanceCriteria: string, hint: string)

  /** The object the generator's reply is decoded into. */
  datatype RiddleGeneratorResponse = RiddleGeneratorResponse(id: string, question: string, acceptanceCriteria: string, hint: string)

  /** The object the judge's reply is decoded into; confidence is a float in the source. */
  datatype JudgeResponse = JudgeResponse(solved: bool, confidence: real, reason: string)

  /** A riddle is there to pose: present, with a non-blank question. */
  predicate HasQuestion(riddle: Option<RiddleDefinition>)
  {
    riddle.Some? && !IsBlank(riddle.value.question)
  }
}
