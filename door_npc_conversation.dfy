/**
 * The door NPC's dialogue session: the exchange history and the busy flag.
 * A turn is split where the source's coroutine waits for the backend:
 * BeginTurn runs up to the ChatOnce call and returns the request it makes,
 * CompleteTurn runs from the backend's reply to the end.  The per-character
 * pacing delay is not modelled; the deltas are returned in order.
 */
module DoorNpcConversation {
  import opened Wrappers
  import opened Text
  import opened ChatTypes
  import opened ContentPolicy
  import opened RiddleTypes

  const Greeting: string := "A rune-lit door hums softly. \"State your purpose, traveler. Why should I open?\""
  const BusyError: string := "Busy."

  /** BaseSystemPrompt with its surrounding whitespace trimmed. */
  const BasePrompt: string :=
    "You"
    + " are 'The "
    + "Enchanted "
    + "Door', an "
    + "NPC in a fantasy "
    + "puzzle game.\n"
    + "\n"
    + "Safety / Tone "
    + "(PG-13):\n"
    + "- Keep content "
    + "suitable for "
    + "ages 13+. "
    + "No explicit "
    + "sex, no hate/slurs, "
    + "no self-harm, "
    + "no graphic "
    + "violence, "
    + "no instructions "
    + "for wrongdoing.\n"
    + "- If the player "
    + "requests disallowed "
    + "content, refuse "
    + "briefly IN "
    + "CHARACTER "
    + "and redirect "
    + "back to the "
    + "riddle.\n"
    + "- Keep refusals "
    + "short and "
    + "game-like.\n"
    + "\n"
    + "Roleplay:\n"
    + "- Stay in "
    + "character "
    + "as a magical "
    + "door guarding "
    + "a passage.\n"
    + "- Be witty, "
    + "smug, playful "
    + "\U{2014} not cruel.\n"
    + "- Keep responses "
    + "concise (1\U{2013}6 "
    + "short paragraphs).\n"
    + "- Ask a question "
    + "to keep the "
    + "conversation "
    + "moving.\n"
    + "\n"
    + "Riddle handling:\n"
    + "- NEVER invent "
    + "a new riddle. "
    + "Only react "
    + "to the provided "
    + "riddle.\n"
    + "- NEVER reveal "
    + "the answer "
    + "directly unless "
    + "the judge "
    + "has already "
    + "declared the "
    + "player solved "
    + "it.\n"
    + "- Give hints "
    + "that guide "
    + "thinking, "
    + "not the solution.\n"
    + "- Avoid overused "
    + "fantasy trope "
    + "answers in "
    + "your wording "
    + "unless the "
    + "riddle truly "
    + "is that:\n"
    + "  key, echo, "
    + "shadow, time, "
    + "footsteps, "
    + "air, map, "
    + "silence, darkness."

  const AttemptRules: string :=
    "\n"
    + "Rules about "
    + "attempts:\n"
    + "- You MUST "
    + "NOT output "
    + "the numeric "
    + "attempts count "
    + "(no '3 attempts "
    + "left', no "
    + "'1/10', no "
    + "digits).\n"
    + "- You MAY "
    + "express urgency "
    + "or tease without "
    + "numbers.\n"
    + "- When attempts "
    + "remaining "
    + "== 3: include "
    + "ONE short "
    + "teasing line "
    + "(playful pressure) "
    + "without numbers.\n"
    + "- When attempts "
    + "remaining "
    + "== 1: include "
    + "ONE dramatic "
    + "line indicating "
    + "it is the "
    + "final chance, "
    + "without numbers.\n"
    + "- Otherwise: "
    + "mention attempts "
    + "only occasionally, "
    + "also without "
    + "numbers.\n"
    + "\n"
    + "Teasing examples "
    + "(choose one "
    + "style, do "
    + "not copy verbatim "
    + "every time):\n"
    + "- at 3 remaining: "
    + "'Careful now\U{2026} "
    + "the hinges "
    + "are getting "
    + "impatient.' "
    + "/ 'Still confident? "
    + "Interesting.'\n"
    + "- at 1 remaining: "
    + "'This is your "
    + "last chance, "
    + "traveler.' "
    + "/ 'One final "
    + "breath\U{2014}make "
    + "it count.'\n"

  const RiddleRules: string :=
    "\n"
    + "Rules:\n"
    + "- Do NOT reveal "
    + "the answer.\n"
    + "- If the player "
    + "is close, "
    + "encourage "
    + "them.\n"
    + "- If the player "
    + "is far off, "
    + "redirect gently.\n"

  /**
   * The fixed texts the system prompt is assembled from, in the order they
   * appear; the greeting, the attempt count and the riddle's question and hint
   * go between them.  A conversation object's `texts` field is DoorTexts.
   */
  datatype PromptTexts = PromptTexts(
    base: string, sceneLabel: string, greeting: string, stateLabel: string, attemptRules: string,
    riddleLabel: string, hintLabel: string, riddleRules: string)

  const DoorTexts: PromptTexts := PromptTexts(
    BasePrompt,
    "\n\nScene:\n" + "You already greeted the player with: ",
    Greeting,
    "\n\nGame state (private):\n" + "Attempts remaining (number, do NOT say it): ",
    AttemptRules,
    "\n\nCurrent riddle:\n" + "Question: ",
    "\n" + "Hint you may give if asked: ",
    RiddleRules)

  /** The prompt up to the riddle section: the base, the greeting already
      given, and the attempt count the model must not repeat. */
  function StatePrompt(t: PromptTexts, remainingAttempts: int): string
  {
    t.base + t.sceneLabel + t.greeting + t.stateLabel + IntToString(remainingAttempts) + t.attemptRules
  }

  /** The riddle section: the question and the hint. */
  function RiddleSection(t: PromptTexts, question: string, hint: string): string
  {
    t.riddleLabel + question + t.hintLabel + hint + t.riddleRules
  }

  /** The riddle section is added only for a riddle with a non-blank question. */
  function SystemPrompt(t: PromptTexts, riddle: Option<RiddleDefinition>, remainingAttempts: int): string
  {
    StatePrompt(t, remainingAttempts)
    + (if HasQuestion(riddle) then RiddleSection(t, riddle.value.question, riddle.value.hint) else "")
  }

  /** BuildMessages: the system prompt followed by the whole history.
      The request is one system message and then the history, unchanged. */
  function BuildMessages(t: PromptTexts, riddle: Option<RiddleDefinition>, remainingAttempts: int, history: seq<ChatMessage>): (r: seq<ChatMessage>)
    ensures |r| == |history| + 1
    ensures r[0].role == "system"
    ensures r[1..] == history
  {
    [ChatMessage("system", SystemPrompt(t, riddle, remainingAttempts))] + history
  }

  /** Where the pieces of a seven-part concatenation sit. */
  lemma SevenParts(a: string, b: string, c: string, d: string, e: string, f: string, g: string)
    ensures var s := a + b + c + d + e + f + g;
      var k := |a| + |b| + |c|;
      && OccursAt(s, a, 0) && OccursAt(s, d, k) && OccursAt(s, e, k + |d|)
  {
    var s := a + b + c + d + e + f + g;
    var k := |a| + |b| + |c|;
    assert s == a + (b + c + d + e + f + g);
    assert s == (a + b + c) + (d + (e + (f + g)));
    assert s[k..k + |d|] == d;
    assert s[k + |d|..k + |d| + |e|] == e;
  }

  /** The prompt starts with the base prompt and states the remaining attempts
      right after their label. */
  lemma PromptStatesAttempts(t: PromptTexts, riddle: Option<RiddleDefinition>, remainingAttempts: int)
    ensures var p := SystemPrompt(t, riddle, remainingAttempts);
      var k := |t.base| + |t.sceneLabel| + |t.greeting|;
      && OccursAt(p, t.base, 0)
      && OccursAt(p, t.stateLabel, k)
      && OccursAt(p, IntToString(remainingAttempts), k + |t.stateLabel|)
  {
    var section := if HasQuestion(riddle) then RiddleSection(t, riddle.value.question, riddle.value.hint) else "";
    SevenParts(t.base, t.sceneLabel, t.greeting, t.stateLabel, IntToString(remainingAttempts), t.attemptRules, section);
  }

  /** A riddle that is not shown leaves the prompt as if there were none; a
      shown one appends its section, with its question, to that prompt. */
  lemma SystemPromptRiddle(t: PromptTexts, riddle: Option<RiddleDefinition>, remainingAttempts: int)
    ensures !HasQuestion(riddle) ==> SystemPrompt(t, riddle, remainingAttempts) == SystemPrompt(t, None, remainingAttempts)
    ensures HasQuestion(riddle) ==>
              SystemPrompt(t, riddle, remainingAttempts) ==
              SystemPrompt(t, None, remainingAttempts) + RiddleSection(t, riddle.value.question, riddle.value.hint)
    ensures HasQuestion(riddle) ==>
              OccursAt(RiddleSection(t, riddle.value.question, riddle.value.hint), riddle.value.question, |t.riddleLabel|)
    ensures HasQuestion(riddle) <==> |SystemPrompt(t, riddle, remainingAttempts)| > |SystemPrompt(t, None, remainingAttempts)|
  {
    var state := StatePrompt(t, remainingAttempts);
    assert SystemPrompt(t, None, remainingAttempts) == state + "";
    assert state + "" == state;
    if HasQuestion(riddle) {
      var rd := riddle.value;
      SevenParts(t.riddleLabel, "", "", rd.question, t.hintLabel, rd.hint, t.riddleRules);
      assert t.riddleLabel + "" + "" == t.riddleLabel;
    }
  }

  /** A history entry as the session adds it: the player's text once the input
      gate allowed it, or a reply once the output gate allowed it. */
  predicate IsGatedExchange(p: Patterns, m: ChatMessage)
  {
    (m.role == "user" && IsUserInputAllowed(p, m.content).allowed) ||
    (m.role == "assistant" && IsModelOutputAllowed(p, m.content).allowed)
  }

  /** The onDelta calls for a reply: each character as a one-character string. */
  function CharDeltas(s: string): seq<string>
  {
    if s == [] then [] else [[s[0]]] + CharDeltas(s[1..])
  }

  function Concat(ds: seq<string>): string
  {
    if ds == [] then [] else ds[0] + Concat(ds[1..])
  }

  /** One delta per character, in order. */
  lemma {:induction false} CharDeltasAt(s: string)
    ensures |CharDeltas(s)| == |s|
    ensures forall k :: 0 <= k < |s| ==> CharDeltas(s)[k] == [s[k]]
  {
    if s != [] {
      CharDeltasAt(s[1..]);
      forall k | 1 <= k < |s| ensures CharDeltas(s)[k] == [s[k]] {
        assert CharDeltas(s)[k] == CharDeltas(s[1..])[k - 1];
      }
    }
  }

  /** A listener that appends every delta ends up with the whole reply. */
  lemma {:induction false} CharDeltasJoin(s: string)
    ensures Concat(CharDeltas(s)) == s
  {
    if s != [] {
      CharDeltasJoin(s[1..]);
      assert ([[s[0]]] + CharDeltas(s[1..]))[1..] == CharDeltas(s[1..]);
      assert s == [s[0]] + s[1..];
    }
  }

  /** What the second half of a turn reports for the backend's reply: the
      backend's error, else the output gate's refusal, else the reply text
      (null read as ""). */
  function TurnOutcome(p: Patterns, reply: ChatOutcome): ChatOutcome
  {
    var err := CapturedError(reply);
    if err != [] then Failure(err)
    else
      var full := CapturedText(reply);
      var v := IsModelOutputAllowed(p, full);
      if !v.allowed then Failure(v.reason.value) else Success(full)
  }

  /** A backend error is passed on as it is; a reply the output gate refuses
      fails with the gate's reason; any other reply is delivered whole. */
  lemma TurnOutcomeSpec(p: Patterns, reply: ChatOutcome)
    ensures reply.Failure? && reply.error != [] ==> TurnOutcome(p, reply) == Failure(reply.error)
    ensures reply.Success? && !IsModelOutputAllowed(p, reply.value).allowed ==>
              TurnOutcome(p, reply) == Failure(IsModelOutputAllowed(p, reply.value).reason.value)
    ensures TurnOutcome(p, reply).Success? <==>
              CapturedError(reply) == [] && IsModelOutputAllowed(p, CapturedText(reply)).allowed
    ensures TurnOutcome(p, reply).Success? ==>
              TurnOutcome(p, reply).value == CapturedText(reply) && IsGatedExchange(p, ChatMessage("assistant", CapturedText(reply)))
    ensures TurnOutcome(p, reply).Failure? ==> TurnOutcome(p, reply).error != []
  {
  }

  /** A blank reply is not refused: it is delivered (and recorded) as it is. */
  lemma BlankReplyDelivered(p: Patterns, text: string)
    requires IsBlank(text)
    ensures TurnOutcome(p, Success(text)) == Success(text)
  {
  }

  /**
   * The door NPC's dialogue session: the history of allowed exchanges and the
   * busy flag.  The backend is not a field here: its reply is the input of
   * CompleteTurn.
   */
  class DoorNpcConversation {
    const policy: Patterns
    /** The fixed prompt texts: Greeting, BaseSystemPrompt and the rules. */
    const texts: PromptTexts := DoorTexts
    /** The player messages and replies so far (_exchanges). */
    var exchanges: seq<ChatMessage>
    var isBusy: bool

    /** Every entry passed its gate, and a turn in flight ends with its player message. */
    ghost predicate Valid()
      reads this
    {
      && (forall i :: 0 <= i < |exchanges| ==> IsGatedExchange(policy, exchanges[i]))
      && (isBusy ==> exchanges != [] && exchanges[|exchanges| - 1].role == "user")
    }

    constructor(policy: Patterns)
      ensures this.policy == policy
      ensures exchanges == [] && !isBusy && Valid()
    {
      this.policy := policy;
      exchanges := [];
      isBusy := false;
    }

    /**
     * SendPlayerMessageFakeStream up to the backend call: refuses while a turn
     * is in flight or when the input gate refuses the text; otherwise records
     * the player's message, becomes busy and returns the request.
     */
    method BeginTurn(riddle: Option<RiddleDefinition>, remainingAttempts: int, playerText: string)
        returns (request: Result<seq<ChatMessage>>)
      requires Valid()
      modifies this
      ensures Valid()
      ensures old(isBusy) ==> request == Failure(BusyError) && isBusy && exchanges == old(exchanges)
      ensures !old(isBusy) && !IsUserInputAllowed(policy, playerText).allowed ==>
                request == Failure(IsUserInputAllowed(policy, playerText).reason.value) && !isBusy && exchanges == old(exchanges)
      ensures !old(isBusy) && IsUserInputAllowed(policy, playerText).allowed ==>
                && isBusy && exchanges == old(exchanges) + [ChatMessage("user", playerText)]
                && request == Success(BuildMessages(texts, riddle, remainingAttempts, exchanges))
    {
      if isBusy {
        return Failure(BusyError);
      }
      var verdict := IsUserInputAllowed(policy, playerText);
      if !verdict.allowed {
        return Failure(verdict.reason.value);
      }
      isBusy := true;
      exchanges := exchanges + [ChatMessage("user", playerText)];
      request := Success(BuildMessages(texts, riddle, remainingAttempts, exchanges));
    }

    /**
     * SendPlayerMessageFakeStream from the backend's reply on: no longer busy
     * on any path; an error or a refused reply leaves the history as it is (the
     * player's message stays), an allowed reply is streamed character by
     * character and recorded.
     */
    method CompleteTurn(reply: ChatOutcome) returns (deltas: seq<string>, outcome: ChatOutcome)
      requires Valid() && isBusy
      modifies this
      ensures Valid() && !isBusy
      ensures outcome == TurnOutcome(policy, reply)
      ensures outcome.Failure? ==> deltas == [] && exchanges == old(exchanges)
      ensures outcome.Success? ==>
                deltas == CharDeltas(outcome.value) && exchanges == old(exchanges) + [ChatMessage("assistant", outcome.value)]
    {
      var err := CapturedError(reply);
      if err != [] {
        isBusy := false;
        return [], Failure(err);
      }
      var full := CapturedText(reply);
      var verdict := IsModelOutputAllowed(policy, full);
      if !verdict.allowed {
        isBusy := false;
        return [], Failure(verdict.reason.value);
      }
      deltas := [];
      for i := 0 to |full|
        invariant |deltas| == i
        invariant forall k :: 0 <= k < i ==> deltas[k] == [full[k]]
      {
        deltas := deltas + [[full[i]]];
      }
      CharDeltasAt(full);
      exchanges := exchanges + [ChatMessage("assistant", full)];
      isBusy := false;
      outcome := Success(full);
    }

    /** ClearHistory: forgets every exchange; the busy flag is not touched. */
    method ClearHistory()
      requires Valid()
      modifies this
      ensures exchanges == [] && isBusy == old(isBusy)
      ensures !isBusy ==> Valid()
    {
      exchanges := [];
    }
  }
}
