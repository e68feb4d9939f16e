/**
 * The riddle game's controller: the phase of a run, the riddle posed, the
 * attempts left, the win/loss decision and the reset for a new run.  Each
 * coroutine runs up to the point where it waits for a backend reply; the
 * reply is the input of the method that resumes it, and `suspended` records
 * which coroutine is waiting.  EndRun is split the same way: the run ends at
 * once, and FinishEndScreen resets it after the end screen.
 */
module RiddleGameController {
  import opened Wrappers
  import opened Text
  import opened ChatTypes
  import opened ContentPolicy
  import opened RiddleTypes
  import RiddleGenerator
  import RiddleJudge
  import opened DoorNpcConversation

  datatype GamePhase = Boot | PresentRiddle | AwaitPlayerAnswer | DoorResponding | Judging

  /** Which coroutine waits for a backend reply: BootFlow for the generator,
      HandleTurn for the door or the judge (with the player's answer). */
  datatype Suspension = Idle | AwaitRiddle | AwaitDoor(answer: string) | AwaitJudge(answer: string)

  /** What BeginConversation and BootFlow end with (the status they show);
      Generating carries the message list sent to the generator. */
  datatype BootResult = Ignored | Generating(request: seq<ChatMessage>) | BootFailed(error: string) | NoRiddleDefined | RiddlePosed(question: string)

  /** What SubmitPlayerMessage ends with. */
  datatype SubmitResult =
    | Finished | NotStarted | Wait | Blocked(reason: string) | NoRiddle
    | DoorCalled(request: seq<ChatMessage>) | DoorRefused(error: string)

  /** What the door's part of HandleTurn ends with. */
  datatype DoorResult = DoorFailed(error: string) | DoorSpoke(deltas: seq<string>)

  /** What the judge's part of HandleTurn ends with. */
  datatype JudgeResult =
    | JudgeFailed(error: string) | Won(accuracy: int) | Lost(accuracy: int)
    | TryAgain(accuracy: int, remaining: int) | Refine(accuracy: int)

  /** Mathf.Max(1, maxAttempts): the attempts a run starts with. */
  function AttemptLimit(maxAttempts: int): (r: int)
    ensures r >= 1 && r >= maxAttempts && (r == 1 || r == maxAttempts)
  {
    if maxAttempts < 1 then 1 else maxAttempts
  }

  function Clamp(x: int, lo: int, hi: int): (r: int)
    requires lo <= hi
    ensures lo <= r <= hi
    ensures lo <= x <= hi ==> r == x
  {
    if x < lo then lo else if x > hi then hi else x
  }

  function Clamp01(x: real): (r: real)
    ensures 0.0 <= r <= 1.0
    ensures 0.0 <= x <= 1.0 ==> r == x
  {
    if x < 0.0 then 0.0 else if x > 1.0 then 1.0 else x
  }

  /** Mathf.RoundToInt: the nearest integer, ties to the even one. */
  function RoundHalfEven(x: real): (r: int)
    ensures r as real - 0.5 <= x <= r as real + 0.5
    ensures x == r as real - 0.5 || x == r as real + 0.5 ==> r % 2 == 0
  {
    var f := x.Floor;
    var d := x - f as real;
    if d < 0.5 then f
    else if d > 0.5 then f + 1
    else if f % 2 == 0 then f
    else f + 1
  }

  /** An integer nearer than one half to x is its rounding. */
  lemma RoundHalfEvenNearest(x: real, n: int)
    requires n as real - 0.5 < x < n as real + 0.5
    ensures RoundHalfEven(x) == n
  {
  }

  /** Rounding commutes with reflection about an even integer. */
  lemma RoundHalfEvenMirror(x: real, m: int)
    requires m % 2 == 0
    ensures RoundHalfEven(m as real - x) == m - RoundHalfEven(x)
  {
    var r := RoundHalfEven(x);
    var y := m as real - x;
    var s := m - r;
    assert s as real - 0.5 <= y <= s as real + 0.5;
    if s as real - 0.5 < y < s as real + 0.5 {
      RoundHalfEvenNearest(y, s);
    } else {
      assert r % 2 == 0;
      assert s % 2 == 0;
      var t := RoundHalfEven(y);
      assert t == s || t == s - 1 || t == s + 1;
      assert t % 2 == 0;
    }
  }

  /** The confidence the judge's decision is taken with: its own when in
      (0, 1], else 0.75. */
  function DecisionConfidence(confidence: real): (c: real)
    ensures 0.0 < c <= 1.0
    ensures 0.0 < confidence <= 1.0 ==> c == confidence
    ensures !(0.0 < confidence <= 1.0) ==> c == 0.75
  {
    Clamp01(if 0.0 < confidence && confidence <= 1.0 then confidence else 0.75)
  }

  /** accuracyPct for a verdict: the probability that the answer is right, as
      a rounded percentage. */
  function Accuracy(j: JudgeResponse): (acc: int)
    ensures 0 <= acc <= 100
  {
    var c := DecisionConfidence(j.confidence);
    var p := if j.solved then c else 1.0 - c;
    Clamp(RoundHalfEven(p * 100.0), 0, 100)
  }

  /** A solved verdict scores its confidence, an unsolved one the rest; an
      out-of-range confidence counts as 0.75. */
  lemma AccuracyValues(j: JudgeResponse)
    ensures 0.0 < j.confidence <= 1.0 && j.solved ==> Accuracy(j) == RoundHalfEven(j.confidence * 100.0)
    ensures 0.0 < j.confidence <= 1.0 && !j.solved ==> Accuracy(j) == RoundHalfEven((1.0 - j.confidence) * 100.0)
    ensures !(0.0 < j.confidence <= 1.0) ==> Accuracy(j) == (if j.solved then 75 else 25)
  {
    var c := DecisionConfidence(j.confidence);
    if !(0.0 < j.confidence <= 1.0) {
      if j.solved {
        RoundHalfEvenNearest(c * 100.0, 75);
      } else {
        RoundHalfEvenNearest((1.0 - c) * 100.0, 25);
      }
    }
  }

  /** The same confidence scores the solved and the unsolved verdict to 100 together. */
  lemma AccuracyComplement(confidence: real, r1: string, r2: string)
    ensures Accuracy(JudgeResponse(true, confidence, r1)) + Accuracy(JudgeResponse(false, confidence, r2)) == 100
  {
    var c := DecisionConfidence(confidence);
    RoundHalfEvenMirror(c * 100.0, 100);
    assert (1.0 - c) * 100.0 == 100 as real - c * 100.0;
  }

  /** An unsolved verdict given with very low confidence scores 100 and so wins
      at the default threshold. */
  lemma UnsolvedCanWin(reason: string)
    ensures Accuracy(JudgeResponse(false, 0.001, reason)) == 100
  {
    RoundHalfEvenNearest((1.0 - 0.001) * 100.0, 100);
  }

  class RiddleGameController {
    const maxAttempts: int
    const winAccuracyThreshold: int
    const generateRiddleOnStart: bool
    const manualRiddle: Option<RiddleDefinition>
    const riddleThemeExtra: string
    const policy: Patterns
    const door: DoorNpcConversation

    var phase: GamePhase
    var currentRiddle: Option<RiddleDefinition>
    var remainingAttempts: int
    var isEnded: bool
    var conversationStarted: bool
    var suspended: Suspension

    /**
     * The attempts stay within their bounds and at least one is left until the
     * run ends; the door is busy exactly while HandleTurn waits for it; a
     * waiting coroutine belongs to a started run that has not ended.
     */
    ghost predicate Valid()
      reads this, door
    {
      && door.Valid() && door.policy == policy
      && 0 <= remainingAttempts <= AttemptLimit(maxAttempts)
      && (!isEnded ==> remainingAttempts >= 1)
      && (door.isBusy <==> suspended.AwaitDoor?)
      && (suspended.AwaitRiddle? ==> phase == Boot && currentRiddle.None?)
      && (suspended.AwaitDoor? ==> phase == DoorResponding && currentRiddle.Some?)
      && (suspended.AwaitJudge? ==> phase == Judging && currentRiddle.Some?)
      && (!suspended.Idle? ==> conversationStarted && !isEnded)
      && (!conversationStarted ==> currentRiddle.None?)
    }

    /** Busy: the run has ended, or a turn is between the door and the judge;
        the three stable phases of a running round are not busy. */
    predicate IsBusy()
      reads this
      ensures !isEnded && (phase == Boot || phase == PresentRiddle || phase == AwaitPlayerAnswer) ==> !IsBusy()
      ensures IsBusy() <==> isEnded || !(phase == Boot || phase == PresentRiddle || phase == AwaitPlayerAnswer)
    {
      isEnded || phase == DoorResponding || phase == Judging
    }

    /** Awake: a new door session sharing the policy, and a full set of attempts. */
    constructor(maxAttempts: int, winAccuracyThreshold: int, generateRiddleOnStart: bool,
                manualRiddle: Option<RiddleDefinition>, riddleThemeExtra: string, policy: Patterns)
      ensures this.maxAttempts == maxAttempts && this.winAccuracyThreshold == winAccuracyThreshold
      ensures this.generateRiddleOnStart == generateRiddleOnStart && this.manualRiddle == manualRiddle
      ensures this.riddleThemeExtra == riddleThemeExtra && this.policy == policy
      ensures fresh(door) && door.exchanges == []
      ensures phase == Boot && currentRiddle.None? && remainingAttempts == AttemptLimit(maxAttempts)
      ensures !isEnded && !conversationStarted && suspended.Idle?
      ensures Valid()
    {
      this.maxAttempts := maxAttempts;
      this.winAccuracyThreshold := winAccuracyThreshold;
      this.generateRiddleOnStart := generateRiddleOnStart;
      this.manualRiddle := manualRiddle;
      this.riddleThemeExtra := riddleThemeExtra;
      this.policy := policy;
      door := new DoorNpcConversation(policy);
      phase := Boot;
      currentRiddle := None;
      remainingAttempts := AttemptLimit(maxAttempts);
      isEnded := false;
      conversationStarted := false;
      suspended := Idle;
    }

    /**
     * BeginConversation: ignored once ended or started; otherwise starts
     * BootFlow, which waits for the generator or takes the manual riddle.
     */
    method BeginConversation() returns (r: BootResult)
      requires Valid()
      modifies this
      ensures Valid()
      ensures remainingAttempts == old(remainingAttempts) && isEnded == old(isEnded)
      ensures old(isEnded) || old(conversationStarted) ==> r == Ignored && unchanged(this)
      ensures !old(isEnded) && !old(conversationStarted) ==> conversationStarted
      ensures !old(isEnded) && !old(conversationStarted) && generateRiddleOnStart ==>
                r == Generating(RiddleGenerator.Messages(riddleThemeExtra)) && phase == Boot && suspended == AwaitRiddle && currentRiddle == old(currentRiddle)
      ensures !old(isEnded) && !old(conversationStarted) && !generateRiddleOnStart ==>
                && currentRiddle == manualRiddle && suspended == Idle
                && (HasQuestion(manualRiddle) ==> phase == AwaitPlayerAnswer && r == RiddlePosed(manualRiddle.value.question))
                && (!HasQuestion(manualRiddle) ==> phase == Boot && r == NoRiddleDefined)
    {
      if isEnded || conversationStarted {
        return Ignored;
      }
      conversationStarted := true;
      phase := Boot;
      if generateRiddleOnStart {
        suspended := AwaitRiddle;
        return Generating(RiddleGenerator.Messages(riddleThemeExtra));
      }
      currentRiddle := manualRiddle;
      r := PoseRiddle();
    }

    /** The end of BootFlow: a riddle with a question is posed and awaits an
        answer; anything else leaves the run at Boot. */
    method PoseRiddle() returns (r: BootResult)
      requires Valid() && suspended.Idle? && phase == Boot && conversationStarted && !isEnded
      modifies this
      ensures Valid() && suspended.Idle?
      ensures currentRiddle == old(currentRiddle) && remainingAttempts == old(remainingAttempts)
      ensures !isEnded && conversationStarted
      ensures HasQuestion(currentRiddle) ==> phase == AwaitPlayerAnswer && r == RiddlePosed(currentRiddle.value.question)
      ensures !HasQuestion(currentRiddle) ==> phase == Boot && r == NoRiddleDefined
    {
      if currentRiddle.None? || IsBlank(currentRiddle.value.question) {
        return NoRiddleDefined;
      }
      phase := PresentRiddle;
      phase := AwaitPlayerAnswer;
      r := RiddlePosed(currentRiddle.value.question);
    }

    /**
     * BootFlow after the generator's reply to RiddleGenerator.Messages(riddleThemeExtra):
     * an error leaves the run at Boot with no riddle; a generated riddle is
     * kept, and posed only when its question is not blank.
     */
    method RiddleGenerated(reply: ChatOutcome, decode: string -> Option<RiddleGeneratorResponse>, freshId: string)
        returns (r: BootResult)
      requires Valid() && suspended.AwaitRiddle?
      modifies this
      ensures Valid() && suspended.Idle?
      ensures remainingAttempts == old(remainingAttempts) && !isEnded && conversationStarted
      ensures var g := RiddleGenerator.Generate(reply, decode, freshId);
        && (g.Failure? ==> r == BootFailed(g.error) && phase == Boot && currentRiddle.None?)
        && (g.Success? ==> currentRiddle == Some(g.value))
        && (g.Success? && HasQuestion(currentRiddle) ==> phase == AwaitPlayerAnswer && r == RiddlePosed(g.value.question))
        && (g.Success? && !HasQuestion(currentRiddle) ==> phase == Boot && r == NoRiddleDefined)
    {
      var g := RiddleGenerator.Generate(reply, decode, freshId);
      RiddleGenerator.GenerateErrors(reply, decode, freshId);
      suspended := Idle;
      var err := CapturedError(g);
      if err != [] {
        return BootFailed(err);
      }
      currentRiddle := if g.Success? then Some(g.value) else None;
      r := PoseRiddle();
    }

    /**
     * SubmitPlayerMessage and HandleTurn up to the door's backend call: the
     * four refusals change nothing; with no riddle nothing happens; otherwise
     * the door is asked with the attempts left at the turn's start.
     */
    method SubmitPlayerMessage(playerText: string) returns (r: SubmitResult)
      requires Valid()
      modifies this, door
      ensures Valid()
      ensures remainingAttempts == old(remainingAttempts) && isEnded == old(isEnded)
      ensures conversationStarted == old(conversationStarted) && currentRiddle == old(currentRiddle)
      ensures old(isEnded) ==> r == Finished
      ensures !old(isEnded) && !old(conversationStarted) ==> r == NotStarted
      ensures !old(isEnded) && old(conversationStarted) && old(IsBusy()) ==> r == Wait
      ensures old(conversationStarted) && !old(IsBusy()) && !IsUserInputAllowed(policy, playerText).allowed ==>
                r == Blocked(IsUserInputAllowed(policy, playerText).reason.value)
      ensures old(conversationStarted) && !old(IsBusy()) && IsUserInputAllowed(policy, playerText).allowed && old(currentRiddle).None? ==>
                r == NoRiddle
      ensures !r.DoorCalled? ==> unchanged(this, door)
      ensures old(conversationStarted) && !old(IsBusy()) && IsUserInputAllowed(policy, playerText).allowed && old(currentRiddle).Some? ==>
                && phase == DoorResponding && suspended == AwaitDoor(playerText)
                && door.exchanges == old(door.exchanges) + [ChatMessage("user", playerText)]
                && r == DoorCalled(BuildMessages(door.texts, currentRiddle, remainingAttempts, door.exchanges))
      ensures !r.DoorRefused?
    {
      if isEnded {
        return Finished;
      }
      if !conversationStarted {
        return NotStarted;
      }
      if IsBusy() {
        return Wait;
      }
      var verdict := IsUserInputAllowed(policy, playerText);
      if !verdict.allowed {
        return Blocked(verdict.reason.value);
      }
      if currentRiddle.None? {
        return NoRiddle;
      }
      phase := DoorResponding;
      var request := door.BeginTurn(currentRiddle, remainingAttempts, playerText);
      match request
      case Failure(e) =>
        r := DoorRefused(e);
      case Success(m) =>
        suspended := AwaitDoor(playerText);
        r := DoorCalled(m);
    }

    /**
     * HandleTurn after the door's backend reply: a door error leaves the phase
     * at DoorResponding; a delivered reply moves on to Judging, where the turn
     * waits for the judge.
     */
    method DoorReplied(reply: ChatOutcome) returns (r: DoorResult)
      requires Valid() && suspended.AwaitDoor?
      modifies this, door
      ensures Valid()
      ensures remainingAttempts == old(remainingAttempts) && isEnded == old(isEnded)
      ensures conversationStarted == old(conversationStarted) && currentRiddle == old(currentRiddle)
      ensures TurnOutcome(policy, reply).Failure? ==>
                && r == DoorFailed(TurnOutcome(policy, reply).error)
                && phase == DoorResponding && suspended.Idle? && door.exchanges == old(door.exchanges)
      ensures TurnOutcome(policy, reply).Success? ==>
                && r == DoorSpoke(CharDeltas(TurnOutcome(policy, reply).value))
                && phase == Judging && suspended == AwaitJudge(old(suspended).answer)
                && door.exchanges == old(door.exchanges) + [ChatMessage("assistant", TurnOutcome(policy, reply).value)]
    {
      var answer := suspended.answer;
      var deltas, o := door.CompleteTurn(reply);
      TurnOutcomeSpec(policy, reply);
      var doorErr := CapturedError(o);
      if doorErr != [] {
        suspended := Idle;
        return DoorFailed(doorErr);
      }
      phase := Judging;
      suspended := AwaitJudge(answer);
      r := DoorSpoke(deltas);
    }

    /**
     * HandleTurn after the judge's reply to RiddleJudge.JudgeRequest: a judge
     * error leaves the phase at Judging; a score at or above the threshold
     * wins; otherwise an unsolved verdict costs one attempt, and the last one
     * loses; a solved one keeps the attempts.
     */
    method JudgeReplied(reply: ChatOutcome, decode: string -> Option<JudgeResponse>) returns (r: JudgeResult)
      requires Valid() && suspended.AwaitJudge?
      modifies this
      ensures Valid() && suspended.Idle?
      ensures conversationStarted == old(conversationStarted) && currentRiddle == old(currentRiddle)
      ensures var j := RiddleJudge.Evaluate(old(currentRiddle), old(suspended).answer, reply, decode);
        j.Failure? ==>
          r == JudgeFailed(j.error) && phase == Judging && !isEnded && remainingAttempts == old(remainingAttempts)
      ensures var j := RiddleJudge.Evaluate(old(currentRiddle), old(suspended).answer, reply, decode);
        j.Success? && Accuracy(j.value) >= winAccuracyThreshold ==>
          r == Won(Accuracy(j.value)) && isEnded && phase == Judging && remainingAttempts == old(remainingAttempts)
      ensures var j := RiddleJudge.Evaluate(old(currentRiddle), old(suspended).answer, reply, decode);
        j.Success? && Accuracy(j.value) < winAccuracyThreshold && !j.value.solved ==>
          && remainingAttempts == old(remainingAttempts) - 1
          && (remainingAttempts == 0 ==> r == Lost(Accuracy(j.value)) && isEnded && phase == Judging)
          && (remainingAttempts > 0 ==>
                r == TryAgain(Accuracy(j.value), remainingAttempts) && !isEnded && phase == AwaitPlayerAnswer)
      ensures var j := RiddleJudge.Evaluate(old(currentRiddle), old(suspended).answer, reply, decode);
        j.Success? && Accuracy(j.value) < winAccuracyThreshold && j.value.solved ==>
          r == Refine(Accuracy(j.value)) && !isEnded && phase == AwaitPlayerAnswer && remainingAttempts == old(remainingAttempts)
    {
      var j := RiddleJudge.Evaluate(currentRiddle, suspended.answer, reply, decode);
      RiddleJudge.EvaluateErrorNonEmpty(currentRiddle, suspended.answer, reply, decode);
      suspended := Idle;
      var judgeErr := CapturedError(j);
      if judgeErr != [] {
        return JudgeFailed(judgeErr);
      }
      var acc := Accuracy(j.value);
      if acc >= winAccuracyThreshold {
        EndRun();
        return Won(acc);
      }
      if !j.value.solved {
        ConsumeAttempt();
        if remainingAttempts <= 0 {
          EndRun();
          return Lost(acc);
        }
        r := TryAgain(acc, remainingAttempts);
      } else {
        r := Refine(acc);
      }
      phase := AwaitPlayerAnswer;
    }

    /** ConsumeAttempt: one attempt fewer, never below zero. */
    method ConsumeAttempt()
      modifies this
      ensures old(remainingAttempts) <= 0 ==> remainingAttempts == old(remainingAttempts)
      ensures old(remainingAttempts) > 0 ==> remainingAttempts == old(remainingAttempts) - 1
      ensures phase == old(phase) && isEnded == old(isEnded) && currentRiddle == old(currentRiddle)
      ensures conversationStarted == old(conversationStarted) && suspended == old(suspended)
    {
      if remainingAttempts <= 0 {
        return;
      }
      remainingAttempts := remainingAttempts - 1;
    }

    /** EndRun up to the end screen: ends the run once; a second call does nothing. */
    method EndRun()
      modifies this
      ensures isEnded
      ensures old(isEnded) ==> unchanged(this)
      ensures phase == old(phase) && remainingAttempts == old(remainingAttempts) && currentRiddle == old(currentRiddle)
      ensures conversationStarted == old(conversationStarted) && suspended == old(suspended)
    {
      if isEnded {
        return;
      }
      isEnded := true;
    }

    /** EndRun after the end screen, that is ResetForNewRun: back to the state
        Awake left, with the door's history cleared. */
    method FinishEndScreen()
      requires Valid() && isEnded
      modifies this, door
      ensures Valid()
      ensures phase == Boot && !isEnded && !conversationStarted && currentRiddle.None?
      ensures remainingAttempts == AttemptLimit(maxAttempts) && suspended.Idle?
      ensures door.exchanges == [] && !door.isBusy
    {
      isEnded := false;
      phase := Boot;
      conversationStarted := false;
      currentRiddle := None;
      remainingAttempts := AttemptLimit(maxAttempts);
      door.ClearHistory();
    }
  }
}
