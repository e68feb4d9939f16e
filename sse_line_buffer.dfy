/**
 * Reassembling server-sent-events lines from network chunks: each chunk
 * (already decoded to text) is appended to a buffer, every complete
 * '\n'-terminated line is taken out with its trailing '\r's removed, and the
 * unterminated rest stays buffered for the next chunk.
 */
module SseLineBuffer {
  import opened Wrappers
  import opened Text

  function CountChar(s: string, c: char): nat
  {
    if s == [] then 0 else (if s[0] == c then 1 else 0) + CountChar(s[1..], c)
  }

  lemma {:induction false} CountCharConcat(a: string, b: string, c: char)
    ensures CountChar(a + b, c) == CountChar(a, c) + CountChar(b, c)
  {
    if a == [] {
      assert a + b == b;
    } else {
      assert (a + b)[0] == a[0];
      assert (a + b)[1..] == a[1..] + b;
      CountCharConcat(a[1..], b, c);
    }
  }

  lemma {:induction false} CountCharNone(s: string, c: char)
    requires forall i :: 0 <= i < |s| ==> s[i] != c
    ensures CountChar(s, c) == 0
  {
    if s != [] {
      CountCharNone(s[1..], c);
    }
  }

  /** The '\n'-terminated segments of s, without their '\n', in order. */
  function RawLines(s: string): seq<string>
    decreases |s|
  {
    match IndexOfChar(s, '\n', 0)
    case None => []
    case Some(idx) => [s[..idx]] + RawLines(s[idx + 1..])
  }

  /** What follows the last '\n' of s. */
  function Pending(s: string): string
    decreases |s|
  {
    match IndexOfChar(s, '\n', 0)
    case None => s
    case Some(idx) => Pending(s[idx + 1..])
  }

  /** Each segment with every trailing '\r' removed. */
  function TrimCarriageReturns(segs: seq<string>): (r: seq<string>)
    ensures |r| == |segs|
    ensures forall k :: 0 <= k < |r| ==> r[k] == TrimEndChar(segs[k], '\r')
  {
    if segs == [] then [] else [TrimEndChar(segs[0], '\r')] + TrimCarriageReturns(segs[1..])
  }

  /** The lines a buffer holding s hands out. */
  function CompleteLines(s: string): seq<string>
  {
    TrimCarriageReturns(RawLines(s))
  }

  /** Unfolding at the first '\n'. */
  lemma LinesStep(s: string, idx: nat)
    requires IndexOfChar(s, '\n', 0) == Some(idx)
    ensures RawLines(s) == [s[..idx]] + RawLines(s[idx + 1..])
    ensures CompleteLines(s) == [TrimEndChar(s[..idx], '\r')] + CompleteLines(s[idx + 1..])
    ensures Pending(s) == Pending(s[idx + 1..])
  {
    var raw := RawLines(s[idx + 1..]);
    assert ([s[..idx]] + raw)[1..] == raw;
  }

  /** Appending text after the first '\n' does not move it. */
  lemma FirstNewlineConcat(s: string, t: string, idx: nat)
    requires IndexOfChar(s, '\n', 0) == Some(idx)
    ensures IndexOfChar(s + t, '\n', 0) == Some(idx)
    ensures (s + t)[..idx] == s[..idx] && (s + t)[idx + 1..] == s[idx + 1..] + t
  {
    IndexOfCharSpec(s, '\n', 0, idx);
    forall j | 0 <= j <= idx ensures (s + t)[j] == s[j] {
    }
    IndexOfCharSpec(s + t, '\n', 0, idx);
  }

  function JoinLines(segs: seq<string>): string
  {
    if segs == [] then "" else segs[0] + "\n" + JoinLines(segs[1..])
  }

  /** The segments, each with its '\n', followed by the pending rest, give s back. */
  lemma {:induction false} RawLinesReassemble(s: string)
    ensures JoinLines(RawLines(s)) + Pending(s) == s
    decreases |s|
  {
    match IndexOfChar(s, '\n', 0)
    case None =>
    case Some(idx) =>
      var rest := s[idx + 1..];
      var raw := RawLines(rest);
      var head := s[..idx] + "\n";
      RawLinesReassemble(rest);
      assert JoinLines(RawLines(s)) == head + JoinLines(raw) by {
        LinesStep(s, idx);
        assert ([s[..idx]] + raw)[1..] == raw;
      }
      assert Pending(s) == Pending(rest) by {
        LinesStep(s, idx);
      }
      assert s == head + rest by {
        IndexOfCharSpec(s, '\n', 0, idx);
      }
      calc {
        JoinLines(RawLines(s)) + Pending(s);
        (head + JoinLines(raw)) + Pending(rest);
        head + (JoinLines(raw) + Pending(rest));
        head + rest;
        s;
      }
  }

  /** One segment per '\n'. */
  lemma {:induction false} RawLinesCount(s: string)
    ensures |RawLines(s)| == CountChar(s, '\n')
    decreases |s|
  {
    match IndexOfChar(s, '\n', 0)
    case None =>
      CountCharNone(s, '\n');
    case Some(idx) =>
      var rest := s[idx + 1..];
      RawLinesCount(rest);
      assert s == s[..idx] + ("\n" + rest);
      CountCharConcat(s[..idx], "\n" + rest, '\n');
      CountCharConcat("\n", rest, '\n');
      CountCharNone(s[..idx], '\n');
  }

  /** No segment holds a '\n'. */
  lemma {:induction false} RawLinesNoNewline(s: string, k: nat, i: nat)
    requires k < |RawLines(s)| && i < |RawLines(s)[k]|
    ensures RawLines(s)[k][i] != '\n'
    decreases |s|
  {
    match IndexOfChar(s, '\n', 0)
    case None =>
    case Some(idx) =>
      LinesStep(s, idx);
      if k == 0 {
        IndexOfCharSpec(s, '\n', 0, idx);
        assert RawLines(s)[0][i] == s[i];
      } else {
        assert RawLines(s)[k] == RawLines(s[idx + 1..])[k - 1];
        RawLinesNoNewline(s[idx + 1..], k - 1, i);
      }
  }

  /** Handed-out lines hold no '\n' and do not end in '\r'. */
  lemma CompleteLinesShape(s: string, k: nat)
    requires k < |CompleteLines(s)|
    ensures forall i :: 0 <= i < |CompleteLines(s)[k]| ==> CompleteLines(s)[k][i] != '\n'
    ensures CompleteLines(s)[k] == [] || CompleteLines(s)[k][|CompleteLines(s)[k]| - 1] != '\r'
  {
    var raw := RawLines(s);
    var line := CompleteLines(s)[k];
    TrimEndCharSpec(raw[k], '\r');
    forall i | 0 <= i < |line| ensures line[i] != '\n' {
      assert line[i] == raw[k][i];
      RawLinesNoNewline(s, k, i);
    }
  }

  /** Text without '\n' yields no line and stays pending whole. */
  lemma NoNewlineNoLines(s: string)
    requires forall i :: 0 <= i < |s| ==> s[i] != '\n'
    ensures CompleteLines(s) == [] && Pending(s) == s
  {
  }

  /** Splitting the input into chunks does not change the rest kept: feeding s
      and then t leaves what feeding s + t at once would. */
  lemma {:induction false} ChunkingPending(s: string, t: string)
    ensures Pending(Pending(s) + t) == Pending(s + t)
    decreases |s|
  {
    match IndexOfChar(s, '\n', 0)
    case None =>
    case Some(idx) =>
      var rest := s[idx + 1..];
      ChunkingPending(rest, t);
      assert Pending(s) == Pending(rest) by {
        LinesStep(s, idx);
      }
      assert Pending(s + t) == Pending(rest + t) by {
        FirstNewlineConcat(s, t, idx);
        LinesStep(s + t, idx);
      }
  }

  /** Splitting the input into chunks does not change the lines: feeding s and
      then t hands out what feeding s + t at once would. */
  lemma {:induction false} ChunkingInvariant(s: string, t: string)
    ensures CompleteLines(s) + CompleteLines(Pending(s) + t) == CompleteLines(s + t)
    decreases |s|
  {
    match IndexOfChar(s, '\n', 0)
    case None =>
    case Some(idx) =>
      var rest := s[idx + 1..];
      var line := TrimEndChar(s[..idx], '\r');
      ChunkingInvariant(rest, t);
      assert CompleteLines(s) == [line] + CompleteLines(rest) && Pending(s) == Pending(rest) by {
        LinesStep(s, idx);
      }
      assert CompleteLines(s + t) == [line] + CompleteLines(rest + t) by {
        FirstNewlineConcat(s, t, idx);
        LinesStep(s + t, idx);
      }
      calc {
        CompleteLines(s) + CompleteLines(Pending(s) + t);
        ([line] + CompleteLines(rest)) + CompleteLines(Pending(rest) + t);
        [line] + (CompleteLines(rest) + CompleteLines(Pending(rest) + t));
        [line] + CompleteLines(rest + t);
        CompleteLines(s + t);
      }
  }

  class SseLineBuffer {
    /** The text received but not yet handed out as lines (the StringBuilder _sb). */
    var buffer: string

    predicate Valid()
      reads this
    {
      forall i :: 0 <= i < |buffer| ==> buffer[i] != '\n'
    }

    constructor()
      ensures buffer == [] && Valid()
    {
      buffer := [];
    }

    /**
     * AppendAndExtractLines, given the chunk already decoded: hands out the
     * complete lines of the old buffer followed by the chunk, in order, and
     * keeps the rest.
     */
    method AppendAndExtractLines(text: string) returns (lines: seq<string>)
      requires Valid()
      modifies this
      ensures lines == CompleteLines(old(buffer) + text)
      ensures buffer == Pending(old(buffer) + text)
      ensures Valid()
    {
      buffer := buffer + text;
      ghost var all0 := buffer;
      lines := [];
      while true
        invariant lines + CompleteLines(buffer) == CompleteLines(all0)
        invariant Pending(buffer) == Pending(all0)
        decreases |buffer|
      {
        var all := buffer;
        var idx := IndexOfChar(all, '\n', 0);
        if idx.None? {
          break;
        }
        var line := all[..idx.value];
        lines := lines + [TrimEndChar(line, '\r')];
        buffer := all[idx.value + 1..];
      }
    }
  }
}
