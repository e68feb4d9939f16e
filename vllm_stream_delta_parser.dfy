/**
 * Lenient decoding of the contents of a JSON string literal, and the picking
 * of a single `"content":"..."` delta out of one server-sent-events line.
 */
module VllmStreamDeltaParser {
  import opened Wrappers
  import opened Text

  predicate IsHexDigit(c: char)
  {
    ('0' <= c <= '9') || ('a' <= c <= 'f') || ('A' <= c <= 'F')
  }

  /** The value of a hex digit; only ever applied to hex digits, so any other
      character is given 0. */
  function HexDigitValue(c: char): (v: nat)
    ensures v < 16
  {
    if '0' <= c <= '9' then (c - '0') as nat
    else if 'a' <= c <= 'f' then (c - 'a') as nat + 10
    else if 'A' <= c <= 'F' then (c - 'A') as nat + 10
    else 0
  }

  function Pow16(n: nat): nat
  {
    if n == 0 then 1 else 16 * Pow16(n - 1)
  }

  /** White space as the .NET number parser skips it (U+0009..U+000D and ' '). */
  predicate IsNumberWhite(c: char)
  {
    c == ' ' || ('\t' <= c <= '\r')
  }

  /** Where the hex-number scanner is: before the digits, in them, in the white
      space after them, or in the NUL characters the .NET parser allows at the end. */
  datatype HexState = Leading | Digits | Trailing | Nuls

  /**
   * The scanner of ushort.TryParse(h, NumberStyles.HexNumber) from position i,
   * with the value `acc` of the digits read so far: optional number white space,
   * at least one hex digit (either case), optional white space, then only NULs.
   */
  function HexScan(h: string, i: nat, st: HexState, acc: nat): Option<nat>
    requires i <= |h|
    decreases |h| - i
  {
    if i == |h| then (if st == Leading then None else Some(acc))
    else
      var c := h[i];
      match st
      case Leading =>
        if IsNumberWhite(c) then HexScan(h, i + 1, Leading, acc)
        else if IsHexDigit(c) then HexScan(h, i + 1, Digits, HexDigitValue(c))
        else None
      case Digits =>
        if IsHexDigit(c) then HexScan(h, i + 1, Digits, acc * 16 + HexDigitValue(c))
        else if IsNumberWhite(c) then HexScan(h, i + 1, Trailing, acc)
        else if c == '\0' then HexScan(h, i + 1, Nuls, acc)
        else None
      case Trailing =>
        if IsNumberWhite(c) then HexScan(h, i + 1, Trailing, acc)
        else if c == '\0' then HexScan(h, i + 1, Nuls, acc)
        else None
      case Nuls =>
        if c == '\0' then HexScan(h, i + 1, Nuls, acc) else None
  }

  /** The digits read by position i are at most i, so the value stays below 16^|h|. */
  lemma {:induction false} HexScanBound(h: string, i: nat, st: HexState, acc: nat)
    requires i <= |h| && acc < Pow16(i)
    ensures HexScan(h, i, st, acc).Some? ==> HexScan(h, i, st, acc).value < Pow16(|h|)
    decreases |h| - i
  {
    if i < |h| {
      var c := h[i];
      var next := if st == Leading && !IsNumberWhite(c) then HexDigitValue(c)
                  else if st == Digits && IsHexDigit(c) then acc * 16 + HexDigitValue(c)
                  else acc;
      assert next < Pow16(i + 1);
      HexScanBound(h, i + 1, Leading, next);
      HexScanBound(h, i + 1, Digits, next);
      HexScanBound(h, i + 1, Trailing, next);
      HexScanBound(h, i + 1, Nuls, next);
    }
  }

  /**
   * ushort.TryParse(h, NumberStyles.HexNumber) on the four characters after
   * `\u`.  Four digits cannot overflow 16 bits, so overflow never rejects.
   */
  function ParseHex16(h: string): (r: Option<nat>)
    requires |h| == 4
    ensures r.Some? ==> r.value < 0x1_0000
  {
    HexScanBound(h, 0, Leading, 0);
    HexScan(h, 0, Leading, 0)
  }

  /** Four hex digits parse to their value. */
  lemma ParseHexDigits(h: string)
    requires |h| == 4 && forall i :: 0 <= i < 4 ==> IsHexDigit(h[i])
    ensures ParseHex16(h) == Some(4096 * HexDigitValue(h[0]) + 256 * HexDigitValue(h[1]) +
                                  16 * HexDigitValue(h[2]) + HexDigitValue(h[3]))
  {
    var v0 := HexDigitValue(h[0]);
    var v1 := v0 * 16 + HexDigitValue(h[1]);
    var v2 := v1 * 16 + HexDigitValue(h[2]);
    var v3 := v2 * 16 + HexDigitValue(h[3]);
    assert HexScan(h, 4, Digits, v3) == Some(v3);
    assert HexScan(h, 3, Digits, v2) == Some(v3);
    assert HexScan(h, 2, Digits, v1) == Some(v3);
    assert HexScan(h, 1, Digits, v0) == Some(v3);
    assert !IsNumberWhite(h[0]);
  }

  /** Leading or trailing white space around fewer digits is accepted too. */
  lemma ParseHexPadded()
    ensures ParseHex16(" 4a\t") == Some(0x4a)
    ensures ParseHex16("41\0\0") == Some(0x41)
    ensures ParseHex16("12g4").None? && ParseHex16("    ").None? && ParseHex16("1 2 ").None?
  {
  }

  /** The UTF-16 unit `(char)code`.  A Dafny char cannot hold a lone surrogate
      (D800..DFFF), so such a unit becomes U+FFFD. */
  function CodeUnitChar(code: nat): char
    requires code < 0x1_0000
  {
    if 0xD800 <= code < 0xE000 then '\U{FFFD}' else code as char
  }

  /** The character a two-character escape `\c` (c other than 'u') stands for. */
  function EscapedChar(c: char): char
  {
    match c
    case '\\' => '\\'
    case '"' => '"'
    case 'n' => '\n'
    case 'r' => '\r'
    case 't' => '\t'
    case 'b' => '\U{0008}'
    case 'f' => '\U{000C}'
    case _ => c
  }

  /** One decoding step at position i of s: the text it produces and how many
      characters it consumes. */
  function StepAt(s: string, i: nat): (r: (string, nat))
    requires i < |s|
    ensures 0 < r.1 <= |s| - i && |r.0| <= r.1
  {
    if s[i] == '\\' && i + 1 < |s| then
      if s[i + 1] == 'u' then
        if i + 5 < |s| && ParseHex16(s[i + 2..i + 6]).Some? then ([CodeUnitChar(ParseHex16(s[i + 2..i + 6]).value)], 6)
        else ("\\u", 2)
      else ([EscapedChar(s[i + 1])], 2)
    else ([s[i]], 1)
  }

  /** Reference definition of JsonStringUnescape: decoding steps from position i on. */
  function UnescapedFrom(s: string, i: nat): (r: string)
    requires i <= |s|
    ensures |r| <= |s| - i
    decreases |s| - i
  {
    if i == |s| then "" else StepAt(s, i).0 + UnescapedFrom(s, i + StepAt(s, i).1)
  }

  function Unescaped(s: string): (r: string)
    ensures |r| <= |s|
  {
    UnescapedFrom(s, 0)
  }

  /** Two texts that agree from positions m and j on. */
  predicate SameFrom(s: string, m: nat, t: string, j: nat)
  {
    m <= |s| && j <= |t| && |s| - m == |t| - j && forall k :: m <= k < |s| ==> s[k] == t[k - m + j]
  }

  /** A step looks only at the characters from its position on. */
  lemma StepSame(s: string, m: nat, t: string, j: nat)
    requires SameFrom(s, m, t, j) && j < |t|
    ensures StepAt(s, m) == StepAt(t, j)
  {
    assert s[m] == t[j];
    if j + 1 < |t| { assert s[m + 1] == t[j + 1]; }
    if j + 5 < |t| { assert s[m + 2..m + 6] == t[j + 2..j + 6]; }
  }

  /** So does decoding from a position. */
  lemma {:induction false} UnescapedSame(s: string, m: nat, t: string, j: nat)
    requires SameFrom(s, m, t, j)
    ensures UnescapedFrom(s, m) == UnescapedFrom(t, j)
    decreases |t| - j
  {
    if j < |t| {
      var n := StepAt(t, j).1;
      calc {
        UnescapedFrom(s, m);
        { StepSame(s, m, t, j); }
        StepAt(t, j).0 + UnescapedFrom(s, m + n);
        { UnescapedSame(s, m + n, t, j + n); }
        StepAt(t, j).0 + UnescapedFrom(t, j + n);
      }
    }
  }

  /** Decoding text that starts with a prefix: the prefix's steps, then the rest. */
  lemma UnescapedAfter(p: string, t: string)
    ensures UnescapedFrom(p + t, |p|) == Unescaped(t)
  {
    assert SameFrom(p + t, |p|, t, 0);
    UnescapedSame(p + t, |p|, t, 0);
  }

  /** The body of the source's loop: the switch on the character after a
      backslash, which also moves the index past what it consumed. */
  method DecodeAt(input: string, i0: nat) returns (piece: string, i: nat)
    requires i0 < |input|
    ensures piece == StepAt(input, i0).0 && i == i0 + StepAt(input, i0).1
  {
    i := i0;
    var c := input[i];
    if c == '\\' && i + 1 < |input| {
      var next := input[i + 1];
      i := i + 1;
      if next == 'u' {
        if i + 4 < |input| {
          var hex := input[i + 1..i + 5];
          var code := ParseHex16(hex);
          if code.Some? {
            piece := [CodeUnitChar(code.value)];
            i := i + 4;
          } else {
            piece := "\\u";
          }
        } else {
          piece := "\\u";
        }
      } else {
        piece := [EscapedChar(next)];
      }
    } else {
      piece := [c];
    }
    i := i + 1;
  }

  /** JsonStringUnescape: the source's StringBuilder loop. */
  method JsonStringUnescape(input: string) returns (output: string)
    ensures output == Unescaped(input)
  {
    if |input| == 0 {
      return input;
    }
    var sb := "";
    var i := 0;
    while i < |input|
      invariant 0 <= i <= |input|
      invariant sb + UnescapedFrom(input, i) == Unescaped(input)
      decreases |input| - i
    {
      var piece, next := DecodeAt(input, i);
      sb := sb + piece;
      i := next;
    }
    output := sb;
  }

  /** Text without a backslash comes back unchanged. */
  lemma UnescapeWithoutBackslash(s: string)
    requires forall i :: 0 <= i < |s| ==> s[i] != '\\'
    ensures Unescaped(s) == s
  {
    UnescapeFromWithoutBackslashBefore(s, 0, |s|);
  }

  /** A character other than a backslash decodes to itself. */
  lemma UnescapePlain(c: char, rest: string)
    requires c != '\\'
    ensures Unescaped([c] + rest) == [c] + Unescaped(rest)
  {
    UnescapedAfter([c], rest);
  }

  /** The seven two-character escapes each decode to their single character;
      any other escaped character except 'u' stands for itself. */
  lemma UnescapeSimple(c: char, rest: string)
    requires c != 'u'
    ensures Unescaped(['\\', c] + rest) == [EscapedChar(c)] + Unescaped(rest)
    ensures EscapedChar('n') == '\n' && EscapedChar('r') == '\r' && EscapedChar('t') == '\t'
    ensures EscapedChar('b') == '\U{0008}' && EscapedChar('f') == '\U{000C}'
    ensures EscapedChar('\\') == '\\' && EscapedChar('"') == '"'
    ensures c !in "\\\"nrtbf" ==> EscapedChar(c) == c
  {
    var s := ['\\', c] + rest;
    assert StepAt(s, 0) == ([EscapedChar(c)], 2);
    UnescapedAfter(['\\', c], rest);
  }

  /** `\u` and four characters the hex parser accepts become one unit, consuming six characters. */
  lemma UnescapeUnicode(h: string, rest: string)
    requires |h| == 4 && ParseHex16(h).Some?
    ensures Unescaped("\\u" + h + rest) == [CodeUnitChar(ParseHex16(h).value)] + Unescaped(rest)
  {
    var s := "\\u" + h + rest;
    assert s[0] == '\\' && s[1] == 'u' && s[2..6] == h;
    assert StepAt(s, 0) == ([CodeUnitChar(ParseHex16(h).value)], 6);
    assert s == ("\\u" + h) + rest;
    UnescapedAfter("\\u" + h, rest);
  }

  /** `\u` with fewer than four following characters, or unparsable ones, stays literal
      and decoding resumes right after the 'u'. */
  lemma UnescapeBadUnicode(t: string)
    requires |t| < 4 || ParseHex16(t[..4]).None?
    ensures Unescaped("\\u" + t) == "\\u" + Unescaped(t)
  {
    var s := "\\u" + t;
    assert s[0] == '\\' && s[1] == 'u';
    if |t| >= 4 { assert s[2..6] == t[..4]; }
    assert StepAt(s, 0) == ("\\u", 2);
    UnescapedAfter("\\u", t);
  }

  /** A lone trailing backslash is kept. */
  lemma UnescapeTrailingBackslash(p: string)
    requires forall i :: 0 <= i < |p| ==> p[i] != '\\'
    ensures Unescaped(p + "\\") == p + "\\"
  {
    var s := p + "\\";
    assert StepAt(s, |p|) == ("\\", 1);
    assert UnescapedFrom(s, |p|) == "\\";
    UnescapeFromWithoutBackslashBefore(s, 0, |p|);
  }

  /** Decoding a stretch without a backslash keeps it, then goes on after it. */
  lemma {:induction false} UnescapeFromWithoutBackslashBefore(s: string, i: nat, j: nat)
    requires i <= j <= |s|
    requires forall k :: i <= k < j ==> s[k] != '\\'
    ensures UnescapedFrom(s, i) == s[i..j] + UnescapedFrom(s, j)
    decreases j - i
  {
    if i < j {
      assert StepAt(s, i) == ([s[i]], 1);
      calc {
        UnescapedFrom(s, i);
        [s[i]] + UnescapedFrom(s, i + 1);
        { UnescapeFromWithoutBackslashBefore(s, i + 1, j); }
        [s[i]] + (s[i + 1..j] + UnescapedFrom(s, j));
        { assert s[i..j] == [s[i]] + s[i + 1..j]; }
        s[i..j] + UnescapedFrom(s, j);
      }
    }
  }

  // ---------------------------------------------------------------------------
  // A JSON string encoder, the inverse partner of Unescaped.

  function HexDigitChar(d: nat): char
    requires d < 16
  {
    "0123456789abcdef"[d]
  }

  /** How a JSON producer writes one character inside a string literal. */
  function EscapeChar(c: char): string
  {
    if c == '\\' then "\\\\"
    else if c == '"' then "\\\""
    else if c == '\n' then "\\n"
    else if c == '\r' then "\\r"
    else if c == '\t' then "\\t"
    else if c == '\U{0008}' then "\\b"
    else if c == '\U{000C}' then "\\f"
    else if c < ' ' then "\\u00" + [HexDigitChar(c as nat / 16), HexDigitChar(c as nat % 16)]
    else [c]
  }

  function JsonEscape(s: string): string
  {
    if s == [] then "" else EscapeChar(s[0]) + JsonEscape(s[1..])
  }

  lemma HexDigitRoundTrip(d: nat)
    requires d < 16
    ensures IsHexDigit(HexDigitChar(d)) && HexDigitValue(HexDigitChar(d)) == d
  {
  }

  /** A control character without a short escape is written as `\u00XX`. */
  lemma ControlEscapeRoundTrip(c: char, rest: string)
    requires c < ' ' && c !in "\n\r\t\U{0008}\U{000C}"
    ensures Unescaped(EscapeChar(c) + rest) == [c] + Unescaped(rest)
  {
    var h := "00" + [HexDigitChar(c as nat / 16), HexDigitChar(c as nat % 16)];
    HexDigitRoundTrip(c as nat / 16);
    HexDigitRoundTrip(c as nat % 16);
    assert EscapeChar(c) == "\\u" + h;
    ParseHexDigits(h);
    assert ParseHex16(h) == Some(c as nat);
    UnescapeUnicode(h, rest);
    assert "\\u" + h + rest == EscapeChar(c) + rest;
  }

  lemma EscapeCharRoundTrip(c: char, rest: string)
    ensures Unescaped(EscapeChar(c) + rest) == [c] + Unescaped(rest)
  {
    if c < ' ' && c !in "\n\r\t\U{0008}\U{000C}" {
      ControlEscapeRoundTrip(c, rest);
    } else if c in "\\\"\n\r\t\U{0008}\U{000C}" {
      var d := EscapeChar(c)[1];
      assert EscapeChar(c) == ['\\', d] && d != 'u' && EscapedChar(d) == c;
      UnescapeSimple(d, rest);
    } else {
      assert EscapeChar(c) == [c];
      UnescapePlain(c, rest);
    }
  }

  /** Decoding undoes JSON encoding, for every text. */
  lemma {:induction false} UnescapeJsonEscape(s: string)
    ensures Unescaped(JsonEscape(s)) == s
  {
    if s != [] {
      calc {
        Unescaped(JsonEscape(s));
        Unescaped(EscapeChar(s[0]) + JsonEscape(s[1..]));
        { EscapeCharRoundTrip(s[0], JsonEscape(s[1..])); }
        [s[0]] + Unescaped(JsonEscape(s[1..]));
        { UnescapeJsonEscape(s[1..]); }
        s;
      }
    }
  }

  // ---------------------------------------------------------------------------
  // TryExtractDelta

  const ContentMarker: string := "\"content\":\""

  /**
   * Where TryExtractDelta finds its text: nothing in a blank line or a line
   * without the exact marker; otherwise from the end of the first marker to
   * the first '"' after it (even an escaped one), if there is one.
   */
  function DeltaSpan(line: string): (r: Option<(nat, nat)>)
    ensures IsBlank(line) ==> r.None?
    ensures (forall k :: !OccursAt(line, ContentMarker, k)) ==> r.None?
  {
    if IsBlank(line) then None
    else
      match IndexOf(line, ContentMarker, 0)
      case None => None
      case Some(idx) =>
        var start := idx + |ContentMarker|;
        match IndexOfChar(line, '"', start)
        case None => None
        case Some(end) => Some((start, end))
  }

  /** TryExtractDelta: the unescaped text of the span, when there is one. */
  function TryExtractDelta(line: string): (r: Option<string>)
    ensures IsBlank(line) ==> r.None?
    ensures (forall k :: !OccursAt(line, ContentMarker, k)) ==> r.None?
    ensures r.Some? ==> |r.value| < |line| - |ContentMarker|
  {
    match DeltaSpan(line)
    case None => None
    case Some(span) => Some(Unescaped(line[span.0..span.1]))
  }

  /** Every line with the marker and a quote after it yields a delta. */
  lemma DeltaFound(line: string, k: nat)
    requires !IsBlank(line) && OccursAt(line, ContentMarker, k)
    requires exists j :: k + |ContentMarker| <= j < |line| && line[j] == '"'
    ensures TryExtractDelta(line).Some?
  {
    var idx := IndexOf(line, ContentMarker, 0);
    assert idx.Some? && idx.value <= k;
    var j :| k + |ContentMarker| <= j < |line| && line[j] == '"';
    assert IndexOfChar(line, '"', idx.value + |ContentMarker|).Some?;
  }

  /** The span runs from the end of the first marker to the first quote after
      it, and a span with those properties is the one found. */
  predicate IsDeltaSpan(line: string, a: nat, b: nat)
  {
    && |ContentMarker| <= a <= b < |line|
    && OccursAt(line, ContentMarker, a - |ContentMarker|)
    && (forall k :: 0 <= k < a - |ContentMarker| ==> !OccursAt(line, ContentMarker, k))
    && line[b] == '"'
    && (forall k :: a <= k < b ==> line[k] != '"')
  }

  lemma DeltaSpanSpec(line: string, a: nat, b: nat)
    requires !IsBlank(line)
    ensures DeltaSpan(line) == Some((a, b)) <==> IsDeltaSpan(line, a, b)
  {
    var m := |ContentMarker|;
    if IsDeltaSpan(line, a, b) {
      var idx := IndexOf(line, ContentMarker, 0);
      assert idx.Some? && idx.value == a - m;
      var end := IndexOfChar(line, '"', a);
      assert end.Some? && end.value == b;
    }
  }

  /** An escaped quote still ends the delta: the backslash before it is left lone. */
  lemma DeltaStopsAtEscapedQuote()
    ensures TryExtractDelta("{\"content\":\"a\\\"b\"}") == Some("a\\")
  {
    var line := "{\"content\":\"a\\\"b\"}";
    assert !IsWhiteSpace(line[0]);
    assert OccursAt(line, ContentMarker, 1);
    assert !OccursAt(line, ContentMarker, 0);
    assert IndexOf(line, ContentMarker, 0) == Some(1);
    assert line[12] == 'a' && line[13] == '\\' && line[14] == '"';
    assert IndexOfChar(line, '"', 12) == Some(14);
    assert line[12..14] == "a\\";
    assert IndexOf(line, ContentMarker, 1) == Some(1);
    assert IndexOfChar(line, '"', 14) == Some(14);
    assert IndexOfChar(line, '"', 13) == Some(14);
    UnescapeTrailingBackslash("a");
    assert "a" + "\\" == "a\\";
  }

  /** JSON encoding introduces a '"' only for a '"' of the text. */
  lemma {:induction false} JsonEscapeNoQuote(x: string)
    requires forall i :: 0 <= i < |x| ==> x[i] != '"'
    ensures forall i :: 0 <= i < |JsonEscape(x)| ==> JsonEscape(x)[i] != '"'
  {
    if x != [] {
      JsonEscapeNoQuote(x[1..]);
      var e := EscapeChar(x[0]);
      assert forall i :: 0 <= i < |e| ==> e[i] != '"';
      assert JsonEscape(x) == e + JsonEscape(x[1..]);
    }
  }

  /** Where the parts of `p + ContentMarker + e + "\"" + q` lie. */
  lemma LineParts(line: string, p: string, e: string, q: string)
    requires line == p + ContentMarker + e + "\"" + q
    ensures |line| == |p| + 11 + |e| + 1 + |q|
    ensures forall k :: 0 <= k < |p| ==> line[k] == p[k]
    ensures OccursAt(line, ContentMarker, |p|)
    ensures forall k :: |p| + 11 <= k < |p| + 11 + |e| ==> line[k] == e[k - |p| - 11]
    ensures line[|p| + 11..|p| + 11 + |e|] == e
    ensures line[|p| + 11 + |e|] == '"'
  {
    assert line[|p|..|p| + 11] == ContentMarker;
  }

  /** A line whose marker and closing quote enclose a stretch yields that stretch, unescaped. */
  lemma DeltaOfSpan(line: string, a: nat, b: nat, e: string)
    requires DeltaSpan(line) == Some((a, b)) && a <= b <= |line| && line[a..b] == e
    ensures TryExtractDelta(line) == Some(Unescaped(e))
  {
  }

  /** A line whose delta span holds an encoded text yields that text. */
  lemma DeltaRoundTrip(line: string, a: nat, x: string)
    requires IsDeltaSpan(line, a, a + |JsonEscape(x)|)
    requires line[a..a + |JsonEscape(x)|] == JsonEscape(x)
    ensures TryExtractDelta(line) == Some(x)
  {
    var b := a + |JsonEscape(x)|;
    assert !IsWhiteSpace(line[b]);
    DeltaSpanSpec(line, a, b);
    DeltaOfSpan(line, a, b, JsonEscape(x));
    UnescapeJsonEscape(x);
  }

  /** Writing a quote-free text, encoded, after a quote-free prefix and the marker
      puts it exactly in the delta span, so DeltaRoundTrip applies to such lines. */
  lemma EncodedLineSpan(p: string, x: string, q: string)
    requires forall i :: 0 <= i < |p| ==> p[i] != '"'
    requires forall i :: 0 <= i < |x| ==> x[i] != '"'
    ensures var line := p + ContentMarker + JsonEscape(x) + "\"" + q;
      && IsDeltaSpan(line, |p| + 11, |p| + 11 + |JsonEscape(x)|)
      && line[|p| + 11..|p| + 11 + |JsonEscape(x)|] == JsonEscape(x)
  {
    var e := JsonEscape(x);
    var line := p + ContentMarker + e + "\"" + q;
    JsonEscapeNoQuote(x);
    LineParts(line, p, e, q);
    var a := |p| + 11;
    forall k | 0 <= k < |p| ensures !OccursAt(line, ContentMarker, k) {
      assert line[k] == p[k];
    }
    forall k | a <= k < a + |e| ensures line[k] != '"' {
      assert line[k] == e[k - a];
    }
  }
}
