/**
 * The JSON-object boundary scanner `parseJSONObjects`, which both viewer
 * components carry word for word. One left-to-right pass keeps a brace
 * counter, an in-string flag, an escape flag and an accumulator of the
 * characters read since the last accepted value. Whenever the counter is
 * zero and the trimmed accumulator is not empty it asks the JSON decoder;
 * a decoded value is emitted and the accumulator restarts, a rejection is
 * ignored and scanning goes on.
 *
 * `JSON.parse` is not modelled: every member takes the decoder as a
 * parameter, and nothing proved here depends on what it accepts.
 */
module Scanner {
  import opened JsonValue

  type Decoder = string -> Option<Json>

  // ---------------------------------------------------------------------
  // String.prototype.trim

  /** ECMAScript WhiteSpace and LineTerminator code points, which `trim` removes. */
  predicate IsWhitespace(c: char) {
    || c == ' ' || c == '\t' || c == '\n' || c == '\r'
    || c == '\U{000B}' || c == '\U{000C}' || c == '\U{00A0}' || c == '\U{1680}'
    || ('\U{2000}' <= c <= '\U{200A}')
    || c == '\U{2028}' || c == '\U{2029}' || c == '\U{202F}' || c == '\U{205F}'
    || c == '\U{3000}' || c == '\U{FEFF}'
  }

  predicate IsBlank(s: string) {
    forall i :: 0 <= i < |s| ==> IsWhitespace(s[i])
  }

  /** `s` without its leading whitespace. */
  function TrimStart(s: string): string
    decreases |s|
  {
    if |s| > 0 && IsWhitespace(s[0]) then TrimStart(s[1..]) else s
  }

  /** `s` without its trailing whitespace. */
  function TrimEnd(s: string): string
    decreases |s|
  {
    if |s| > 0 && IsWhitespace(s[|s| - 1]) then TrimEnd(s[..|s| - 1]) else s
  }

  /** `s.trim()`. */
  function Trim(s: string): string {
    TrimEnd(TrimStart(s))
  }

  /** `TrimStart` drops a blank prefix, and exactly the longest one: what remains is a suffix that is empty or starts non-blank. */
  lemma {:induction false} TrimStartSpec(s: string)
    ensures |TrimStart(s)| <= |s| && TrimStart(s) == s[|s| - |TrimStart(s)|..]
    ensures IsBlank(s[..|s| - |TrimStart(s)|])
    ensures TrimStart(s) == [] || !IsWhitespace(TrimStart(s)[0])
    decreases |s|
  {
    if |s| > 0 && IsWhitespace(s[0]) {
      TrimStartSpec(s[1..]);
      var r := TrimStart(s[1..]);
      assert s[..|s| - |r|] == [s[0]] + s[1..][..|s| - 1 - |r|];
    }
  }

  /** `TrimEnd` drops the longest blank suffix: what remains is a prefix that is empty or ends non-blank. */
  lemma {:induction false} TrimEndSpec(s: string)
    ensures |TrimEnd(s)| <= |s| && TrimEnd(s) == s[..|TrimEnd(s)|]
    ensures IsBlank(s[|TrimEnd(s)|..])
    ensures TrimEnd(s) == [] || !IsWhitespace(TrimEnd(s)[|TrimEnd(s)| - 1])
    decreases |s|
  {
    if |s| > 0 && IsWhitespace(s[|s| - 1]) {
      TrimEndSpec(s[..|s| - 1]);
      var r := TrimEnd(s[..|s| - 1]);
      assert s[|r|..] == s[..|s| - 1][|r|..] + [s[|s| - 1]];
    }
  }

  /** The trimmed text is empty exactly when the text is all whitespace; otherwise it starts and ends with a non-blank character. */
  lemma TrimEmptyIffBlank(s: string)
    ensures Trim(s) == [] <==> IsBlank(s)
    ensures Trim(s) != [] ==> !IsWhitespace(Trim(s)[0]) && !IsWhitespace(Trim(s)[|Trim(s)| - 1])
  {
    var t := TrimStart(s);
    var k := |s| - |t|;
    var r := TrimEnd(t);
    TrimStartSpec(s);
    TrimEndSpec(t);
    if r == [] {
      assert t == [];
      forall i | 0 <= i < |s| ensures IsWhitespace(s[i]) {
        assert s[..k][i] == s[i];
      }
    } else {
      assert r[0] == t[0];
      assert s[k] == t[0];
    }
  }

  /** Text that starts and ends with a non-blank character is its own trim. */
  lemma TrimKeepsNonBlankEnds(s: string)
    requires |s| > 0 && !IsWhitespace(s[0]) && !IsWhitespace(s[|s| - 1])
    ensures Trim(s) == s
  {
    assert TrimStart(s) == s;
  }

  // ---------------------------------------------------------------------
  // The scanner as a state machine

  /**
   * The scanner's variables after some prefix of the input: the values emitted
   * so far (`objects`), the accumulator (`current`), the brace counter and the
   * two flags. `chunks` records, for each emitted value, the raw accumulator
   * text it was decoded from; the program does not keep it.
   */
  datatype ScanState = ScanState(
    objects: seq<Json>,
    chunks: seq<string>,
    current: string,
    braceCount: int,
    inString: bool,
    escapeNext: bool)

  /** The state before the first character. */
  const Initial := ScanState([], [], "", 0, false, false)

  /** One iteration of the loop body, for character `c`. */
  function Step(s: ScanState, c: char, decode: Decoder): ScanState {
    if s.escapeNext then
      s.(escapeNext := false, current := s.current + [c])
    else if c == '\\' then
      s.(escapeNext := true, current := s.current + [c])
    else
      TryDecode(Count(s, c), decode)
  }

  /** Toggle the string flag on a quote, count braces outside strings, and append the character. */
  function Count(s: ScanState, c: char): ScanState {
    var inString := if c == '"' then !s.inString else s.inString;
    var braceCount :=
      if inString then s.braceCount
      else if c == '{' then s.braceCount + 1
      else if c == '}' then s.braceCount - 1
      else s.braceCount;
    s.(current := s.current + [c], braceCount := braceCount, inString := inString)
  }

  /** At depth zero, offer the trimmed, non-empty accumulator to the decoder; on success emit the value and restart. */
  function TryDecode(s: ScanState, decode: Decoder): ScanState {
    var candidate := Trim(s.current);
    if s.braceCount == 0 && candidate != "" && decode(candidate).Some? then
      s.(objects := s.objects + [decode(candidate).value], chunks := s.chunks + [s.current], current := "")
    else
      s
  }

  /** The state reached from `s` after reading `text`. */
  function ScanFrom(s: ScanState, text: string, decode: Decoder): ScanState
    decreases |text|
  {
    if |text| == 0 then s
    else Step(ScanFrom(s, text[..|text| - 1], decode), text[|text| - 1], decode)
  }

  /** The state at the end of `parseJSONObjects(text)`; its `objects` are the result. */
  function Scan(text: string, decode: Decoder): ScanState {
    ScanFrom(Initial, text, decode)
  }

  /** The loop of `parseJSONObjects`, returning the values it pushes. */
  method ParseJSONObjects(text: string, decode: Decoder) returns (objects: seq<Json>)
    ensures objects == Scan(text, decode).objects
  {
    objects := [];
    ghost var chunks: seq<string> := [];
    var current := "";
    var braceCount := 0;
    var inString := false;
    var escapeNext := false;
    for i := 0 to |text|
      invariant Scan(text[..i], decode)
                == ScanState(objects, chunks, current, braceCount, inString, escapeNext)
    {
      var c := text[i];
      ghost var before := ScanState(objects, chunks, current, braceCount, inString, escapeNext);
      assert text[..i + 1][..i] == text[..i];
      assert Scan(text[..i + 1], decode) == Step(before, c, decode);
      if escapeNext {
        escapeNext := false;
        current := current + [c];
        continue;
      }
      if c == '\\' {
        escapeNext := true;
        current := current + [c];
        continue;
      }
      if c == '"' && !escapeNext {
        inString := !inString;
      }
      if !inString {
        if c == '{' {
          braceCount := braceCount + 1;
        } else if c == '}' {
          braceCount := braceCount - 1;
        }
      }
      current := current + [c];
      if braceCount == 0 && Trim(current) != "" {
        var parsed := decode(Trim(current));
        if parsed.Some? {
          objects := objects + [parsed.value];
          chunks := chunks + [current];
          current := "";
        }
      }
    }
    assert text[..|text|] == text;
  }

  // ---------------------------------------------------------------------
  // What one character does

  /** Only an unescaped double quote toggles `inString`; only an unescaped `{` or `}` outside a string moves the counter, by one; only an unescaped backslash raises `escapeNext`. */
  lemma QuoteBraceEscapeRules(s: ScanState, c: char, decode: Decoder)
    ensures Step(s, c, decode).inString != s.inString <==> !s.escapeNext && c == '"'
    ensures Step(s, c, decode).braceCount == s.braceCount + 1 <==> !s.escapeNext && !s.inString && c == '{'
    ensures Step(s, c, decode).braceCount == s.braceCount - 1 <==> !s.escapeNext && !s.inString && c == '}'
    ensures Step(s, c, decode).braceCount != s.braceCount ==> !s.escapeNext && !s.inString && (c == '{' || c == '}')
    ensures s.inString ==> Step(s, c, decode).braceCount == s.braceCount
    ensures Step(s, c, decode).escapeNext <==> !s.escapeNext && c == '\\'
  {
  }

  /**
   * A value is emitted exactly when the character is neither escaped nor a
   * backslash, the counter is zero afterwards, and the trimmed accumulator is
   * non-empty and decodes; the accumulator then becomes empty. Otherwise nothing
   * is emitted and the accumulator has only gained the character.
   */
  lemma DecodeRule(s: ScanState, c: char, decode: Decoder)
    ensures var t := Step(s, c, decode);
            var candidate := Trim(s.current + [c]);
            var attempted := !s.escapeNext && c != '\\' && t.braceCount == 0 && candidate != "";
            && (attempted && decode(candidate).Some? ==>
                  t.objects == s.objects + [decode(candidate).value] && t.chunks == s.chunks + [s.current + [c]] && t.current == "")
            && (!(attempted && decode(candidate).Some?) ==>
                  t.objects == s.objects && t.chunks == s.chunks && t.current == s.current + [c])
  {
  }

  /** A backslash and the character after it are appended verbatim and change nothing else, wherever they occur. */
  lemma BackslashPairIsLiteral(s: ScanState, x: char, decode: Decoder)
    requires !s.escapeNext
    ensures ScanFrom(s, ['\\', x], decode) == s.(current := s.current + ['\\', x])
  {
    var pair := ['\\', x];
    assert pair[..1] == ['\\'];
    ScanFromOne(s, '\\', decode);
    var mid := ScanFrom(s, pair[..1], decode);
    assert mid == s.(escapeNext := true, current := s.current + ['\\']);
    assert ScanFrom(s, pair, decode) == Step(mid, x, decode);
  }

  /** Reading a single character is one step. */
  lemma ScanFromOne(s: ScanState, c: char, decode: Decoder)
    ensures ScanFrom(s, [c], decode) == Step(s, c, decode)
  {
    assert [c][..0] == [];
  }

  /** Inside a string and inside braces, an ordinary character is only appended. */
  lemma PlainCharInStringIsInert(s: ScanState, c: char, decode: Decoder)
    requires s.inString && !s.escapeNext && s.braceCount != 0
    requires c != '"' && c != '\\'
    ensures ScanFrom(s, [c], decode) == s.(current := s.current + [c])
  {
    ScanFromOne(s, c, decode);
  }

  // ---------------------------------------------------------------------
  // Runs over several characters

  /** Scanning `a + b` is scanning `a`, then resuming from that state on `b`. */
  lemma {:induction false} ScanFromAppend(s: ScanState, a: string, b: string, decode: Decoder)
    ensures ScanFrom(s, a + b, decode) == ScanFrom(ScanFrom(s, a, decode), b, decode)
    decreases |b|
  {
    if |b| == 0 {
      assert a + b == a;
    } else {
      assert (a + b)[..|a + b| - 1] == a + b[..|b| - 1];
      assert (a + b)[|a + b| - 1] == b[|b| - 1];
      ScanFromAppend(s, a, b[..|b| - 1], decode);
    }
  }

  /** Emitted values and their chunks are never retracted. */
  lemma {:induction false} HistoryOnlyGrows(s: ScanState, t: string, decode: Decoder)
    ensures s.objects <= ScanFrom(s, t, decode).objects
    ensures s.chunks <= ScanFrom(s, t, decode).chunks
    decreases |t|
  {
    if |t| > 0 {
      HistoryOnlyGrows(s, t[..|t| - 1], decode);
    }
  }

  /** Prefix monotonicity: the values found in a prefix of the input are a prefix of the values found in the whole input. */
  lemma ScanPrefixMonotone(p: string, t: string, decode: Decoder)
    requires p <= t
    ensures Scan(p, decode).objects <= Scan(t, decode).objects
  {
    assert t == p + t[|p|..];
    ScanFromAppend(Initial, p, t[|p|..], decode);
    HistoryOnlyGrows(Scan(p, decode), t[|p|..], decode);
  }

  /** The concatenation of a sequence of strings. */
  function Concat(ss: seq<string>): string
    decreases |ss|
  {
    if |ss| == 0 then "" else Concat(ss[..|ss| - 1]) + ss[|ss| - 1]
  }

  /** One step moves the character into the accumulator, and perhaps the accumulator into a chunk. */
  lemma StepConserves(m: ScanState, c: char, decode: Decoder)
    ensures Concat(Step(m, c, decode).chunks) + Step(m, c, decode).current
            == Concat(m.chunks) + m.current + [c]
  {
    var n := Step(m, c, decode);
    DecodeRule(m, c, decode);
    if n.chunks == m.chunks + [m.current + [c]] {
      assert n.chunks[..|n.chunks| - 1] == m.chunks;
      assert Concat(n.chunks) == Concat(m.chunks) + (m.current + [c]);
    }
  }

  /** Every character read ends up, once and in order, in an emitted chunk or in the accumulator. */
  lemma {:induction false} ConservationFrom(s: ScanState, t: string, decode: Decoder)
    ensures Concat(ScanFrom(s, t, decode).chunks) + ScanFrom(s, t, decode).current
            == Concat(s.chunks) + s.current + t
    decreases |t|
  {
    if |t| > 0 {
      var init, c := t[..|t| - 1], t[|t| - 1];
      ConservationFrom(s, init, decode);
      var m := ScanFrom(s, init, decode);
      StepConserves(m, c, decode);
      assert t == init + [c];
      calc {
        Concat(s.chunks) + s.current + t;
        (Concat(s.chunks) + s.current + init) + [c];
        Concat(m.chunks) + m.current + [c];
      }
    }
  }

  /** No character is lost or duplicated: the raw chunks of the emitted values, then the final accumulator, spell the input. */
  lemma Conservation(t: string, decode: Decoder)
    ensures Concat(Scan(t, decode).chunks) + Scan(t, decode).current == t
  {
    ConservationFrom(Initial, t, decode);
  }

  /** Chunk `i` is exactly the text that was decoded into value `i`. */
  ghost predicate ChunksDecode(s: ScanState, decode: Decoder) {
    && |s.chunks| == |s.objects|
    && forall i :: 0 <= i < |s.chunks| ==>
         Trim(s.chunks[i]) != "" && decode(Trim(s.chunks[i])) == Some(s.objects[i])
  }

  /** Every emitted value is the decoding of its trimmed, non-empty chunk. */
  lemma {:induction false} EmittedValuesDecodeTheirChunks(t: string, decode: Decoder)
    ensures ChunksDecode(Scan(t, decode), decode)
    decreases |t|
  {
    if |t| > 0 {
      EmittedValuesDecodeTheirChunks(t[..|t| - 1], decode);
      DecodeRule(Scan(t[..|t| - 1], decode), t[|t| - 1], decode);
    }
  }

  /** With a decoder that accepts nothing, nothing is emitted and the whole input remains in the accumulator. */
  lemma RejectingDecoderKeepsEverything(t: string, decode: Decoder)
    requires forall x :: decode(x).None?
    ensures Scan(t, decode).objects == []
    ensures Scan(t, decode).current == t
  {
    EmittedValuesDecodeTheirChunks(t, decode);
    Conservation(t, decode);
  }

  // ---------------------------------------------------------------------
  // String literals

  /** The characters between the quotes of a JSON string: no bare quote, and every backslash followed by one more character. */
  predicate IsStringBody(b: string)
    decreases |b|
  {
    if |b| == 0 then true
    else if b[0] == '\\' then |b| >= 2 && IsStringBody(b[2..])
    else b[0] != '"' && IsStringBody(b[1..])
  }

  /** Text without quotes or backslashes is a string body. */
  lemma {:induction false} PlainTextIsStringBody(p: string)
    requires forall i :: 0 <= i < |p| ==> p[i] != '"' && p[i] != '\\'
    ensures IsStringBody(p)
    decreases |p|
  {
    if |p| > 0 {
      PlainTextIsStringBody(p[1..]);
    }
  }

  /** String bodies concatenate. */
  lemma {:induction false} StringBodyConcat(a: string, b: string)
    requires IsStringBody(a) && IsStringBody(b)
    ensures IsStringBody(a + b)
    decreases |a|
  {
    if |a| > 0 {
      var n := if a[0] == '\\' then 2 else 1;
      StringBodyConcat(a[n..], b);
      assert (a + b)[n..] == a[n..] + b;
    } else {
      assert a + b == b;
    }
  }

  /** The first character of a non-empty string body, or the first two when it starts with a backslash, are only appended. */
  lemma FirstUnitIsInert(s: ScanState, b: string, n: nat, decode: Decoder)
    requires s.inString && !s.escapeNext && s.braceCount != 0
    requires IsStringBody(b) && |b| > 0
    requires n == if b[0] == '\\' then 2 else 1
    ensures n <= |b| && IsStringBody(b[n..])
    ensures ScanFrom(s, b[..n], decode) == s.(current := s.current + b[..n])
  {
    if b[0] == '\\' {
      assert b[..n] == ['\\', b[1]];
      BackslashPairIsLiteral(s, b[1], decode);
    } else {
      assert b[..n] == [b[0]];
      PlainCharInStringIsInert(s, b[0], decode);
    }
  }

  /** Inside a string and inside braces, a string body only grows the accumulator: quotes stay balanced, braces are not counted, nothing is decoded. */
  lemma {:induction false} StringBodyIsInert(s: ScanState, b: string, decode: Decoder)
    requires s.inString && !s.escapeNext && s.braceCount != 0
    requires IsStringBody(b)
    ensures ScanFrom(s, b, decode) == s.(current := s.current + b)
    decreases |b|
  {
    if |b| > 0 {
      var n := if b[0] == '\\' then 2 else 1;
      FirstUnitIsInert(s, b, n, decode);
      var head, rest := b[..n], b[n..];
      assert b == head + rest;
      var s1 := s.(current := s.current + head);
      StringBodyIsInert(s1, rest, decode);
      ScanFromAppend(s, head, rest, decode);
      assert s1.current + rest == s.current + b;
    }
  }

  /** Inside braces, a whole string literal in quotes leaves the counter and both flags as they were and decodes nothing. */
  lemma StringLiteralIsInert(s: ScanState, b: string, decode: Decoder)
    requires !s.inString && !s.escapeNext && s.braceCount != 0
    requires IsStringBody(b)
    ensures ScanFrom(s, "\"" + b + "\"", decode) == s.(current := s.current + ("\"" + b + "\""))
  {
    var inside := s.(current := s.current + "\"" + b, inString := true);
    var after := inside.(current := inside.current + "\"", inString := !inside.inString);
    OpenQuoteAndBody(s, b, decode);
    QuoteToggles(inside, decode);
    Chain(s, "\"" + b, inside, "\"", after, decode);
    QuotedAppend(s.current, b);
  }

  /** Appending a quoted body piece by piece or at once gives the same text. */
  lemma QuotedAppend(x: string, b: string)
    ensures x + "\"" + b + "\"" == x + ("\"" + b + "\"")
  {
  }

  /** An opening quote and a string body: the flag is raised and the accumulator grows. */
  lemma OpenQuoteAndBody(s: ScanState, b: string, decode: Decoder)
    requires !s.inString && !s.escapeNext && s.braceCount != 0
    requires IsStringBody(b)
    ensures ScanFrom(s, "\"" + b, decode) == s.(current := s.current + "\"" + b, inString := true)
  {
    var open := s.(current := s.current + "\"", inString := true);
    QuoteToggles(s, decode);
    StringBodyIsInert(open, b, decode);
    Chain(s, "\"", open, b, open.(current := open.current + b), decode);
  }

  /** Inside braces, an unescaped quote only toggles the string flag and is appended. */
  lemma QuoteToggles(s: ScanState, decode: Decoder)
    requires !s.escapeNext && s.braceCount != 0
    ensures ScanFrom(s, "\"", decode) == s.(current := s.current + "\"", inString := !s.inString)
  {
    ScanFromOne(s, '"', decode);
    assert Count(s, '"') == s.(current := s.current + "\"", inString := !s.inString);
  }

  /** If `a` leads from `s` to `m` and `b` from `m` to `n`, then `a + b` leads from `s` to `n`. */
  lemma Chain(s: ScanState, a: string, m: ScanState, b: string, n: ScanState, decode: Decoder)
    requires ScanFrom(s, a, decode) == m && ScanFrom(m, b, decode) == n
    ensures ScanFrom(s, a + b, decode) == n
  {
    ScanFromAppend(s, a, b, decode);
  }

  // ---------------------------------------------------------------------
  // Object boundaries

  /** `s` with `objs` and `chunks` placed before its history. */
  function WithHistory(s: ScanState, objs: seq<Json>, chunks: seq<string>): ScanState {
    s.(objects := objs + s.objects, chunks := chunks + s.chunks)
  }

  /** A step never looks at the history. */
  lemma StepIgnoresHistory(s: ScanState, objs: seq<Json>, chunks: seq<string>, c: char, decode: Decoder)
    ensures Step(WithHistory(s, objs, chunks), c, decode) == WithHistory(Step(s, c, decode), objs, chunks)
  {
    DecodeRule(s, c, decode);
    DecodeRule(WithHistory(s, objs, chunks), c, decode);
    var v := decode(Trim(s.current + [c]));
    if v.Some? {
      assert (objs + s.objects) + [v.value] == objs + (s.objects + [v.value]);
      assert (chunks + s.chunks) + [s.current + [c]] == chunks + (s.chunks + [s.current + [c]]);
    }
  }

  /** A run never looks at the history either. */
  lemma {:induction false} ScanIgnoresHistory(s: ScanState, objs: seq<Json>, chunks: seq<string>, t: string, decode: Decoder)
    ensures ScanFrom(WithHistory(s, objs, chunks), t, decode) == WithHistory(ScanFrom(s, t, decode), objs, chunks)
    decreases |t|
  {
    if |t| > 0 {
      ScanIgnoresHistory(s, objs, chunks, t[..|t| - 1], decode);
      StepIgnoresHistory(ScanFrom(s, t[..|t| - 1], decode), objs, chunks, t[|t| - 1], decode);
    }
  }

  /** The scanner is back where it started: nothing pending, counter zero, both flags clear. */
  predicate AtBoundary(s: ScanState) {
    s.current == "" && s.braceCount == 0 && !s.inString && !s.escapeNext
  }

  /**
   * When a prefix ends exactly at a value boundary, the rest of the input is
   * scanned as if it stood alone: the values of `a + b` are those of `a`
   * followed by those of `b`.
   */
  lemma ScanSplitsAtBoundary(a: string, b: string, decode: Decoder)
    requires AtBoundary(Scan(a, decode))
    ensures Scan(a + b, decode).objects == Scan(a, decode).objects + Scan(b, decode).objects
  {
    var sa := Scan(a, decode);
    ScanFromAppend(Initial, a, b, decode);
    assert sa == WithHistory(Initial, sa.objects, sa.chunks);
    ScanIgnoresHistory(Initial, sa.objects, sa.chunks, b, decode);
  }

  /** A value spanning the whole text and completed only at its last character. */
  predicate ClosesAtEnd(o: string, v: Json, decode: Decoder) {
    && Scan(o, decode).objects == [v]
    && AtBoundary(Scan(o, decode))
  }

  /** Two values written back to back are found one after the other. */
  lemma BackToBackValues(o1: string, v1: Json, o2: string, v2: Json, decode: Decoder)
    requires ClosesAtEnd(o1, v1, decode) && ClosesAtEnd(o2, v2, decode)
    ensures Scan(o1 + o2, decode).objects == [v1, v2]
    ensures AtBoundary(Scan(o1 + o2, decode))
  {
    ValueAfterBoundary(o1, [v1], o2, v2, decode);
  }

  /** A value that closes at its end, read at a boundary, is appended to the values found before it, and the scanner is back at a boundary. */
  lemma ValueAfterBoundary(a: string, vs: seq<Json>, o: string, v: Json, decode: Decoder)
    requires Scan(a, decode).objects == vs && AtBoundary(Scan(a, decode))
    requires ClosesAtEnd(o, v, decode)
    ensures Scan(a + o, decode).objects == vs + [v]
    ensures AtBoundary(Scan(a + o, decode))
  {
    ScanSplitsAtBoundary(a, o, decode);
    ScanFromAppend(Initial, a, o, decode);
    var sa := Scan(a, decode);
    assert sa == WithHistory(Initial, sa.objects, sa.chunks);
    ScanIgnoresHistory(Initial, sa.objects, sa.chunks, o, decode);
  }

  // ---------------------------------------------------------------------
  // Whitespace between values

  /** A blank prefix does not change the trim. */
  lemma {:induction false} TrimStartDropsBlankPrefix(u: string, x: string)
    requires IsBlank(u)
    ensures TrimStart(u + x) == TrimStart(x)
    decreases |u|
  {
    if |u| > 0 {
      assert (u + x)[0] == u[0];
      assert (u + x)[1..] == u[1..] + x;
      TrimStartDropsBlankPrefix(u[1..], x);
    } else {
      assert u + x == x;
    }
  }

  /** Blank text alone only fills the accumulator: no quote, brace or backslash is seen, and its trim is empty, so nothing is decoded. */
  lemma {:induction false} BlankIsInert(w: string, decode: Decoder)
    requires IsBlank(w)
    ensures Scan(w, decode) == Initial.(current := w)
    decreases |w|
  {
    if |w| > 0 {
      var p, c := w[..|w| - 1], w[|w| - 1];
      BlankWithoutLast(w);
      BlankIsInert(p, decode);
      BlankStep(p, c, decode);
    }
  }

  /** Blank text without its last character is still blank, and that character puts it back. */
  lemma BlankWithoutLast(w: string)
    requires IsBlank(w) && |w| > 0
    ensures IsBlank(w[..|w| - 1]) && w[..|w| - 1] + [w[|w| - 1]] == w
  {
    assert forall i :: 0 <= i < |w| - 1 ==> w[..|w| - 1][i] == w[i];
  }

  /** A whitespace character after blank text is only appended. */
  lemma BlankStep(p: string, c: char, decode: Decoder)
    requires IsBlank(p + [c])
    ensures Step(Initial.(current := p), c, decode) == Initial.(current := p + [c])
  {
    assert IsWhitespace((p + [c])[|p|]);
    WhitespaceIsNotSyntax(c);
    TrimEmptyIffBlank(p + [c]);
  }

  /** No whitespace character is a quote, a brace or a backslash. */
  lemma WhitespaceIsNotSyntax(c: char)
    requires IsWhitespace(c)
    ensures c != '"' && c != '\\' && c != '{' && c != '}'
  {
  }

  /** `s` is `t` with the blank text `u` in front of its accumulator, whatever their chunks. */
  predicate BlankLed(s: ScanState, t: ScanState, u: string) {
    s.(chunks := t.chunks) == t.(current := u + t.current)
  }

  /** A step keeps a blank lead while `t` emits nothing, and drops it when `t` emits: both then emit the same value. */
  lemma StepBlankLed(s: ScanState, t: ScanState, u: string, c: char, decode: Decoder)
    requires IsBlank(u) && BlankLed(s, t, u)
    ensures |Step(t, c, decode).objects| == |t.objects| ==> BlankLed(Step(s, c, decode), Step(t, c, decode), u)
    ensures |Step(t, c, decode).objects| != |t.objects| ==> BlankLed(Step(s, c, decode), Step(t, c, decode), "")
  {
    DecodeRule(s, c, decode);
    DecodeRule(t, c, decode);
    assert s.current + [c] == u + (t.current + [c]);
    TrimStartDropsBlankPrefix(u, t.current + [c]);
  }

  /** A run from `s` follows the run from `t`: the blank lead stays until `t` first emits, and from then on the two agree but for chunks. */
  lemma {:induction false} ScanBlankLed(s: ScanState, t: ScanState, u: string, x: string, decode: Decoder)
    requires IsBlank(u) && BlankLed(s, t, u)
    ensures || (|ScanFrom(t, x, decode).objects| == |t.objects| && BlankLed(ScanFrom(s, x, decode), ScanFrom(t, x, decode), u))
            || BlankLed(ScanFrom(s, x, decode), ScanFrom(t, x, decode), "")
    decreases |x|
  {
    if |x| > 0 {
      var p, c := x[..|x| - 1], x[|x| - 1];
      ScanBlankLed(s, t, u, p, decode);
      var ms, mt := ScanFrom(s, p, decode), ScanFrom(t, p, decode);
      if |mt.objects| == |t.objects| && BlankLed(ms, mt, u) {
        StepBlankLed(ms, mt, u, c, decode);
      } else {
        StepBlankLed(ms, mt, "", c, decode);
      }
    }
  }

  /** Whitespace before a value is trimmed away: the value is still found, and the scanner ends at a boundary. */
  lemma BlankBeforeValue(w: string, o: string, v: Json, decode: Decoder)
    requires IsBlank(w) && ClosesAtEnd(o, v, decode)
    ensures ClosesAtEnd(w + o, v, decode)
  {
    BlankIsInert(w, decode);
    ScanFromAppend(Initial, w, o, decode);
    assert w + Initial.current == w;
    ScanBlankLed(Initial.(current := w), Initial, w, o, decode);
  }

  /** Whitespace after the last value stays in the accumulator and adds no value. */
  lemma BlankAfterValues(a: string, w: string, decode: Decoder)
    requires AtBoundary(Scan(a, decode)) && IsBlank(w)
    ensures Scan(a + w, decode).objects == Scan(a, decode).objects
  {
    ScanSplitsAtBoundary(a, w, decode);
    BlankIsInert(w, decode);
  }

  /** `ws[0] + os[0] + ws[1] + os[1] + ...`: each text in `os` preceded by its separator in `ws`. */
  function Separated(ws: seq<string>, os: seq<string>): string
    requires |ws| == |os|
    decreases |os|
  {
    if |os| == 0 then ""
    else Separated(ws[..|os| - 1], os[..|os| - 1]) + ws[|os| - 1] + os[|os| - 1]
  }

  /** Values that each close at their end, with any whitespace before each of them, are all found, in order. */
  lemma BlankSeparatedValues(ws: seq<string>, os: seq<string>, vs: seq<Json>, decode: Decoder)
    requires |ws| == |os| == |vs|
    requires forall i :: 0 <= i < |os| ==> IsBlank(ws[i]) && ClosesAtEnd(os[i], vs[i], decode)
    ensures Scan(Separated(ws, os), decode).objects == vs
    ensures AtBoundary(Scan(Separated(ws, os), decode))
  {
    BlankSeparatedPrefix(ws, os, vs, |os|, decode);
    assert ws[..|os|] == ws && os[..|os|] == os && vs[..|os|] == vs;
  }

  /** `BlankSeparatedValues` for the first `n` values. */
  lemma {:induction false} BlankSeparatedPrefix(ws: seq<string>, os: seq<string>, vs: seq<Json>, n: nat, decode: Decoder)
    requires |ws| == |os| == |vs| && n <= |os|
    requires forall i :: 0 <= i < |os| ==> IsBlank(ws[i]) && ClosesAtEnd(os[i], vs[i], decode)
    ensures Scan(Separated(ws[..n], os[..n]), decode).objects == vs[..n]
    ensures AtBoundary(Scan(Separated(ws[..n], os[..n]), decode))
  {
    if n > 0 {
      BlankSeparatedPrefix(ws, os, vs, n - 1, decode);
      assert IsBlank(ws[n - 1]) && ClosesAtEnd(os[n - 1], vs[n - 1], decode);
      NextSeparated(ws, os, vs, n - 1, decode);
    }
  }

  /** The step of `BlankSeparatedPrefix`, from the first `m` values to the first `m + 1`. */
  lemma NextSeparated(ws: seq<string>, os: seq<string>, vs: seq<Json>, m: nat, decode: Decoder)
    requires |ws| == |os| == |vs| && m < |os|
    requires IsBlank(ws[m]) && ClosesAtEnd(os[m], vs[m], decode)
    requires Scan(Separated(ws[..m], os[..m]), decode).objects == vs[..m]
    requires AtBoundary(Scan(Separated(ws[..m], os[..m]), decode))
    ensures Scan(Separated(ws[..m + 1], os[..m + 1]), decode).objects == vs[..m + 1]
    ensures AtBoundary(Scan(Separated(ws[..m + 1], os[..m + 1]), decode))
  {
    BlankThenValue(Separated(ws[..m], os[..m]), vs[..m], ws[m], os[m], vs[m], decode);
    SeparatedNext(ws, os, m);
    SliceNext(vs, m);
  }

  /** Read at a boundary, whitespace and then a value that closes at its end add that value and end at a boundary. */
  lemma BlankThenValue(a: string, vs: seq<Json>, w: string, o: string, v: Json, decode: Decoder)
    requires Scan(a, decode).objects == vs && AtBoundary(Scan(a, decode))
    requires IsBlank(w) && ClosesAtEnd(o, v, decode)
    ensures Scan(a + (w + o), decode).objects == vs + [v]
    ensures AtBoundary(Scan(a + (w + o), decode))
  {
    BlankBeforeValue(w, o, v, decode);
    ValueAfterBoundary(a, vs, w + o, v, decode);
  }

  /** One more separator and text extend `Separated`. */
  lemma SeparatedNext(ws: seq<string>, os: seq<string>, m: nat)
    requires |ws| == |os| && m < |os|
    ensures Separated(ws[..m + 1], os[..m + 1]) == Separated(ws[..m], os[..m]) + (ws[m] + os[m])
  {
    var n := m + 1;
    assert ws[..n][..m] == ws[..m] && os[..n][..m] == os[..m];
    assert ws[..n][m] == ws[m] && os[..n][m] == os[m];
  }

  /** The first `m + 1` values are the first `m` and then value `m`. */
  lemma SliceNext(vs: seq<Json>, m: nat)
    requires m < |vs|
    ensures vs[..m + 1] == vs[..m] + [vs[m]]
  {
  }

  // ---------------------------------------------------------------------
  // Examples

  /** The text `{"key":"value"}` of an object with one string member. */
  function OneMemberObject(key: string, value: string): string {
    "{" + ("\"" + key + "\"") + ":" + ("\"" + value + "\"") + "}"
  }

  /**
   * An object with one string member is scanned as one unit, whatever braces,
   * quotes or backslashes its strings hold: the decoder is asked only on the
   * whole text, and what it returns is the only value.
   */
  lemma {:induction false} OneMemberObjectIsOneUnit(key: string, value: string, decode: Decoder)
    requires IsStringBody(key) && IsStringBody(value)
    ensures var o := OneMemberObject(key, value);
            && (decode(o).Some? ==> Scan(o, decode).objects == [decode(o).value] && AtBoundary(Scan(o, decode)))
            && (decode(o).None? ==> Scan(o, decode).objects == [] && Scan(o, decode).current == o)
  {
    var o := OneMemberObject(key, value);
    var body := "{" + ("\"" + key + "\"") + ":" + ("\"" + value + "\"");
    var s4 := Initial.(current := body, braceCount := 1);
    OneMemberObjectBody(key, value, decode);
    assert o == body + "}";
    ClosingBrace(s4, decode);
    assert s4.current + "}" == o;
    assert o[0] == '{' && o[|o| - 1] == '}';
    TrimKeepsNonBlankEnds(o);
    Chain(Initial, body, s4, "}", Step(s4, '}', decode), decode);
  }

  /** Everything of `{"key":"value"}` but the closing brace leaves one brace open and decodes nothing. */
  lemma OneMemberObjectBody(key: string, value: string, decode: Decoder)
    requires IsStringBody(key) && IsStringBody(value)
    ensures var body := "{" + ("\"" + key + "\"") + ":" + ("\"" + value + "\"");
            ScanFrom(Initial, body, decode) == Initial.(current := body, braceCount := 1)
  {
    var opening := "{" + ("\"" + key + "\"") + ":";
    var s3 := Initial.(current := opening, braceCount := 1);
    OpeningWithKey(key, decode);
    StringLiteralIsInert(s3, value, decode);
    Chain(Initial, opening, s3, "\"" + value + "\"", s3.(current := opening + ("\"" + value + "\"")), decode);
  }

  /** The opening `{"key":` leaves one brace open and decodes nothing. */
  lemma OpeningWithKey(key: string, decode: Decoder)
    requires IsStringBody(key)
    ensures var opening := "{" + ("\"" + key + "\"") + ":";
            ScanFrom(Initial, opening, decode) == Initial.(current := opening, braceCount := 1)
  {
    var keyLit := "\"" + key + "\"";
    var s1 := Initial.(current := "{", braceCount := 1);
    OpeningBrace(decode);
    var s2 := s1.(current := s1.current + keyLit);
    StringLiteralIsInert(s1, key, decode);
    Chain(Initial, "{", s1, keyLit, s2, decode);
    PlainCharInObjectIsInert(s2, ':', decode);
    Chain(Initial, "{" + keyLit, s2, ":", s2.(current := s2.current + ":"), decode);
  }

  /** A first `{` opens one brace. */
  lemma OpeningBrace(decode: Decoder)
    ensures ScanFrom(Initial, "{", decode) == Initial.(current := "{", braceCount := 1)
  {
    ScanFromOne(Initial, '{', decode);
    assert Count(Initial, '{') == Initial.(current := "{", braceCount := 1);
  }

  /** Inside braces and outside strings, a character that is no quote, brace or backslash is only appended. */
  lemma PlainCharInObjectIsInert(s: ScanState, c: char, decode: Decoder)
    requires !s.inString && !s.escapeNext && s.braceCount != 0
    requires c != '"' && c != '\\' && c != '{' && c != '}'
    ensures ScanFrom(s, [c], decode) == s.(current := s.current + [c])
  {
    ScanFromOne(s, c, decode);
    assert Count(s, c) == s.(current := s.current + [c]);
  }

  /** The `}` closing the last open brace brings the counter to zero and offers the accumulator to the decoder. */
  lemma ClosingBrace(s: ScanState, decode: Decoder)
    requires !s.inString && !s.escapeNext && s.braceCount == 1
    ensures ScanFrom(s, "}", decode) == TryDecode(s.(current := s.current + "}", braceCount := 0), decode)
  {
    ScanFromOne(s, '}', decode);
    assert Count(s, '}') == s.(current := s.current + "}", braceCount := 0);
  }

  /** `a { b } c \" d`: braces, and an escaped quote, inside a string. */
  lemma BracesAndEscapedQuoteFormAStringBody()
    ensures IsStringBody("a { b } c \\\" d")
  {
    EscapedQuoteThenText();
    PlainTextIsStringBody("a { b } c ");
    StringBodyConcat("a { b } c ", "\\\" d");
    assert "a { b } c " + "\\\" d" == "a { b } c \\\" d";
  }

  /** `\" d` is a string body. */
  lemma EscapedQuoteThenText()
    ensures IsStringBody("\\\" d")
  {
    PlainTextIsStringBody(" d");
    assert IsStringBody("\\\"");
    StringBodyConcat("\\\"", " d");
    assert "\\\"" + " d" == "\\\" d";
  }

  /** The object `{"k":"a { b } c \" d"}`, whose string value holds braces and an escaped quote, is one unit. */
  lemma BracesInStringScanAsOneObject(key: string, value: string, decode: Decoder)
    requires key == "k" && value == "a { b } c \\\" d"
    ensures var o := OneMemberObject(key, value);
            && (decode(o).Some? ==> Scan(o, decode).objects == [decode(o).value])
            && (decode(o).None? ==> Scan(o, decode).objects == [])
  {
    BracesAndEscapedQuoteFormAStringBody();
    OneMemberObjectIsOneUnit(key, value, decode);
  }

  /**
   * At depth zero any text the decoder accepts is emitted, not only objects:
   * a bare `1` with no brace at all becomes a value.
   */
  lemma ScalarAtDepthZeroIsEmitted(text: string, decode: Decoder)
    requires text == "1" && decode(text) == Some(JNumber(1))
    ensures Scan(text, decode).objects == [JNumber(1)]
  {
    var c := text[0];
    assert c == '1';
    assert text == [c];
    ScanFromOne(Initial, c, decode);
    assert Count(Initial, c) == Initial.(current := text);
    DigitIsNotWhitespace(c);
    TrimKeepsNonBlankEnds(text);
  }

  /** No decimal digit is white space. */
  lemma DigitIsNotWhitespace(c: char)
    requires '0' <= c <= '9'
    ensures !IsWhitespace(c)
  {
  }
}
