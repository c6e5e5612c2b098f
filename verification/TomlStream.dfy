// The line loop as one automaton over the whole byte stream (release_tools/installer.py, 727-853).
//
// The scanner skips the lexical advance on header lines and works line by line; a successful scan
// is nevertheless in the state of the byte-at-a-time automaton at the start of every line.
module TomlStream {
  import opened Basics
  import opened TomlLexer
  import opened TomlHeader
  import opened TomlScan
  import Utf8

  function StepByte(a: Automaton, c: char): Automaton {
    if LineBreak(c) then BeginLine(EndLine(a)) else Step(a, c)
  }

  function RunBytes(s: Bytes, a: Automaton): Automaton {
    if s == "" then a else RunBytes(s[1..], StepByte(a, s[0]))
  }

  const OUTSIDE := Automaton(Plain, 0, 0)

  // ---------------------------------------------------------------- bytes and characters lex alike

  // Past ASCII, one character and its several bytes move the automaton the same way.
  lemma StepPastAscii(a: Automaton, c: char, d: char)
    requires c as int >= 0x80 && d as int >= 0x80
    ensures Step(Step(a, c), d) == Step(a, c) && Step(a, c) == Step(a, d)
  {
  }

  lemma {:induction false} RunPastAscii(s: Bytes, a: Automaton, c: char)
    requires c as int >= 0x80 && s != ""
    requires forall i :: 0 <= i < |s| ==> s[i] as int >= 0x80
    ensures Run(s, a) == Step(a, c)
  {
    StepPastAscii(a, s[0], c);
    StepPastAscii(a, c, c);
    if |s| > 1 {
      RunPastAscii(s[1..], Step(a, s[0]), c);
    } else {
      assert s[1..] == "";
    }
  }

  lemma DecodedOne(s: Bytes)
    requires s != "" && Utf8.DecodeOne(s).Some?
    ensures var (c, n) := Utf8.DecodeOne(s).value;
      if s[0] as int < 0x80 then c == s[0] && n == 1
      else c as int >= 0x80 && forall i :: 0 <= i < n ==> s[i] as int >= 0x80
  {
  }

  lemma {:induction false} RunDecoded(s: Bytes, a: Automaton)
    requires Utf8.Decode(s).Some?
    ensures Run(s, a) == Run(Utf8.Decode(s).value, a)
    decreases |s|
  {
    if s != "" {
      var (c, n) := Utf8.DecodeOne(s).value;
      var rest := Utf8.Decode(s[n..]).value;
      DecodedOne(s);
      hide Step;
      assert Utf8.Decode(s).value == [c] + rest;
      assert ([c] + rest)[1..] == rest;
      assert s == s[..n] + s[n..];
      RunAppend(s[..n], s[n..], a);
      if s[0] as int < 0x80 {
        assert s[..n] == [c] && [c][1..] == "";
      } else {
        RunPastAscii(s[..n], a, c);
      }
      RunDecoded(s[n..], Step(a, c));
    }
  }

  // ---------------------------------------------------------------- an accepted header closes itself

  lemma RunBlanks(s: string, a: Automaton)
    requires AllSpace(s) && a.mode == Plain
    ensures Run(s, a) == a
  {
    RunPlain(s, a);
  }

  lemma RunLiteralKey(t: string, a: Automaton)
    requires t != "" && '\'' !in t && a.mode == Plain
    ensures Run("'" + (t + "'"), a) == a
  {
    var inside := a.(mode := InLiteral);
    assert ("'" + (t + "'"))[1..] == t + "'";
    RunAppend(t, "'", a.(mode := Tick1));
    assert t[0] in t;
    assert Step(a.(mode := Tick1), t[0]) == Step(inside, t[0]);
    assert Run(t, a.(mode := Tick1)) == Run(t, inside);
    assert t[0..|t|] == t;
    InsideLiteral(t, 0, |t|, inside);
    assert Run("'", inside) == Run("", a);
  }

  lemma {:induction false} RunHex(digits: string, a: Automaton)
    requires a.mode == InBasic(false) && forall c :: c in digits ==> HexDigit(c)
    ensures Run(digits, a) == a
  {
    if digits != "" {
      assert digits[0] in digits;
      RunHex(digits[1..], a);
    }
  }

  lemma RunPiece(p: Piece, a: Automaton)
    requires ValidPiece(p) && a.mode == InBasic(false)
    ensures Run(PrintPiece(p), a) == a
    ensures PrintPiece(p) != "" && PrintPiece(p)[0] != '"'
  {
    match p
    case Raw(c) =>
      assert [c][1..] == "";
    case Letter(l) =>
      var s := PrintPiece(p);
      assert s[1..] == [l] && s[1..][1..] == "";
      assert Run(s, a) == Run(s[1..], a.(mode := InBasic(true))) == Run("", a);
    case Numeric(m, digits) =>
      var s := PrintPiece(p);
      assert s[1..] == [m] + digits && ([m] + digits)[1..] == digits;
      assert Run(s, a) == Run(s[1..], a.(mode := InBasic(true))) == Run(digits, a);
      RunHex(digits, a);
  }

  lemma {:induction false} RunPieces(ps: seq<Piece>, a: Automaton)
    requires (forall p :: p in ps ==> ValidPiece(p)) && a.mode == InBasic(false)
    ensures Run(PrintPieces(ps), a) == a
    ensures ps != [] ==> PrintPieces(ps) != "" && PrintPieces(ps)[0] != '"'
  {
    if ps != [] {
      RunPiece(ps[0], a);
      RunPieces(ps[1..], a);
      RunAppend(PrintPiece(ps[0]), PrintPieces(ps[1..]), a);
    }
  }

  lemma RunBasicKey(ps: seq<Piece>, a: Automaton)
    requires ps != [] && (forall p :: p in ps ==> ValidPiece(p)) && a.mode == Plain
    ensures Run("\"" + (PrintPieces(ps) + "\""), a) == a
  {
    var body, inside, quote := PrintPieces(ps), a.(mode := InBasic(false)), a.(mode := Quote1);
    RunPieces(ps, inside);
    assert ("\"" + (body + "\""))[1..] == body + "\"";
    RunAppend(body, "\"", quote);
    assert Step(quote, body[0]) == Step(inside, body[0]);
    assert Run(body, quote) == Run(body, inside);
    assert Run("\"", inside) == Run("", a);
  }

  lemma RunKey(k: Spelling, a: Automaton)
    requires ValidSpelling(k) && a.mode == Plain
    ensures Run(PrintKey(k), a) == a
  {
    match k
    case Bare(t) =>
      forall i | 0 <= i < |t|
        ensures PlainChar(t[i])
      {
        assert t[i] in t;
      }
      RunPlain(t, a);
    case LiteralQuoted(t) => RunLiteralKey(t, a);
    case BasicQuoted(ps) => RunBasicKey(ps, a);
  }

  lemma RunPart(p: Part, tail: string, a: Automaton)
    requires ValidPart(p) && a.mode == Plain
    ensures Run(PrintPart(p, tail), a) == Run(tail, a)
  {
    RunAppend(p.before, PrintKey(p.key) + (p.after + tail), a);
    RunBlanks(p.before, a);
    RunAppend(PrintKey(p.key), p.after + tail, a);
    RunKey(p.key, a);
    RunAppend(p.after, tail, a);
    RunBlanks(p.after, a);
  }

  lemma RunTrailing(t: string, a: Automaton)
    requires ValidTrailing(t) && a.mode == Plain
    ensures EndLine(Run(t, a)) == EndLine(a)
  {
    var rest := DropSpace(t);
    RunAppend(TakeSpace(t), rest, a);
    RunBlanks(TakeSpace(t), a);
    if rest != "" {
      InsideComment(rest[1..], a.(mode := Comment));
    }
  }

  function Depth(arrayed: bool): nat {
    if arrayed then 2 else 1
  }

  lemma RunCloser(arrayed: bool, trailing: string)
    requires ValidTrailing(trailing)
    ensures EndLine(Run(Closer(arrayed) + trailing, OUTSIDE.(square := Depth(arrayed)))) == AT_BOUNDARY
  {
    var a := OUTSIDE.(square := Depth(arrayed));
    RunAppend(Closer(arrayed), trailing, a);
    if arrayed {
      assert "]]"[1..] == "]" && "]"[1..] == "";
      assert Run("]]", a) == Run("]", OUTSIDE.(square := 1)) == Run("", OUTSIDE);
    } else {
      assert "]"[1..] == "";
    }
    RunTrailing(trailing, OUTSIDE);
  }

  lemma {:induction false} RunParts(ps: seq<Part>, arrayed: bool, trailing: string)
    requires ValidParts(ps) && ValidTrailing(trailing)
    ensures EndLine(Run(PrintParts(ps, arrayed, trailing), OUTSIDE.(square := Depth(arrayed)))) == AT_BOUNDARY
  {
    var a := OUTSIDE.(square := Depth(arrayed));
    assert ValidPart(ps[0]);
    if |ps| == 1 {
      RunPart(ps[0], Closer(arrayed) + trailing, a);
      RunCloser(arrayed, trailing);
    } else {
      var inner := PrintParts(ps[1..], arrayed, trailing);
      RunPart(ps[0], "." + inner, a);
      assert ("." + inner)[1..] == inner;
      RunParts(ps[1..], arrayed, trailing);
    }
  }

  lemma RunHeader(h: TomlHeader.Header)
    requires ValidHeader(h)
    ensures EndLine(Run(Print(h), OUTSIDE)) == AT_BOUNDARY
  {
    var body := PrintParts(h.parts, h.arrayed, h.trailing);
    var open := if h.arrayed then "[[" else "[";
    RunAppend(h.indent, open + body, OUTSIDE);
    RunBlanks(h.indent, OUTSIDE);
    RunAppend(open, body, OUTSIDE);
    if h.arrayed {
      assert "[["[1..] == "[" && "["[1..] == "";
      assert Run("[[", OUTSIDE) == Run("[", OUTSIDE.(square := 1)) == Run("", OUTSIDE.(square := 2));
    } else {
      assert "["[1..] == "";
    }
    RunParts(h.parts, h.arrayed, h.trailing);
  }

  // Advancing over an accepted header line would have changed nothing.
  lemma HeaderClosesItself(line: Bytes)
    requires RawHeaderSegments(line).Ok?
    ensures Advance(line, AT_BOUNDARY) == AT_BOUNDARY
  {
    var text := Utf8.Decode(line).value;
    RunDecoded(line, OUTSIDE);
    var kept := StripBreaks(text);
    PrintParsed(kept);
    RunHeader(ParseHeader(kept).value);
    StrippedRun(text, kept);
  }

  // Line breaks after closed text leave it closed.
  lemma {:induction false} StrippedRun(text: string, kept: string)
    requires kept == StripBreaks(text)
    requires EndLine(Run(kept, OUTSIDE)) == AT_BOUNDARY
    ensures EndLine(Run(text, OUTSIDE)) == AT_BOUNDARY
  {
    if text != "" && LineBreak(text[|text| - 1]) {
      var shorter := text[..|text| - 1];
      StrippedRun(shorter, kept);
      assert text == shorter + [text[|text| - 1]];
      RunAppend(shorter, [text[|text| - 1]], OUTSIDE);
      assert [text[|text| - 1]][1..] == "";
    }
  }

  // ---------------------------------------------------------------- the whole stream

  lemma {:induction false} RunBytesAppend(s: Bytes, t: Bytes, a: Automaton)
    ensures RunBytes(s + t, a) == RunBytes(t, RunBytes(s, a))
  {
    if s == "" {
      assert s + t == t;
    } else {
      assert (s + t)[1..] == s[1..] + t;
      RunBytesAppend(s[1..], t, StepByte(a, s[0]));
    }
  }

  lemma {:induction false} RunBytesInLine(line: Bytes, a: Automaton)
    requires forall i :: 0 <= i < |line| ==> !LineBreak(line[i])
    ensures RunBytes(line, a) == Run(line, a)
  {
    if line != "" {
      assert !LineBreak(line[0]);
      RunBytesInLine(line[1..], StepByte(a, line[0]));
    }
  }

  // A first line is text without breaks and then at most one break.
  lemma {:induction false} FirstLineShape(data: Bytes) returns (line: Bytes, end: Bytes)
    requires data != ""
    ensures data[..FirstLine(data)] == line + end
    ensures forall i :: 0 <= i < |line| ==> !LineBreak(line[i])
    ensures end == "" || end == "\n" || end == "\r" || end == "\r\n"
    ensures FirstLine(data) < |data| ==> end != ""
  {
    var n := FirstLine(data);
    if LineBreak(data[0]) {
      line, end := "", data[..n];
    } else if |data| == 1 {
      line, end := data, "";
    } else {
      line, end := FirstLineShape(data[1..]);
      assert data[..n] == [data[0]] + data[1..][..n - 1];
      Assoc([data[0]], line, end);
      line := [data[0]] + line;
    }
  }

  lemma StripEnd(line: Bytes, end: Bytes)
    requires forall i :: 0 <= i < |line| ==> !LineBreak(line[i])
    requires end == "" || end == "\n" || end == "\r" || end == "\r\n"
    ensures StripBreaks(line + end) == line
  {
    if end == "" {
      assert line + end == line;
    } else if |end| == 1 {
      assert (line + end)[..|line|] == line;
    } else {
      assert (line + end)[..|line| + 1] == line + "\r";
      assert (line + "\r")[..|line|] == line;
    }
  }

  lemma RunRawLine(data: Bytes, a: Automaton)
    requires data != ""
    ensures var raw := data[..FirstLine(data)];
      EndLine(RunBytes(raw, a)) == EndLine(Run(StripBreaks(raw), a))
    ensures FirstLine(data) < |data| ==>
      RunBytes(data[..FirstLine(data)], a) == BeginLine(EndLine(Run(StripBreaks(data[..FirstLine(data)]), a)))
  {
    var line, end := FirstLineShape(data);
    StripEnd(line, end);
    RunBytesAppend(line, end, a);
    RunBytesInLine(line, a);
    RunBreaks(end, Run(line, a));
  }

  lemma RunBreaks(tail: Bytes, b: Automaton)
    requires tail == "" || tail == "\n" || tail == "\r" || tail == "\r\n"
    ensures RunBytes(tail, b) == if tail == "" then b else BeginLine(EndLine(b))
  {
    if tail != "" {
      assert "\n"[1..] == "" && "\r"[1..] == "" && "\r\n"[1..] == "\n";
      assert RunBytes(tail, b) == RunBytes(tail[1..], BeginLine(EndLine(b)));
      assert RunBytes("\n", BeginLine(EndLine(b))) == RunBytes("", BeginLine(EndLine(b)));
    }
  }

  lemma ReadAdvances(line: Bytes, st: ScanState, length: nat)
    requires Record(Read(line, st.lex), length, st).Ok?
    ensures Record(Read(line, st.lex), length, st).value.lex == Advance(line, st.lex)
  {
    hide RawHeaderSegments;
    if st.lex == AT_BOUNDARY && HeaderLine(line) {
      HeaderClosesItself(line);
    }
  }

  // A successful scan ends in the state the automaton reaches over all the bytes, header lines
  // included: skipping them loses nothing.
  lemma {:induction false} ScanFollowsAutomaton(data: Bytes, st: ScanState)
    requires ScanLines(data, st).Ok?
    ensures ScanLines(data, st).value.lex == EndLine(RunBytes(data, BeginLine(st.lex)))
    decreases |data|
  {
    hide Read;
    hide Advance;
    var a := BeginLine(st.lex);
    if data != "" {
      var n := FirstLine(data);
      var raw := data[..n];
      ScanOne(data, st);
      var mid := ScanLine(raw, st).value;
      ReadAdvances(StripBreaks(raw), st, n);
      RunRawLine(data, a);
      assert data == raw + data[n..];
      RunBytesAppend(raw, data[n..], a);
      AdvanceIs(StripBreaks(raw), st.lex);
      ScanFollowsAutomaton(data[n..], mid);
      if n == |data| {
        assert data[n..] == "";
      }
    }
  }

  lemma AdvanceIs(line: Bytes, lex: LexState)
    ensures Advance(line, lex) == EndLine(Run(line, BeginLine(lex)))
  {
  }

  // A table header is reported only where the automaton over the bytes before it is outside every
  // string, comment and collection.
  lemma HeadersAreOutside(data: Bytes, i: nat)
    requires Scan(data).Ok? && i < |Scan(data).value.headers|
    ensures var start := Scan(data).value.headers[i].start;
      start <= |data| && EndLine(RunBytes(data[..start], OUTSIDE)) == AT_BOUNDARY
  {
    hide Read;
    var a, b := HeaderCut(data, START, i);
    assert data[..|a|] == a;
    ScanFollowsAutomaton(a, START);
  }
}
