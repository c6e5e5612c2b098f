// What the scanner reports of a document, from the grammar of documents alone
// (release_tools/installer.py, 798-913).
//
// A document is a sequence of table headers, assignments and blank lines.  However its keys are
// spelled and whatever its values hold, scanning it reports its headers and its assignments, each
// where it stands, and nothing else.
module TomlDocument {
  import opened Basics
  import opened TomlLexer
  import opened TomlHeader
  import opened TomlScan
  import opened TomlStream
  import opened TomlValues
  import Utf8

  datatype Statement =
    | TableLine(header: TomlHeader.Header)
    | Assignment(indent: string, key: seq<Part>, gap: string, value: seq<Item>, trailing: string)
    | EmptyLine(text: string)

  // A statement and its line break.
  datatype Line = Line(statement: Statement, end: Bytes)

  // ---------------------------------------------------------------- printing

  // A dotted key as it stands before its equals sign.
  function KeyText(ps: seq<Part>): string
    requires ps != []
  {
    PrintPart(ps[0], if |ps| == 1 then "" else "." + KeyText(ps[1..]))
  }

  function KeyBytes(key: seq<Part>): Bytes {
    if key == [] then "" else Utf8.Encode(KeyText(key))
  }

  function PrintStatement(s: Statement): Bytes {
    match s
    case TableLine(h) => if h.parts == [] then "" else Utf8.Encode(Print(h))
    case Assignment(indent, key, gap, value, trailing) =>
      (indent + KeyBytes(key) + gap) + ("=" + (PrintItems(value) + trailing))
    case EmptyLine(text) => text
  }

  function PrintLine(l: Line): Bytes {
    PrintStatement(l.statement) + l.end
  }

  function PrintDocument(doc: seq<Line>): Bytes {
    if doc == [] then "" else PrintLine(doc[0]) + PrintDocument(doc[1..])
  }

  // ---------------------------------------------------------------- well-formed documents

  // The blanks around a whole key belong to its indent and its gap.
  ghost predicate ValidStatement(s: Statement) {
    match s
    case TableLine(h) => ValidHeader(h) && Unbroken(Print(h))
    case Assignment(indent, key, gap, value, trailing) =>
      && AllSpace(indent) && AllSpace(gap)
      && ValidParts(key) && key[0].before == "" && key[|key| - 1].after == "" && Unbroken(KeyText(key))
      && ValidItems(value, false, trailing + "\n") && ValidTrailing(trailing) && Unbroken(trailing)
    case EmptyLine(text) => ValidTrailing(text) && Unbroken(text)
  }

  ghost predicate ValidLine(l: Line) {
    ValidStatement(l.statement) && (l.end == "\n" || l.end == "\r\n")
  }

  ghost predicate ValidDocument(doc: seq<Line>) {
    forall l :: l in doc ==> ValidLine(l)
  }

  // ---------------------------------------------------------------- what it says

  // A statement that begins at this offset, after the findings so far.
  function Says(s: Statement, length: nat, st: ScanState): ScanState {
    match s
    case TableLine(h) =>
      var segments := Segments(h.parts);
      ScanState(st.headers + [HeaderAt(st.offset, h.arrayed, segments)], st.assignments, segments, st.lex,
                st.offset + length)
    case Assignment(_, key, _, _, _) =>
      st.(assignments := st.assignments + [AssignmentAt(st.offset, st.current, Segments(key))],
          offset := st.offset + length)
    case EmptyLine(_) => st.(offset := st.offset + length)
  }

  function SaysAll(doc: seq<Line>, st: ScanState): ScanState {
    if doc == [] then st else SaysAll(doc[1..], Says(doc[0].statement, |PrintLine(doc[0])|, st))
  }

  // ---------------------------------------------------------------- lines inside a value

  // Text that begins and goes on inside a value reports nothing.
  lemma {:induction false} ScanInsideValue(body: Bytes, end: Bytes, st: ScanState)
    requires end == "\n" || end == "\r\n"
    requires st.lex != AT_BOUNDARY && Quiet(body, BeginLine(st.lex))
    ensures ScanLines(body + end, st)
      == Ok(st.(lex := EndLine(RunBytes(body + end, BeginLine(st.lex))), offset := st.offset + |body + end|))
    decreases |body|
  {
    hide Read, ScanLines, Quiet, RunBytes;
    var s := body + end;
    var n := FirstLine(s);
    var raw := s[..n];
    InsideReads(StripBreaks(raw), st, n);
    ScanOne(s, st);
    RunRawLine(s, BeginLine(st.lex));
    AdvanceIs(StripBreaks(raw), st.lex);
    var mid := st.(lex := Advance(StripBreaks(raw), st.lex), offset := st.offset + n);
    if n == |s| {
      assert s[n..] == "" && raw == s;
      ScanNone(mid);
    } else {
      LineEndsInBody(body, end);
      var rest := body[n..];
      assert s[n..] == rest + end && raw == body[..n];
      assert body == raw + rest && s == raw + (rest + end);
      QuietAt(body, BeginLine(st.lex), n);
      QuietAppend(raw, rest, BeginLine(st.lex));
      RunBytesAppend(raw, rest + end, BeginLine(st.lex));
      LineLeads(s, st.lex);
      ScanInsideValue(rest, end, mid);
    }
  }

  lemma InsideReads(line: Bytes, st: ScanState, n: nat)
    requires st.lex != AT_BOUNDARY
    ensures Record(Read(line, st.lex), n, st) == Ok(st.(lex := Advance(line, st.lex), offset := st.offset + n))
  {
    hide Advance;
    assert st.assignments + [] == st.assignments;
  }

  // A line that is not the last ends within the body.
  lemma LineEndsInBody(body: Bytes, end: Bytes)
    requires end == "\n" || end == "\r\n"
    requires FirstLine(body + end) < |body + end|
    ensures var n := FirstLine(body + end); 0 < n <= |body| && LineBreak(body[n - 1])
  {
    var s := body + end;
    var n := FirstLine(s);
    FirstLineCut(s);
    var line, tail := FirstLineShape(s);
    assert s[n - 1] == (line + tail)[n - 1];
    assert s[..n][n - 1] == s[n - 1] && s[n..][0] == s[n];
  }

  lemma LineLeads(s: Bytes, lex: LexState)
    requires s != "" && FirstLine(s) < |s|
    ensures var raw := s[..FirstLine(s)];
      RunBytes(raw, BeginLine(lex)) == BeginLine(Advance(StripBreaks(raw), lex))
      && EndLine(RunBytes(raw, BeginLine(lex))) == Advance(StripBreaks(raw), lex)
  {
    RunRawLine(s, BeginLine(lex));
    AdvanceIs(StripBreaks(s[..FirstLine(s)]), lex);
    BreakKeeps(Run(StripBreaks(s[..FirstLine(s)]), BeginLine(lex)));
  }

  // A statement that begins at a boundary and is no header: its first line says it all.
  lemma ScanFromBoundary(body: Bytes, end: Bytes, st: ScanState)
    requires end == "\n" || end == "\r\n"
    requires st.lex == AT_BOUNDARY && Quiet(body, OUTSIDE)
    requires EndLine(RunBytes(body + end, OUTSIDE)) == AT_BOUNDARY
    requires !HeaderLine(StripBreaks((body + end)[..FirstLine(body + end)]))
    ensures var line := StripBreaks((body + end)[..FirstLine(body + end)]);
      var key := if StatementLine(line) then AssignmentKey(line) else None;
      ScanLines(body + end, st)
        == Ok(st.(assignments := st.assignments
                    + (if key.Some? then [AssignmentAt(st.offset, st.current, key.value)] else []),
                  offset := st.offset + |body + end|))
  {
    hide ScanLines, Quiet, RunBytes, AssignmentKey, StatementLine, HeaderLine, Advance, FirstLine, StripBreaks;
    var s := body + end;
    var n := FirstLine(s);
    var raw := s[..n];
    var line := StripBreaks(raw);
    ScanOne(s, st);
    RunRawLine(s, OUTSIDE);
    AdvanceIs(line, AT_BOUNDARY);
    var mid := Record(Read(line, st.lex), n, st).value;
    if n == |s| {
      assert s[n..] == "" && raw == s;
      ScanNone(mid);
    } else {
      LineEndsInBody(body, end);
      var rest := body[n..];
      assert s[n..] == rest + end && raw == body[..n];
      assert body == raw + rest && s == raw + (rest + end);
      QuietAt(body, OUTSIDE, n);
      QuietAppend(raw, rest, OUTSIDE);
      RunBytesAppend(raw, rest + end, OUTSIDE);
      LineLeads(s, AT_BOUNDARY);
      ScanInsideValue(rest, end, mid);
    }
  }

  // ---------------------------------------------------------------- text and its bytes

  lemma EncodedOne(c: char)
    ensures c as int < 0x80 ==> Utf8.EncodeOne(c) == [c]
    ensures c as int >= 0x80 ==> forall i :: 0 <= i < |Utf8.EncodeOne(c)| ==> Utf8.EncodeOne(c)[i] as int >= 0x80
  {
  }

  lemma {:induction false} EncodeAppend(s: string, t: string)
    ensures Utf8.Encode(s + t) == Utf8.Encode(s) + Utf8.Encode(t)
  {
    if s == "" {
      assert s + t == t;
    } else {
      assert (s + t)[1..] == s[1..] + t;
      EncodeAppend(s[1..], t);
      Assoc(Utf8.EncodeOne(s[0]), Utf8.Encode(s[1..]), Utf8.Encode(t));
    }
  }

  lemma {:induction false} EncodeAscii(s: string)
    requires Utf8.Ascii(s)
    ensures Utf8.Encode(s) == s
  {
    if s != "" {
      EncodedOne(s[0]);
      EncodeAscii(s[1..]);
      Uncons(s);
    }
  }

  // An ASCII character that is not in a text is not in its bytes.
  lemma {:induction false} EncodeAvoids(s: string, c: char)
    requires c as int < 0x80 && c !in s
    ensures c !in Utf8.Encode(s)
  {
    if s != "" {
      assert s[0] in s && forall x :: x in s[1..] ==> x in s;
      EncodedOne(s[0]);
      EncodeAvoids(s[1..], c);
    }
  }

  lemma EncodeUnbroken(s: string)
    requires Unbroken(s)
    ensures Unbroken(Utf8.Encode(s))
  {
    assert '\n' !in s && '\r' !in s;
    EncodeAvoids(s, '\n');
    EncodeAvoids(s, '\r');
    var b := Utf8.Encode(s);
    assert forall i :: 0 <= i < |b| ==> b[i] in b;
  }

  lemma EncodeStart(s: string)
    requires s != "" && s[0] as int < 0x80
    ensures Utf8.Encode(s) != "" && Utf8.Encode(s)[0] == s[0]
  {
    EncodedOne(s[0]);
  }

  // ---------------------------------------------------------------- blank lines and headers

  lemma OneLine(line: Bytes, end: Bytes)
    requires Unbroken(line) && (end == "\n" || end == "\r\n")
    ensures FirstLine(line + end) == |line + end| && StripBreaks(line + end) == line
    ensures (line + end)[..|line + end|] == line + end
  {
    StripEnd(line, end);
    var n := FirstLine(line + end);
    if n < |line + end| {
      LineEndsInBody(line, end);
    }
  }

  lemma ScanOneLine(line: Bytes, end: Bytes, st: ScanState)
    requires Unbroken(line) && (end == "\n" || end == "\r\n")
    ensures ScanLines(line + end, st) == Record(Read(line, st.lex), |line + end|, st)
  {
    hide Read, ScanLines, FirstLine, StripBreaks;
    OneLine(line, end);
    ScanLastLine(line + end, st);
  }

  lemma ScanEmptyLine(text: string, end: Bytes, st: ScanState)
    requires ValidTrailing(text) && Unbroken(text) && (end == "\n" || end == "\r\n")
    requires st.lex == AT_BOUNDARY
    ensures ScanLines(text + end, st) == Ok(st.(offset := st.offset + |text + end|))
  {
    hide Read, ScanLines, ValidTrailing, Unbroken;
    ScanOneLine(text, end, st);
    EmptyReads(text);
    assert st.assignments + [] == st.assignments;
  }

  lemma EmptyReads(text: string)
    requires ValidTrailing(text)
    ensures Read(text, AT_BOUNDARY) == Other(None, AT_BOUNDARY)
  {
    hide Run, Advance, AssignmentKey, RawHeaderSegments;
    RunTrailing(text, OUTSIDE);
    AdvanceIs(text, AT_BOUNDARY);
  }

  lemma HeaderBytes(h: TomlHeader.Header)
    requires ValidHeader(h) && Unbroken(Print(h))
    ensures var line := Utf8.Encode(Print(h));
      HeaderLine(line) && RawHeaderSegments(line) == Ok((h.arrayed, Segments(h.parts)))
  {
    var rest := (if h.arrayed then "[[" else "[") + PrintParts(h.parts, h.arrayed, h.trailing);
    assert rest[0] == '[';
    EncodeAscii(h.indent);
    EncodeAppend(h.indent, rest);
    EncodeStart(rest);
    TakeSpaceOf(h.indent, Utf8.Encode(rest));
    Utf8.DecodeEncode(Print(h));
    hide PrintParts, Utf8.Encode;
    ParsePrinted(h);
  }

  lemma ScanTableLine(h: TomlHeader.Header, end: Bytes, st: ScanState)
    requires ValidStatement(TableLine(h)) && (end == "\n" || end == "\r\n") && st.lex == AT_BOUNDARY
    ensures ScanLines(Utf8.Encode(Print(h)) + end, st)
      == Ok(Says(TableLine(h), |Utf8.Encode(Print(h)) + end|, st))
  {
    hide RawHeaderSegments, HeaderLine;
    EncodeUnbroken(Print(h));
    ScanOneLine(Utf8.Encode(Print(h)), end, st);
    HeaderBytes(h);
  }

  // ---------------------------------------------------------------- the key of an assignment

  // Going over this text, the search for the equals sign goes on after it.
  predicate Skips(s: Bytes, rest: Bytes) {
    EqualsAt(s + rest, None, false) == Later(|s|, EqualsAt(rest, None, false))
  }

  function Later(n: nat, r: Option<nat>): Option<nat> {
    match r case None => None case Some(k) => Some(n + k)
  }

  lemma SkipsOn(s: Bytes, t: Bytes, rest: Bytes)
    requires Skips(s, t + rest) && Skips(t, rest)
    ensures Skips(s + t, rest)
  {
    Assoc(s, t, rest);
  }

  lemma {:induction false} SkipsPlain(s: Bytes, rest: Bytes)
    requires forall i :: 0 <= i < |s| ==> s[i] != '=' && s[i] != '#' && s[i] != '"' && s[i] != '\''
    ensures Skips(s, rest)
  {
    if s == "" {
      assert s + rest == rest;
    } else {
      assert (s + rest)[1..] == s[1..] + rest;
      SkipsPlain(s[1..], rest);
    }
  }

  // Within a basic string: no quote that is not escaped, and nothing left to escape at its end.
  predicate QuotedText(s: Bytes, escaped: bool) {
    if s == "" then !escaped
    else if escaped then QuotedText(s[1..], false)
    else s[0] != '"' && QuotedText(s[1..], s[0] == '\\')
  }

  lemma {:induction false} SkipsQuoted(s: Bytes, escaped: bool, rest: Bytes)
    requires QuotedText(s, escaped)
    ensures EqualsAt(s + ("\"" + rest), Some('"'), escaped) == Later(|s| + 1, EqualsAt(rest, None, false))
  {
    var all := s + ("\"" + rest);
    if s == "" {
      assert all == "\"" + rest && all[1..] == rest;
    } else {
      assert all[1..] == s[1..] + ("\"" + rest);
      SkipsQuoted(s[1..], !escaped && s[0] == '\\', rest);
    }
  }

  lemma {:induction false} SkipsTicked(s: Bytes, rest: Bytes)
    requires '\'' !in s
    ensures EqualsAt(s + ("'" + rest), Some('\''), false) == Later(|s| + 1, EqualsAt(rest, None, false))
  {
    var all := s + ("'" + rest);
    if s == "" {
      assert all == "'" + rest && all[1..] == rest;
    } else {
      assert s[0] in s;
      assert all[1..] == s[1..] + ("'" + rest);
      SkipsTicked(s[1..], rest);
    }
  }

  lemma {:induction false} QuotedAppend(s: Bytes, t: Bytes, escaped: bool)
    requires QuotedText(s, escaped) && QuotedText(t, false)
    ensures QuotedText(s + t, escaped)
  {
    if s == "" {
      assert s + t == t;
    } else {
      assert (s + t)[1..] == s[1..] + t;
      QuotedAppend(s[1..], t, !escaped && s[0] == '\\');
    }
  }

  lemma {:induction false} QuotedPlain(s: Bytes)
    requires '"' !in s && '\\' !in s
    ensures QuotedText(s, false)
  {
    if s != "" {
      assert s[0] in s;
      QuotedPlain(s[1..]);
    }
  }

  lemma RawBytes(c: char)
    requires c != '"' && c != '\\'
    ensures QuotedText(Utf8.Encode([c]), false)
  {
    hide Utf8.Encode, QuotedText;
    EncodeAvoids([c], '"');
    EncodeAvoids([c], '\\');
    QuotedPlain(Utf8.Encode([c]));
  }

  lemma EscapeBytes(c: char, more: string)
    requires c as int < 0x80 && Utf8.Ascii(more) && '"' !in more && '\\' !in more
    ensures QuotedText(Utf8.Encode(['\\', c] + more), false)
  {
    hide Utf8.Encode;
    var s := ['\\', c] + more;
    EncodeAscii(s);
    assert s[1..] == [c] + more && s[1..][1..] == more;
    QuotedPlain(more);
  }

  lemma PieceBytes(p: Piece)
    requires ValidPiece(p)
    ensures QuotedText(Utf8.Encode(PrintPiece(p)), false)
  {
    hide Utf8.Encode, QuotedText;
    if p.Raw? {
      RawBytes(p.c);
    } else if p.Letter? {
      EscapeBytes(p.letter, "");
      assert ['\\', p.letter] + "" == ['\\', p.letter];
    } else {
      assert forall i :: 0 <= i < |p.digits| ==> p.digits[i] in p.digits;
      EscapeBytes(p.marker, p.digits);
    }
  }

  lemma {:induction false} PiecesBytes(ps: seq<Piece>)
    requires forall p :: p in ps ==> ValidPiece(p)
    ensures QuotedText(Utf8.Encode(PrintPieces(ps)), false)
  {
    if ps != [] {
      PieceBytes(ps[0]);
      PiecesBytes(ps[1..]);
      EncodeAppend(PrintPiece(ps[0]), PrintPieces(ps[1..]));
      QuotedAppend(Utf8.Encode(PrintPiece(ps[0])), Utf8.Encode(PrintPieces(ps[1..])), false);
    }
  }

  // A quoted text between its quotes, as bytes.
  lemma EncodeBetween(quote: char, body: string)
    requires quote as int < 0x80
    ensures Utf8.Encode([quote] + (body + [quote])) == [quote] + (Utf8.Encode(body) + [quote])
  {
    EncodeAscii([quote]);
    EncodeAppend([quote], body + [quote]);
    EncodeAppend(body, [quote]);
  }

  lemma KeySkips(k: Spelling, rest: Bytes)
    requires ValidSpelling(k)
    ensures Skips(Utf8.Encode(PrintKey(k)), rest)
  {
    match k
    case Bare(t) =>
      assert forall i :: 0 <= i < |t| ==> t[i] in t;
      EncodeAscii(t);
      SkipsPlain(t, rest);
    case LiteralQuoted(t) =>
      EncodeAvoids(t, '\'');
      EncodeBetween('\'', t);
      TickedSkips(Utf8.Encode(t), rest);
    case BasicQuoted(ps) =>
      PiecesBytes(ps);
      EncodeBetween('"', PrintPieces(ps));
      QuotedSkips(Utf8.Encode(PrintPieces(ps)), rest);
  }

  lemma QuotedSkips(b: Bytes, rest: Bytes)
    requires QuotedText(b, false)
    ensures Skips("\"" + (b + "\""), rest)
  {
    hide QuotedText;
    SkipsQuoted(b, false, rest);
    assert ("\"" + (b + "\"")) + rest == "\"" + (b + ("\"" + rest));
    assert ("\"" + (b + ("\"" + rest)))[1..] == b + ("\"" + rest);
  }

  lemma TickedSkips(b: Bytes, rest: Bytes)
    requires '\'' !in b
    ensures Skips("'" + (b + "'"), rest)
  {
    SkipsTicked(b, rest);
    assert ("'" + (b + "'")) + rest == "'" + (b + ("'" + rest));
    assert ("'" + (b + ("'" + rest)))[1..] == b + ("'" + rest);
  }

  lemma SpaceSkips(s: string, rest: Bytes)
    requires AllSpace(s)
    ensures Utf8.Encode(s) == s && Skips(s, rest)
  {
    EncodeAscii(s);
    SkipsPlain(s, rest);
  }

  lemma PartSkips(p: Part, tail: string, rest: Bytes)
    requires ValidPart(p) && Skips(Utf8.Encode(tail), rest)
    ensures Skips(Utf8.Encode(PrintPart(p, tail)), rest)
  {
    hide ValidSpelling, PrintKey;
    var t := Utf8.Encode(tail);
    var k := Utf8.Encode(PrintKey(p.key));
    EncodeAppend(p.before, PrintKey(p.key) + (p.after + tail));
    EncodeAppend(PrintKey(p.key), p.after + tail);
    EncodeAppend(p.after, tail);
    SpaceSkips(p.after, t + rest);
    SkipsOn(p.after, t, rest);
    KeySkips(p.key, (p.after + t) + rest);
    SkipsOn(k, p.after + t, rest);
    SpaceSkips(p.before, (k + (p.after + t)) + rest);
    SkipsOn(p.before, k + (p.after + t), rest);
  }

  lemma {:induction false} KeyTextSkips(ps: seq<Part>, rest: Bytes)
    requires ValidParts(ps)
    ensures Skips(Utf8.Encode(KeyText(ps)), rest)
  {
    hide ValidPart, PrintPart, Skips;
    if |ps| == 1 {
      EncodeAscii("");
      SkipsPlain("", rest);
      PartSkips(ps[0], "", rest);
    } else {
      var inner := KeyText(ps[1..]);
      KeyTextSkips(ps[1..], rest);
      EncodeAppend(".", inner);
      EncodeAscii(".");
      SkipsPlain(".", Utf8.Encode(inner) + rest);
      SkipsOn(".", Utf8.Encode(inner), rest);
      PartSkips(ps[0], "." + inner, rest);
    }
  }

  // ---------------------------------------------------------------- the ends of a key

  predicate Firm(s: Bytes) {
    s != "" && !AsciiSpace(s[0]) && !AsciiSpace(s[|s| - 1])
  }

  lemma {:induction false} StripLeading(ws: Bytes, s: Bytes)
    requires AllSpace(ws)
    ensures Strip(ws + s) == Strip(s)
  {
    if ws == "" {
      assert ws + s == s;
    } else {
      assert (ws + s)[1..] == ws[1..] + s;
      StripLeading(ws[1..], s);
    }
  }

  lemma {:induction false} StripTrailing(s: Bytes, ws: Bytes)
    requires AllSpace(ws) && Firm(s)
    ensures Strip(s + ws) == s
  {
    if ws == "" {
      assert s + ws == s;
    } else {
      assert (s + ws)[..|s + ws| - 1] == s + ws[..|ws| - 1];
      StripTrailing(s, ws[..|ws| - 1]);
    }
  }

  lemma KeyEnds(k: Spelling)
    requires ValidSpelling(k)
    ensures var t := PrintKey(k);
      && t != "" && t[0] as int < 0x80 && t[|t| - 1] as int < 0x80 && Firm(t)
      && t[0] != '#' && t[0] != '[' && !IsSpace(t[0])
  {
    if k.Bare? {
      assert k.text[0] in k.text && k.text[|k.text| - 1] in k.text;
    }
  }

  lemma EncodeEnd(s: string)
    requires s != "" && s[|s| - 1] as int < 0x80
    ensures Utf8.Encode(s) != "" && Utf8.Encode(s)[|Utf8.Encode(s)| - 1] == s[|s| - 1]
  {
    var front := s[..|s| - 1];
    assert s == front + [s[|s| - 1]];
    EncodeAppend(front, [s[|s| - 1]]);
    EncodeAscii([s[|s| - 1]]);
  }

  lemma {:induction false} KeyTextEnd(ps: seq<Part>)
    requires ValidParts(ps) && ps[|ps| - 1].after == ""
    ensures var t := KeyText(ps); t != "" && t[|t| - 1] as int < 0x80 && !AsciiSpace(t[|t| - 1])
  {
    assert ValidPart(ps[|ps| - 1]);
    KeyEnds(ps[|ps| - 1].key);
    if |ps| > 1 {
      KeyTextEnd(ps[1..]);
    }
  }

  lemma KeyTextStart(ps: seq<Part>)
    requires ValidParts(ps) && ps[0].before == ""
    ensures var t := KeyText(ps);
      && t != "" && t[0] as int < 0x80 && !AsciiSpace(t[0]) && t[0] != '#' && t[0] != '[' && !IsSpace(t[0])
  {
    assert ValidPart(ps[0]);
    KeyEnds(ps[0].key);
  }

  lemma KeyBytesFirm(ps: seq<Part>)
    requires ValidParts(ps) && ps[0].before == "" && ps[|ps| - 1].after == ""
    ensures var b := Utf8.Encode(KeyText(ps)); Firm(b) && b[0] != '#' && b[0] != '[' && !IsSpace(b[0])
  {
    KeyTextStart(ps);
    KeyTextEnd(ps);
    hide KeyText, ValidParts, Utf8.Encode, AsciiSpace, IsSpace;
    EncodeStart(KeyText(ps));
    EncodeEnd(KeyText(ps));
  }

  // ---------------------------------------------------------------- the key is read back

  lemma {:induction false} KeyTextPrints(ps: seq<Part>)
    requires ps != []
    ensures PrintParts(ps, false, "") == KeyText(ps) + "]"
  {
    if |ps| > 1 {
      KeyTextPrints(ps[1..]);
    }
  }

  lemma BracketBytes(text: string)
    ensures "[" + Utf8.Encode(text) + "]" == Utf8.Encode("[" + text + "]")
  {
    EncodeAppend("[" + text, "]");
    EncodeAppend("[", text);
    EncodeAscii("[");
    EncodeAscii("]");
  }

  lemma RawOfBrackets(text: string)
    ensures RawHeaderSegments(Utf8.Encode("[" + text + "]")) == HeaderSegments("[" + text + "]")
  {
    hide RawHeaderSegments, HeaderSegments;
    var all := "[" + text + "]";
    assert all[|all| - 1] == ']';
    RawOf(all);
  }

  lemma KeyHeader(ps: seq<Part>)
    requires ValidParts(ps)
    ensures HeaderSegments("[" + KeyText(ps) + "]") == Ok((false, Segments(ps)))
  {
    var h := TomlHeader.Header("", false, ps, "");
    KeyTextPrints(ps);
    assert Print(h) == "[" + KeyText(ps) + "]";
    hide ValidParts, KeyText, Print, ParseHeader;
    ParsePrinted(h);
  }

  lemma KeyParses(ps: seq<Part>)
    requires ValidParts(ps)
    ensures RawHeaderSegments("[" + Utf8.Encode(KeyText(ps)) + "]") == Ok((false, Segments(ps)))
  {
    assert ps != [];
    hide ValidParts, KeyText, HeaderSegments, RawHeaderSegments, Utf8.Encode;
    var text := KeyText(ps);
    BracketBytes(text);
    KeyHeader(ps);
    RawOfBrackets(text);
  }

  // The search for the equals sign stops right after the key.
  lemma KeyAt(indent: string, ps: seq<Part>, gap: string, more: Bytes)
    requires AllSpace(indent) && AllSpace(gap) && ValidParts(ps)
    ensures var k := indent + Utf8.Encode(KeyText(ps)) + gap;
      EqualsAt(k + ("=" + more), None, false) == Some(|k|)
  {
    assert ps != [];
    hide ValidParts, KeyText, Utf8.Encode;
    var b := Utf8.Encode(KeyText(ps));
    var rest := "=" + more;
    SpaceSkips(gap, rest);
    KeyTextSkips(ps, gap + rest);
    SkipsOn(b, gap, rest);
    SpaceSkips(indent, (b + gap) + rest);
    SkipsOn(indent, b + gap, rest);
    Assoc(indent, b, gap);
    assert EqualsAt(rest, None, false) == Some(0);
  }

  lemma StripBoth(before: Bytes, s: Bytes, after: Bytes)
    requires AllSpace(before) && AllSpace(after) && Firm(s)
    ensures Strip(before + s + after) == s
  {
    Assoc(before, s, after);
    StripLeading(before, s + after);
    StripTrailing(s, after);
  }

  lemma StartsStatement(indent: string, b: Bytes, rest: Bytes)
    requires AllSpace(indent) && b != "" && b[0] != '#' && b[0] != '[' && !IsSpace(b[0])
    ensures StatementLine(indent + (b + rest)) && !HeaderLine(indent + (b + rest))
  {
    TakeSpaceOf(indent, b + rest);
  }

  lemma FourParts(a: Bytes, b: Bytes, c: Bytes, d: Bytes)
    ensures (a + b + c) + d == a + (b + (c + d))
  {
    Assoc(a + b, c, d);
    Assoc(a, b, c + d);
  }

  lemma Front(a: Bytes, b: Bytes)
    ensures (a + b)[..|a|] == a
  {
  }

  lemma AfterEquals(k: Bytes, line: Bytes)
    requires k + "=" <= line
    ensures line == k + ("=" + line[|k| + 1..])
  {
    var head := k + "=";
    assert line == head + line[|head|..];
    Assoc(k, "=", line[|head|..]);
  }

  lemma KeyOf(line: Bytes, n: nat, key: Bytes, segments: seq<string>)
    requires n <= |line| && EqualsAt(line, None, false) == Some(n) && Strip(line[..n]) == key && key != ""
    requires RawHeaderSegments("[" + key + "]") == Ok((false, segments))
    ensures AssignmentKey(line) == Some(segments)
  {
    hide RawHeaderSegments, EqualsAt, Strip;
  }

  // Whatever follows the equals sign, the key before it is read.
  lemma AssignedKey(indent: string, ps: seq<Part>, gap: string, more: Bytes)
    requires AllSpace(indent) && AllSpace(gap)
    requires ValidParts(ps) && ps[0].before == "" && ps[|ps| - 1].after == ""
    ensures var line := (indent + Utf8.Encode(KeyText(ps)) + gap) + ("=" + more);
      StatementLine(line) && !HeaderLine(line) && AssignmentKey(line) == Some(Segments(ps))
  {
    assert ps != [];
    hide ValidParts, KeyText, Utf8.Encode, RawHeaderSegments, Strip, EqualsAt, StatementLine, HeaderLine;
    hide AssignmentKey, AllSpace, Segments, IsSpace, AsciiSpace;
    var b := Utf8.Encode(KeyText(ps));
    var k := indent + b + gap;
    var line := k + ("=" + more);
    KeyBytesFirm(ps);
    KeyAt(indent, ps, gap, more);
    Front(k, "=" + more);
    StripBoth(indent, b, gap);
    KeyParses(ps);
    KeyOf(line, |k|, b, Segments(ps));
    FourParts(indent, b, gap, "=" + more);
    StartsStatement(indent, b, gap + ("=" + more));
  }

  // ---------------------------------------------------------------- an assignment leads back to the boundary

  lemma {:induction false} RunKeyText(ps: seq<Part>, a: Automaton)
    requires ValidParts(ps) && a.mode == Plain
    ensures Run(KeyText(ps), a) == a
  {
    hide ValidPart, PrintPart;
    if |ps| == 1 {
      RunPart(ps[0], "", a);
    } else {
      var inner := KeyText(ps[1..]);
      RunPart(ps[0], "." + inner, a);
      assert ("." + inner)[1..] == inner;
      RunKeyText(ps[1..], a);
    }
  }

  lemma KeyBytesLead(ps: seq<Part>)
    requires ValidParts(ps) && Unbroken(KeyText(ps))
    ensures Leads(Utf8.Encode(KeyText(ps)), OUTSIDE, OUTSIDE)
  {
    var t := KeyText(ps);
    var b := Utf8.Encode(t);
    EncodeUnbroken(t);
    UnbrokenIsQuiet(b, OUTSIDE);
    RunBytesInLine(b, OUTSIDE);
    Utf8.DecodeEncode(t);
    RunDecoded(b, OUTSIDE);
    RunKeyText(ps, OUTSIDE);
  }

  lemma SpaceLeads(s: string)
    requires AllSpace(s)
    ensures Leads(s, OUTSIDE, OUTSIDE)
  {
    UnbrokenIsQuiet(s, OUTSIDE);
    RunBytesInLine(s, OUTSIDE);
    RunBlanks(s, OUTSIDE);
  }

  lemma HeadLeads(indent: string, ps: seq<Part>, gap: string)
    requires AllSpace(indent) && AllSpace(gap) && ValidParts(ps) && Unbroken(KeyText(ps))
    ensures Leads((indent + Utf8.Encode(KeyText(ps)) + gap) + "=", OUTSIDE, OUTSIDE)
  {
    hide Leads;
    var b := Utf8.Encode(KeyText(ps));
    SpaceLeads(indent);
    KeyBytesLead(ps);
    SpaceLeads(gap);
    OneByte('=', OUTSIDE);
    LeadsOn(indent, b, OUTSIDE, OUTSIDE, OUTSIDE);
    LeadsOn(indent + b, gap, OUTSIDE, OUTSIDE, OUTSIDE);
    LeadsOn(indent + b + gap, "=", OUTSIDE, OUTSIDE, OUTSIDE);
  }

  // What ends a statement ends at the boundary.
  lemma TrailingEnds(trailing: string, end: Bytes)
    requires ValidTrailing(trailing) && Unbroken(trailing) && (end == "\n" || end == "\r\n")
    ensures EndLine(RunBytes(trailing + end, OUTSIDE)) == AT_BOUNDARY
  {
    RunBytesAppend(trailing, end, OUTSIDE);
    RunBytesInLine(trailing, OUTSIDE);
    RunTrailing(trailing, OUTSIDE);
    RunBreaks(end, Run(trailing, OUTSIDE));
    BreakKeeps(Run(trailing, OUTSIDE));
  }

  lemma TrailingStart(trailing: string, other: Bytes)
    requires ValidTrailing(trailing) && other != "" && other[0] != '"' && other[0] != '\''
    ensures var rest := trailing + other;
      rest != "" && rest[0] != '"' && rest[0] != '\''
  {
  }

  // The value ends where it began, and no line inside it begins at the boundary.
  lemma ValueLeads(value: seq<Item>, trailing: string, end: Bytes)
    requires ValidItems(value, false, trailing + "\n") && ValidTrailing(trailing) && Unbroken(trailing)
    requires end == "\n" || end == "\r\n"
    ensures Quiet(PrintItems(value) + trailing, OUTSIDE)
    ensures EndLine(RunBytes(PrintItems(value) + (trailing + end), OUTSIDE)) == AT_BOUNDARY
  {
    hide Quiet, RunBytes, PrintItems, ValidItems;
    TrailingStart(trailing, end);
    TrailingStart(trailing, ".");
    ValidBefore(value, false, trailing + "\n", trailing + end);
    ValidBefore(value, false, trailing + "\n", trailing + ".");
    ItemsPass(value, false, trailing + end, OUTSIDE);
    TrailingEnds(trailing, end);
    ItemsPass(value, false, trailing + ".", OUTSIDE);
    UnbrokenIsQuiet(trailing + ".", OUTSIDE);
    Assoc(PrintItems(value), trailing, ".");
    QuietAppend(PrintItems(value) + trailing, ".", OUTSIDE);
  }

  // The first line holds everything up to the equals sign.
  lemma FirstLineHolds(head: Bytes, rest: Bytes, end: Bytes)
    requires Unbroken(head) && head != "" && (end == "\n" || end == "\r\n")
    ensures head <= StripBreaks((head + rest + end)[..FirstLine(head + rest + end)])
  {
    var s := head + rest + end;
    var line, tail := FirstLineShape(s);
    StripEnd(line, tail);
    var n := FirstLine(s);
    assert s[..|head|] == head;
    assert forall i :: 0 <= i < |head| ==> s[i] == head[i];
    assert tail != "" ==> s[..n][|line|] == tail[0] && s[..n][|line|] == s[|line|];
    assert tail == "" ==> n == |s|;
    assert s[..n][..|head|] == s[..|head|];
    assert (line + tail)[..|head|] == line[..|head|];
  }

  // Once the pieces are known to behave.
  lemma ScanBody(k: Bytes, rest: Bytes, end: Bytes, st: ScanState, segments: seq<string>)
    requires end == "\n" || end == "\r\n"
    requires st.lex == AT_BOUNDARY && Quiet(k + "=" + rest, OUTSIDE)
    requires EndLine(RunBytes(k + "=" + rest + end, OUTSIDE)) == AT_BOUNDARY
    requires var s := k + "=" + rest + end;
      var line := StripBreaks(s[..FirstLine(s)]);
      StatementLine(line) && !HeaderLine(line) && AssignmentKey(line) == Some(segments)
    ensures ScanLines(k + ("=" + rest) + end, st)
      == Ok(st.(assignments := st.assignments + [AssignmentAt(st.offset, st.current, segments)],
                offset := st.offset + |k + ("=" + rest) + end|))
  {
    hide Quiet, RunBytes, ScanLines, FirstLine, StripBreaks, HeaderLine, StatementLine, AssignmentKey;
    Assoc(k, "=", rest);
    ScanFromBoundary(k + "=" + rest, end, st);
  }

  lemma ScanAssignment(indent: string, key: seq<Part>, gap: string, value: seq<Item>, trailing: string, end: Bytes,
                       st: ScanState)
    requires ValidStatement(Assignment(indent, key, gap, value, trailing)) && (end == "\n" || end == "\r\n")
    requires st.lex == AT_BOUNDARY
    ensures var s := Assignment(indent, key, gap, value, trailing);
      ScanLines(PrintStatement(s) + end, st) == Ok(Says(s, |PrintStatement(s) + end|, st))
  {
    hide ValidParts, KeyText, ValidItems, PrintItems, Quiet, RunBytes, ScanLines, Utf8.Encode, AllSpace, Segments;
    hide FirstLine, StripBreaks, HeaderLine, StatementLine, AssignmentKey, ValidTrailing, Unbroken;
    AtLeastOne(key);
    BodyLeads(indent, key, gap, value, trailing, end);
    FirstLineKey(indent, key, gap, PrintItems(value) + trailing, end);
    ScanBody(indent + Utf8.Encode(KeyText(key)) + gap, PrintItems(value) + trailing, end, st, Segments(key));
  }

  // All of an assignment but its line break is quiet, and all of it leads back to the boundary.
  lemma BodyLeads(indent: string, key: seq<Part>, gap: string, value: seq<Item>, trailing: string, end: Bytes)
    requires ValidStatement(Assignment(indent, key, gap, value, trailing)) && (end == "\n" || end == "\r\n")
    requires key != []
    ensures var body := (indent + Utf8.Encode(KeyText(key)) + gap) + "=" + (PrintItems(value) + trailing);
      Quiet(body, OUTSIDE) && EndLine(RunBytes(body + end, OUTSIDE)) == AT_BOUNDARY
  {
    hide ValidParts, KeyText, ValidItems, PrintItems, Quiet, RunBytes, Utf8.Encode, AllSpace, ValidTrailing, Unbroken;
    var head := (indent + Utf8.Encode(KeyText(key)) + gap) + "=";
    var rest := PrintItems(value) + trailing;
    HeadLeads(indent, key, gap);
    ValueLeads(value, trailing, end);
    QuietAppend(head, rest, OUTSIDE);
    RunBytesAppend(head, PrintItems(value) + (trailing + end), OUTSIDE);
    assert (head + rest) + end == head + (PrintItems(value) + (trailing + end));
  }

  lemma FirstLineKey(indent: string, ps: seq<Part>, gap: string, rest: Bytes, end: Bytes)
    requires AllSpace(indent) && AllSpace(gap) && ValidParts(ps) && Unbroken(KeyText(ps))
    requires ps[0].before == "" && ps[|ps| - 1].after == "" && (end == "\n" || end == "\r\n")
    ensures var s := (indent + Utf8.Encode(KeyText(ps)) + gap) + "=" + rest + end;
      var line := StripBreaks(s[..FirstLine(s)]);
      StatementLine(line) && !HeaderLine(line) && AssignmentKey(line) == Some(Segments(ps))
  {
    assert ps != [];
    hide ValidParts, KeyText, Utf8.Encode, FirstLine, StripBreaks, HeaderLine, StatementLine, AssignmentKey, Unbroken;
    hide AllSpace, Segments;
    var k := indent + Utf8.Encode(KeyText(ps)) + gap;
    var head := k + "=";
    HeadUnbroken(indent, ps, gap);
    FirstLineHolds(head, rest, end);
    var s := head + rest + end;
    var line := StripBreaks(s[..FirstLine(s)]);
    AfterEquals(k, line);
    AssignedKey(indent, ps, gap, line[|k| + 1..]);
  }

  lemma AtLeastOne(ps: seq<Part>)
    requires ValidParts(ps)
    ensures ps != []
  {
  }

  lemma HeadUnbroken(indent: string, ps: seq<Part>, gap: string)
    requires AllSpace(indent) && AllSpace(gap) && ValidParts(ps) && Unbroken(KeyText(ps))
    ensures Unbroken((indent + Utf8.Encode(KeyText(ps)) + gap) + "=")
  {
    EncodeUnbroken(KeyText(ps));
  }

  // ---------------------------------------------------------------- whole documents

  lemma ScanStatement(l: Line, st: ScanState)
    requires ValidLine(l) && st.lex == AT_BOUNDARY
    ensures ScanLines(PrintLine(l), st) == Ok(Says(l.statement, |PrintLine(l)|, st))
    ensures Says(l.statement, |PrintLine(l)|, st).lex == AT_BOUNDARY
    ensures EndsWith(PrintLine(l), "\n") && CleanCut(PrintLine(l), "")
  {
    hide ScanLines, KeyText, PrintParts, Unbroken;
    match l.statement
    case TableLine(h) => ScanTableLine(h, l.end, st);
    case Assignment(indent, key, gap, value, trailing) => ScanAssignment(indent, key, gap, value, trailing, l.end, st);
    case EmptyLine(text) => ScanEmptyLine(text, l.end, st);
  }

  lemma {:induction false} ScanAllSays(doc: seq<Line>, st: ScanState)
    requires ValidDocument(doc) && st.lex == AT_BOUNDARY
    ensures ScanLines(PrintDocument(doc), st) == Ok(SaysAll(doc, st))
    ensures SaysAll(doc, st).lex == AT_BOUNDARY
    decreases |doc|
  {
    hide ScanLines, ValidLine, Says, PrintLine;
    if doc == [] {
      ScanNone(st);
    } else {
      var first, rest := PrintLine(doc[0]), PrintDocument(doc[1..]);
      ScanStatement(doc[0], st);
      assert first[|first| - 1..] == "\n" && first[|first| - 1] == first[|first| - 1..][0];
      ScanAppend(first, rest, st);
      ScanAllSays(doc[1..], Says(doc[0].statement, |first|, st));
    }
  }

  // Scanning a document reports exactly what it says.
  lemma ScanDocument(doc: seq<Line>)
    requires ValidDocument(doc)
    ensures var said := SaysAll(doc, START);
      Scan(PrintDocument(doc)) == Ok(Structure(said.headers, said.assignments))
  {
    hide ScanLines, ValidLine, Says, PrintLine;
    ScanAllSays(doc, START);
  }

  // ---------------------------------------------------------------- a value the scanner misreads

  // A block may end in a quote before its closing delimiter.  In a list on one line the scanner then
  // takes the rest of the line for a string and refuses the config for its open bracket.
  lemma QuotedEndRefused(ms: seq<Mark>)
    requires BlockMarks(ms, 0) && Unbroken(PrintMarks(ms))
    ensures Scan("x=[" + (BASIC3 + (PrintMarks(ms) + (BASIC3 + "\""))) + "]" + "\n") == Err(OpenCollection)
  {
    hide Quiet, ScanLines, FirstLine, StripBreaks;
    var block := BASIC3 + (PrintMarks(ms) + (BASIC3 + "\""));
    var inside, open := OUTSIDE.(square := 1), OUTSIDE.(square := 1, mode := Quote1);
    var line := "x=[" + block + "]";
    QuoteBeforeClosing(ms, inside);
    assert RunBytes("x=[", OUTSIDE) == inside by {
      ThreeBytes("x=[", OUTSIDE);
    }
    RunBytesAppend("x=[", block, OUTSIDE);
    RunBytesAppend("x=[" + block, "]", OUTSIDE);
    OneByte(']', open);
    RunBytesInLine(line, OUTSIDE);
    AdvanceIs(line, AT_BOUNDARY);
    assert line[0] == 'x' && TakeSpace(line) == "" && DropSpace(line) == line;
    ScanOneLine(line, "\n", START);
  }
}
