// Which tables of a Codex config register the server (release_tools/installer.py, 75-82, 583-605, 861-996).
module Registration {
  import opened Basics
  import opened TomlLexer
  import opened TomlHeader
  import opened TomlScan

  const MCP_SERVERS := "mcp_servers"
  const SERVER_NAME := "Roblox_Studio_Multisession"
  const LEGACY_SERVER_NAME := "Roblox_Studio_v2"

  predicate OwnedName(name: string) {
    name == SERVER_NAME || name == LEGACY_SERVER_NAME
  }

  datatype Table = Table(start: nat, end: nat, block: Bytes)

  datatype FindError =
    | NotScannable(error: ScanError)
    | DuplicateTables(name: string)
    | NoncanonicalHeader
    | AmbiguousHeaders
    | RegistrationAssignment
    | BothRegistrations

  // ---------------------------------------------------------------- the header pattern

  // The parts of a line the pattern matched.
  datatype Matched = Matched(indent: Bytes, before: Bytes, after: Bytes, gap: Bytes, comment: Bytes, tail: Bytes)

  ghost predicate NoBreaks(s: string) {
    forall i :: 0 <= i < |s| ==> !LineBreak(s[i])
  }

  function SkipComment(s: Bytes): (r: Bytes)
    ensures |r| <= |s|
    ensures r != "" ==> LineBreak(r[0])
    decreases |s|
  {
    if s == "" || LineBreak(s[0]) then s else SkipComment(s[1..])
  }

  // The line break the pattern ends with: "\n", "\r\n" or the end of the data.
  function PatternEnd(s: Bytes): Option<nat> {
    if s == "" then Some(0)
    else if s[0] == '\n' then Some(1)
    else if StartsWith(s, "\r\n") then Some(2)
    else None
  }

  function DottedKey(name: string): Bytes {
    MCP_SERVERS + "." + name
  }

  lemma {:induction false} SkipCommentText(s: Bytes)
    ensures s[..|s| - |SkipComment(s)|] + SkipComment(s) == s
    ensures NoBreaks(s[..|s| - |SkipComment(s)|])
    decreases |s|
  {
    if s != "" && !LineBreak(s[0]) {
      SkipCommentText(s[1..]);
      var k := |s| - |SkipComment(s)|;
      assert s[..k] == [s[0]] + s[1..][..k - 1];
    }
  }

  lemma SplitComment(rest: Bytes)
    ensures var tail := if StartsWith(rest, "#") then SkipComment(rest) else rest;
      var comment := rest[..|rest| - |tail|];
      comment + tail == rest && NoBreaks(comment) && (comment == "" || comment[0] == '#')
  {
    SkipCommentText(rest);
  }

  // Blanks and then the given text: the blanks, and what follows the text.
  function CutText(s: Bytes, text: Bytes): (r: Option<(Bytes, Bytes)>)
    ensures r.Some? ==> s == r.value.0 + (text + r.value.1) && AllSpace(r.value.0)
  {
    var rest := DropSpace(s);
    if StartsWith(rest, text) then
      SplitPrefix(rest, text);
      Some((TakeSpace(s), rest[|text|..]))
    else None
  }

  // Blanks, an optional comment, and the line break: their lengths up to the end of the match.
  function CutEnd(s: Bytes): (r: Option<(Bytes, Bytes, Bytes)>)
    ensures r.Some? ==> s == r.value.0 + (r.value.1 + r.value.2) && AllSpace(r.value.0) && PatternEnd(r.value.2).Some?
  {
    var rest := DropSpace(s);
    var tail := if StartsWith(rest, "#") then SkipComment(rest) else rest;
    var comment := rest[..|rest| - |tail|];
    SplitComment(rest);
    if PatternEnd(tail).Some? then Some((TakeSpace(s), comment, tail)) else None
  }

  // The exact-table pattern at the start of a line, and the pieces of the line it matches.
  function MatchHeader(s: Bytes, name: string): Option<Matched> {
    match CutText(s, "[")
    case None => None
    case Some((indent, s1)) =>
      match CutText(s1, DottedKey(name))
      case None => None
      case Some((before, s2)) =>
        match CutText(s2, "]")
        case None => None
        case Some((after, s3)) =>
          match CutEnd(s3)
          case None => None
          case Some((gap, comment, tail)) => Some(Matched(indent, before, after, gap, comment, tail))
  }

  // Where the match that starts at `start` ends.
  function MatchEnd(data: Bytes, start: nat, m: Matched): int {
    |data| - |m.tail| + (if PatternEnd(m.tail).Some? then PatternEnd(m.tail).value else 0)
  }

  // The multiline pattern only matches at the start of the data or after "\n".
  predicate Matches(data: Bytes, start: nat, name: string) {
    start <= |data| && (start == 0 || data[start - 1] == '\n') && MatchHeader(data[start..], name).Some?
  }

  // ---------------------------------------------------------------- finding tables

  function Exact(data: Bytes, headers: seq<HeaderAt>, name: string): seq<HeaderAt> {
    if headers == [] then []
    else (if Matches(data, headers[0].start, name) then [headers[0]] else []) + Exact(data, headers[1..], name)
  }

  // The first header at or after `from`, or the end of the data.
  function NextStart(headers: seq<HeaderAt>, from: int, limit: nat): nat {
    if headers == [] then limit
    else
      var later := NextStart(headers[1..], from, limit);
      if headers[0].start >= from && headers[0].start < later then headers[0].start else later
  }

  function FindTable(data: Bytes, headers: seq<HeaderAt>, name: string): Result<Option<Table>, FindError> {
    var found := Exact(data, headers, name);
    if |found| > 1 then Err(DuplicateTables(name))
    else if |found| == 0 then Ok(None)
    else
      var start := found[0].start;
      if Matches(data, start, name) then
        var end := NextStart(headers, MatchEnd(data, start, MatchHeader(data[start..], name).value), |data|);
        if start <= end <= |data| then Ok(Some(Table(start, end, data[start..end]))) else Ok(None)
      else Ok(None)
  }

  predicate Registers(segments: seq<string>) {
    |segments| >= 2 && segments[0] == MCP_SERVERS && OwnedName(segments[1])
  }

  predicate AssignmentRegisters(x: AssignmentAt) {
    var combined := x.table + x.key;
    combined == [MCP_SERVERS] || (Registers(combined) && !(|x.table| == 2 && Registers(x.table)))
  }

  function FindRegistrationTables(data: Bytes): Result<(Option<Table>, Option<Table>), FindError> {
    match Scan(data)
    case Err(e) => Err(NotScannable(e))
    case Ok(structure) =>
      match FindTable(data, structure.headers, SERVER_NAME)
      case Err(e) => Err(e)
      case Ok(canonical) =>
        match FindTable(data, structure.headers, LEGACY_SERVER_NAME)
        case Err(e) => Err(e)
        case Ok(legacy) => CheckRegistrations(structure, canonical, legacy)
  }

  predicate ExactHeader(h: HeaderAt, canonical: Option<Table>, legacy: Option<Table>)
    requires Registers(h.segments)
  {
    && !h.arrayed && |h.segments| == 2
    && ((h.segments[1] == SERVER_NAME && canonical.Some? && canonical.value.start == h.start)
        || (h.segments[1] == LEGACY_SERVER_NAME && legacy.Some? && legacy.value.start == h.start))
  }

  predicate Announced(found: Option<Table>, name: string, headers: seq<HeaderAt>) {
    found.Some? ==>
      exists h :: h in headers && Registers(h.segments) && h.segments[1] == name && h.start == found.value.start
  }

  function CheckRegistrations(structure: Structure, canonical: Option<Table>, legacy: Option<Table>)
    : Result<(Option<Table>, Option<Table>), FindError>
  {
    if exists h :: h in structure.headers && Registers(h.segments) && !ExactHeader(h, canonical, legacy) then
      Err(NoncanonicalHeader)
    else if !Announced(canonical, SERVER_NAME, structure.headers)
            || !Announced(legacy, LEGACY_SERVER_NAME, structure.headers) then
      Err(AmbiguousHeaders)
    else if exists x :: x in structure.assignments && AssignmentRegisters(x) then Err(RegistrationAssignment)
    else if canonical.Some? && legacy.Some? then Err(BothRegistrations)
    else Ok((canonical, legacy))
  }

  // ---------------------------------------------------------------- the pattern agrees with the parser

  lemma {:induction false} DecodedHasNoBreaks(s: Bytes)
    requires NoBreaks(s) && Utf8.Decode(s).Some?
    ensures NoBreaks(Utf8.Decode(s).value)
    decreases |s|
  {
    if s != "" {
      var (c, n) := Utf8.DecodeOne(s).value;
      assert !LineBreak(c);
      DecodedHasNoBreaks(s[n..]);
    }
  }

  lemma {:induction false} FirstLineOf(line: Bytes, tail: Bytes)
    requires NoBreaks(line) && line + tail != "" && PatternEnd(tail).Some?
    ensures FirstLine(line + tail) == |line| + PatternEnd(tail).value
  {
    if line == "" {
      assert line + tail == tail;
    } else if |line + tail| > 1 {
      assert (line + tail)[1..] == line[1..] + tail;
      assert !LineBreak(line[0]);
      FirstLineOf(line[1..], tail);
    }
  }

  lemma StripOneBreak(line: Bytes, tail: Bytes)
    requires NoBreaks(line) && PatternEnd(tail).Some?
    ensures StripBreaks(line + tail[..PatternEnd(tail).value]) == line
  {
    var s := line + tail[..PatternEnd(tail).value];
    if PatternEnd(tail).value == 0 {
      assert s == line;
    } else if PatternEnd(tail).value == 1 {
      assert s[..|s| - 1] == line;
    } else {
      assert s[..|s| - 1] == line + "\r";
      assert (line + "\r")[..|line|] == line;
    }
  }

  ghost predicate ValidMatched(m: Matched) {
    && AllSpace(m.indent) && AllSpace(m.before) && AllSpace(m.after) && AllSpace(m.gap)
    && NoBreaks(m.comment) && (m.comment == "" || m.comment[0] == '#')
    && PatternEnd(m.tail).Some?
  }

  function Prefix(m: Matched, name: string): Bytes {
    m.indent + ("[" + (m.before + (DottedKey(name) + (m.after + ("]" + m.gap)))))
  }

  lemma MatchedParts(s: Bytes, name: string)
    requires MatchHeader(s, name).Some?
    ensures var m := MatchHeader(s, name).value; ValidMatched(m) && s == Prefix(m, name) + (m.comment + m.tail)
  {
    hide DottedKey;
    hide CutText;
    hide CutEnd;
    var s1 := CutText(s, "[").value.1;
    var s2 := CutText(s1, DottedKey(name)).value.1;
    var s3 := CutText(s2, "]").value.1;
    var m := MatchHeader(s, name).value;
    CommentShape(s3);
    RejoinMatched(m, name, m.comment + m.tail);
  }

  lemma CommentShape(s: Bytes)
    requires CutEnd(s).Some?
    ensures var comment := CutEnd(s).value.1; NoBreaks(comment) && (comment == "" || comment[0] == '#')
  {
    SplitComment(DropSpace(s));
  }

  lemma RejoinMatched(m: Matched, name: string, rest: Bytes)
    ensures m.indent + ("[" + (m.before + (DottedKey(name) + (m.after + ("]" + (m.gap + rest))))))
         == Prefix(m, name) + rest
  {
    hide DottedKey;
    var key := DottedKey(name);
    Assoc("]", m.gap, rest);
    Assoc(m.after, "]" + m.gap, rest);
    Assoc(key, m.after + ("]" + m.gap), rest);
    Assoc(m.before, key + (m.after + ("]" + m.gap)), rest);
    Assoc("[", m.before + (key + (m.after + ("]" + m.gap))), rest);
    Assoc(m.indent, "[" + (m.before + (key + (m.after + ("]" + m.gap)))), rest);
  }

  lemma CutTextOf(blanks: Bytes, text: Bytes, rest: Bytes)
    requires AllSpace(blanks) && text != "" && !IsSpace(text[0])
    ensures CutText(blanks + (text + rest), text) == Some((blanks, rest))
  {
    TakeSpaceOf(blanks, text + rest);
    assert (text + rest)[|text|..] == rest;
  }

  lemma {:induction false} SkipCommentOf(comment: Bytes, tail: Bytes)
    requires NoBreaks(comment) && (tail == "" || LineBreak(tail[0]))
    ensures SkipComment(comment + tail) == tail
  {
    if comment == "" {
      assert comment + tail == tail;
    } else {
      assert (comment + tail)[1..] == comment[1..] + tail;
      SkipCommentOf(comment[1..], tail);
    }
  }

  lemma CutEndOf(gap: Bytes, comment: Bytes, tail: Bytes)
    requires AllSpace(gap) && NoBreaks(comment) && (comment == "" || comment[0] == '#') && PatternEnd(tail).Some?
    ensures CutEnd(gap + (comment + tail)) == Some((gap, comment, tail))
  {
    var rest := comment + tail;
    if comment == "" {
      assert rest == tail;
    }
    TakeSpaceOf(gap, rest);
    SkipCommentOf(comment, tail);
    assert rest[..|comment|] == comment;
  }

  // Every line put together as the pattern describes is matched, piece by piece.
  lemma MatchRejoined(m: Matched, name: string)
    requires ValidMatched(m)
    ensures MatchHeader(Prefix(m, name) + (m.comment + m.tail), name) == Some(m)
  {
    DottedKeyStart(name);
    hide DottedKey;
    hide CutText;
    hide CutEnd;
    var s3 := m.gap + (m.comment + m.tail);
    var s2 := m.after + ("]" + s3);
    var s1 := m.before + (DottedKey(name) + s2);
    RejoinMatched(m, name, m.comment + m.tail);
    CutTextOf(m.indent, "[", s1);
    CutTextOf(m.before, DottedKey(name), s2);
    CutTextOf(m.after, "]", s3);
    CutEndOf(m.gap, m.comment, m.tail);
  }

  lemma DottedKeyStart(name: string)
    ensures DottedKey(name) != "" && !IsSpace(DottedKey(name)[0])
  {
    assert DottedKey(name)[0] == MCP_SERVERS[0];
  }

  lemma PrefixAscii(m: Matched, name: string)
    requires ValidMatched(m) && OwnedName(name)
    ensures Utf8.Ascii(Prefix(m, name)) && NoBreaks(Prefix(m, name))
  {
    assert Utf8.Ascii(DottedKey(name)) && NoBreaks(DottedKey(name));
    hide DottedKey;
    var p1 := "]" + m.gap;
    var p2 := m.after + p1;
    var p3 := DottedKey(name) + p2;
    var p4 := m.before + p3;
    var p5 := "[" + p4;
    assert Utf8.Ascii(p1) && NoBreaks(p1);
    assert Utf8.Ascii(p2) && NoBreaks(p2);
    assert Utf8.Ascii(p3) && NoBreaks(p3);
    assert Utf8.Ascii(p4) && NoBreaks(p4);
    assert Utf8.Ascii(p5) && NoBreaks(p5);
  }

  // The spelling of the header that the pattern describes, with decoded comment text.
  ghost function Spelled(m: Matched, name: string, comment: string): TomlHeader.Header {
    TomlHeader.Header(
      m.indent, false, [Part(m.before, Bare(MCP_SERVERS), ""), Part("", Bare(name), m.after)], m.gap + comment)
  }

  lemma BareNames(name: string)
    requires OwnedName(name)
    ensures ValidSpelling(Bare(MCP_SERVERS)) && ValidSpelling(Bare(name))
  {
    assert forall i :: 0 <= i < |MCP_SERVERS| ==> BareChar(MCP_SERVERS[i]);
    assert forall i :: 0 <= i < |SERVER_NAME| ==> BareChar(SERVER_NAME[i]);
    assert forall i :: 0 <= i < |LEGACY_SERVER_NAME| ==> BareChar(LEGACY_SERVER_NAME[i]);
  }

  lemma PrintSpelled(m: Matched, name: string, comment: string)
    ensures Print(Spelled(m, name, comment)) == Prefix(m, name) + comment
  {
    var h := Spelled(m, name, comment);
    assert h.parts[1..] == [Part("", Bare(name), m.after)];
    var last := name + (m.after + ("]" + (m.gap + comment)));
    assert PrintParts(h.parts[1..], false, h.trailing) == "" + last == last;
    assert "" + ("." + last) == "." + last;
    assert PrintParts(h.parts, false, h.trailing) == m.before + (MCP_SERVERS + ("." + last));
    Assoc(MCP_SERVERS, ".", last);
    Assoc(MCP_SERVERS + ".", name, m.after + ("]" + (m.gap + comment)));
    assert Print(h) == m.indent + ("[" + (m.before + (DottedKey(name) + (m.after + ("]" + (m.gap + comment))))));
    RejoinMatched(m, name, comment);
  }

  lemma SpelledValid(m: Matched, name: string, comment: string)
    requires ValidMatched(m) && OwnedName(name)
    requires comment == "" || comment[0] == '#'
    ensures ValidHeader(Spelled(m, name, comment))
    ensures Segments(Spelled(m, name, comment).parts) == [MCP_SERVERS, name]
  {
    BareNames(name);
    TakeSpaceOf(m.gap, comment);
    var ps := Spelled(m, name, comment).parts;
    assert ps[1..][0] == ps[1] && ps[1..][1..] == [];
    assert Segments(ps[1..]) == [name] + Segments([]) == [name];
    assert ValidPart(ps[0]) && ValidPart(ps[1]);
  }

  // A line the pattern matches parses, if it parses at all, to the registration it names.
  lemma MatchedLineParses(m: Matched, name: string)
    requires ValidMatched(m) && OwnedName(name)
    ensures var r := RawHeaderSegments(Prefix(m, name) + m.comment); r.Ok? ==> r == Ok((false, [MCP_SERVERS, name]))
    ensures Utf8.Decode(m.comment).Some? ==> RawHeaderSegments(Prefix(m, name) + m.comment).Ok?
  {
    hide HeaderSegments;
    var line := Prefix(m, name) + m.comment;
    PrefixAscii(m, name);
    Utf8.DecodeAsciiPrefix(Prefix(m, name), m.comment);
    if Utf8.Decode(line).Some? {
      var comment := Utf8.Decode(m.comment).value;
      DecodedHasNoBreaks(m.comment);
      DecodedComment(m.comment);
      PrintSpelled(m, name, comment);
      SpelledValid(m, name, comment);
      var text := Prefix(m, name) + comment;
      assert text == "" || !LineBreak(text[|text| - 1]);
      assert StripBreaks(text) == text;
      AcceptedIffSpelled(text, false, [MCP_SERVERS, name]);
    }
  }

  lemma DecodedComment(s: Bytes)
    requires (s == "" || s[0] == '#') && Utf8.Decode(s).Some?
    ensures var t := Utf8.Decode(s).value; t == "" || t[0] == '#'
  {
  }

  // The first line of text that the pattern matches, and what the scanner reads there.
  lemma MatchedLine(s: Bytes, name: string)
    requires MatchHeader(s, name).Some? && OwnedName(name)
    ensures s != ""
    ensures var m := MatchHeader(s, name).value;
      FirstLine(s) == |s| - |m.tail| + PatternEnd(m.tail).value
    ensures var r := Read(StripBreaks(s[..FirstLine(s)]), AT_BOUNDARY);
      r.NewTable? ==> r == NewTable(false, [MCP_SERVERS, name])
    ensures !Read(StripBreaks(s[..FirstLine(s)]), AT_BOUNDARY).Other?
  {
    hide MatchHeader;
    hide RawHeaderSegments;
    var m := MatchHeader(s, name).value;
    MatchedParts(s, name);
    PrefixAscii(m, name);
    var line := Prefix(m, name) + m.comment;
    Assoc(Prefix(m, name), m.comment, m.tail);
    assert NoBreaks(line);
    MatchedIsHeader(m, name);
    FirstLineOf(line, m.tail);
    assert s[..FirstLine(s)] == line + m.tail[..PatternEnd(m.tail).value];
    StripOneBreak(line, m.tail);
    MatchedLineParses(m, name);
  }

  lemma MatchedIsHeader(m: Matched, name: string)
    requires ValidMatched(m)
    ensures Prefix(m, name) != "" && HeaderLine(Prefix(m, name) + m.comment)
  {
    hide DottedKey;
    var body := m.before + (DottedKey(name) + (m.after + ("]" + m.gap)));
    Assoc(m.indent, "[" + body, m.comment);
    TakeSpaceOf(m.indent, "[" + body + m.comment);
  }
}
