// The line loop that finds table headers and assignments (release_tools/installer.py, 798-913).
module TomlScan {
  import opened Basics
  import opened TomlLexer
  import opened TomlHeader
  import Utf8

  datatype ScanError = BadHeader(error: HeaderError) | OpenString | OpenCollection

  datatype HeaderAt = HeaderAt(start: nat, arrayed: bool, segments: seq<string>)

  datatype AssignmentAt = AssignmentAt(offset: nat, table: seq<string>, key: seq<string>)

  // Everything the loop carries from one line to the next.
  datatype ScanState = ScanState(
    headers: seq<HeaderAt>, assignments: seq<AssignmentAt>, current: seq<string>, lex: LexState, offset: nat)

  datatype Structure = Structure(headers: seq<HeaderAt>, assignments: seq<AssignmentAt>)

  const START := ScanState([], [], [], AT_BOUNDARY, 0)

  // ---------------------------------------------------------------- lines

  // The length of the first line with its break: "\n", "\r" or "\r\n".
  function FirstLine(data: Bytes): (n: nat)
    requires data != ""
    ensures 1 <= n <= |data|
  {
    if data[0] == '\n' then 1
    else if data[0] == '\r' then (if |data| > 1 && data[1] == '\n' then 2 else 1)
    else if |data| == 1 then 1
    else 1 + FirstLine(data[1..])
  }

  // ---------------------------------------------------------------- assignments

  // The first '=' outside quotes and comments.
  function EqualsAt(line: Bytes, quote: Option<char>, escaped: bool): Option<nat> {
    if line == "" then None
    else
      var c := line[0];
      var later := (q: Option<char>, e: bool) =>
        match EqualsAt(line[1..], q, e) case None => None case Some(n) => Some(n + 1);
      if quote == Some('"') then
        if escaped then later(quote, false)
        else if c == '\\' then later(quote, true)
        else if c == '"' then later(None, false)
        else later(quote, false)
      else if quote.Some? then later(if c == quote.value then None else quote, escaped)
      else if c == '\'' || c == '"' then later(Some(c), escaped)
      else if c == '#' then None
      else if c == '=' then Some(0)
      else later(None, escaped)
  }

  predicate AsciiSpace(c: char) {
    c == ' ' || 9 <= c as int <= 13
  }

  // bytes.strip()
  function Strip(s: Bytes): Bytes {
    if s == "" then ""
    else if AsciiSpace(s[0]) then Strip(s[1..])
    else if AsciiSpace(s[|s| - 1]) then Strip(s[..|s| - 1])
    else s
  }

  function AssignmentKey(line: Bytes): Option<seq<string>> {
    match EqualsAt(line, None, false)
    case None => None
    case Some(n) =>
      var key := if n <= |line| then Strip(line[..n]) else "";
      if key == "" then None else
      match RawHeaderSegments("[" + key + "]")
      case Err(_) => None
      case Ok((_, segments)) => Some(segments)
  }

  // ---------------------------------------------------------------- the loop

  predicate HeaderLine(line: Bytes) {
    var stripped := DropSpace(line);
    stripped != "" && stripped[0] == '['
  }

  predicate StatementLine(line: Bytes) {
    var stripped := DropSpace(line);
    stripped != "" && stripped[0] != '#' && stripped[0] != '['
  }

  // What a line is, given the lexical state before it.
  datatype Reading =
    | NewTable(arrayed: bool, segments: seq<string>)
    | Malformed(error: HeaderError)
    | Other(key: Option<seq<string>>, after: LexState)

  function ReadHeader(line: Bytes): Reading {
    match RawHeaderSegments(line)
    case Err(e) => Malformed(e)
    case Ok((arrayed, segments)) => NewTable(arrayed, segments)
  }

  function Read(line: Bytes, lex: LexState): Reading {
    if lex == AT_BOUNDARY && HeaderLine(line) then ReadHeader(line)
    else Other(if lex == AT_BOUNDARY && StatementLine(line) then AssignmentKey(line) else None, Advance(line, lex))
  }

  function Record(reading: Reading, length: nat, st: ScanState): Result<ScanState, ScanError> {
    match reading
    case Malformed(e) => Err(BadHeader(e))
    case NewTable(arrayed, segments) =>
      Ok(ScanState(st.headers + [HeaderAt(st.offset, arrayed, segments)], st.assignments, segments, st.lex,
                   st.offset + length))
    case Other(key, after) =>
      Ok(ScanState(st.headers,
        st.assignments + (if key.Some? then [AssignmentAt(st.offset, st.current, key.value)] else []),
        st.current, after, st.offset + length))
  }

  function ScanLine(raw: Bytes, st: ScanState): Result<ScanState, ScanError> {
    Record(Read(StripBreaks(raw), st.lex), |raw|, st)
  }

  function ScanLines(data: Bytes, st: ScanState): Result<ScanState, ScanError>
    decreases |data|
  {
    if data == "" then Ok(st)
    else
      var n := FirstLine(data);
      match ScanLine(data[..n], st)
      case Err(e) => Err(e)
      case Ok(next) => ScanLines(data[n..], next)
  }

  function AndThen(r: Result<ScanState, ScanError>, data: Bytes): Result<ScanState, ScanError> {
    match r
    case Err(e) => Err(e)
    case Ok(st) => ScanLines(data, st)
  }

  lemma ScanOne(data: Bytes, st: ScanState)
    requires data != ""
    ensures ScanLines(data, st) == AndThen(ScanLine(data[..FirstLine(data)], st), data[FirstLine(data)..])
  {
    hide Read;
  }

  lemma ScanNone(st: ScanState)
    ensures ScanLines("", st) == Ok(st)
  {
    hide Read;
  }

  function Close(st: ScanState): Result<Structure, ScanError> {
    if st.lex.multiline.Some? then Err(OpenString)
    else if st.lex.square != 0 || st.lex.curly != 0 then Err(OpenCollection)
    else Ok(Structure(st.headers, st.assignments))
  }

  function Scan(data: Bytes): Result<Structure, ScanError> {
    match ScanLines(data, START)
    case Err(e) => Err(e)
    case Ok(st) => Close(st)
  }

  method FindEquals(line: Bytes) returns (r: Option<nat>)
    ensures r == EqualsAt(line, None, false)
    ensures r.Some? ==> r.value < |line|
  {
    var quote: Option<char> := None;
    var escaped := false;
    var index := 0;
    assert line[0..] == line;
    while index < |line|
      invariant index <= |line|
      invariant EqualsAt(line, None, false)
             == match EqualsAt(line[index..], quote, escaped) case None => None case Some(n) => Some(n + index)
      invariant escaped ==> quote == Some('"')
    {
      var byte := line[index];
      assert line[index..][1..] == line[index + 1..];
      if quote == Some('"') {
        if escaped {
          escaped := false;
        } else if byte == '\\' {
          escaped := true;
        } else if byte == '"' {
          quote := None;
        }
      } else if quote.Some? {
        if byte == quote.value {
          quote := None;
        }
      } else if byte == '\'' || byte == '"' {
        quote := Some(byte);
      } else if byte == '#' {
        return None;
      } else if byte == '=' {
        return Some(index);
      }
      index := index + 1;
    }
    return None;
  }

  method TomlAssignmentKey(rawLine: Bytes) returns (r: Option<seq<string>>)
    ensures r == AssignmentKey(rawLine)
  {
    var equalsAt := FindEquals(rawLine);
    if equalsAt.None? {
      return None;
    }
    var key := Strip(rawLine[..equalsAt.value]);
    if key == "" {
      return None;
    }
    var parsed := ParseTomlHeaderSegments("[" + key + "]");
    if parsed.Err? {
      return None;
    }
    return Some(parsed.value.1);
  }

  // One turn of the line loop: a header, an assignment, or a line inside a value.
  method ReadLine(line: Bytes, lex: LexState) returns (r: Reading)
    ensures r == Read(line, lex)
  {
    var key: Option<seq<string>> := None;
    if lex == AT_BOUNDARY {
      var stripped := DropSpace(line);
      if stripped != "" && stripped[0] != '#' {
        if stripped[0] == '[' {
          var parsed := ParseTomlHeaderSegments(line);
          if parsed.Err? {
            return Malformed(parsed.error);
          }
          return NewTable(parsed.value.0, parsed.value.1);
        }
        key := TomlAssignmentKey(line);
      }
    }
    var after := AdvanceTomlLexicalState(line, lex);
    r := Other(key, after);
  }

  method ScanTomlStructure(data: Bytes) returns (r: Result<Structure, ScanError>)
    ensures r == Scan(data)
  {
    hide Read, ScanLines, StripBreaks, FirstLine;
    var headers: seq<HeaderAt>, assignments: seq<AssignmentAt> := [], [];
    var current: seq<string> := [];
    var lex := AT_BOUNDARY;
    var offset: nat := 0;
    assert data[0..] == data;
    while offset < |data|
      invariant offset <= |data|
      invariant ScanLines(data, START)
        == ScanLines(data[offset..], ScanState(headers, assignments, current, lex, offset))
    {
      ghost var before := ScanState(headers, assignments, current, lex, offset);
      var rest := data[offset..];
      var raw := rest[..FirstLine(rest)];
      assert rest[|raw|..] == data[offset + |raw|..];
      ScanOne(rest, before);
      var reading := ReadLine(StripBreaks(raw), lex);
      assert ScanLine(raw, before) == Record(reading, |raw|, before);
      match reading {
        case Malformed(e) =>
          return Err(BadHeader(e));
        case NewTable(arrayed, segments) =>
          current := segments;
          headers := headers + [HeaderAt(offset, arrayed, segments)];
        case Other(key, after) =>
          if key.Some? {
            assignments := assignments + [AssignmentAt(offset, current, key.value)];
          } else {
            assert assignments + [] == assignments;
          }
          lex := after;
      }
      offset := offset + |raw|;
      assert Record(reading, |raw|, before) == Ok(ScanState(headers, assignments, current, lex, offset));
    }
    assert data[offset..] == "";
    ScanNone(ScanState(headers, assignments, current, lex, offset));
    if lex.multiline.Some? {
      return Err(OpenString);
    }
    if lex.square != 0 || lex.curly != 0 {
      return Err(OpenCollection);
    }
    return Ok(Structure(headers, assignments));
  }

  // ---------------------------------------------------------------- scanning composes

  // Cutting here splits no line.
  predicate CleanCut(a: Bytes, b: Bytes) {
    a == "" || b == "" || a[|a| - 1] == '\n' || (a[|a| - 1] == '\r' && b[0] != '\n')
  }

  lemma {:induction false} FirstLineAppend(a: Bytes, b: Bytes)
    requires a != "" && CleanCut(a, b)
    ensures FirstLine(a + b) == FirstLine(a)
    ensures CleanCut(a[FirstLine(a)..], b)
  {
    hide Read, ScanLines;
    if b == "" {
      assert a + b == a;
    } else if a[0] != '\n' && a[0] != '\r' {
      assert (a + b)[1..] == a[1..] + b;
      FirstLineAppend(a[1..], b);
      assert a[FirstLine(a)..] == a[1..][FirstLine(a[1..])..];
    }
  }

  // Scanning a whole is scanning its parts one after the other.
  lemma {:induction false} ScanAppend(a: Bytes, b: Bytes, st: ScanState)
    requires CleanCut(a, b)
    ensures ScanLines(a + b, st) == AndThen(ScanLines(a, st), b)
    decreases |a|
  {
    hide Read;
    if a == "" {
      assert a + b == b;
    } else {
      FirstLineAppend(a, b);
      var n := FirstLine(a);
      assert (a + b)[..n] == a[..n];
      assert (a + b)[n..] == a[n..] + b;
      match ScanLine(a[..n], st) {
        case Err(_) =>
        case Ok(next) => ScanAppend(a[n..], b, next);
      }
    }
  }

  // The same finding, `shift` bytes later.
  function ShiftHeaders(hs: seq<HeaderAt>, shift: nat): (r: seq<HeaderAt>)
    ensures |r| == |hs|
    ensures forall i :: 0 <= i < |hs| ==> r[i] == hs[i].(start := hs[i].start + shift)
  {
    seq(|hs|, i requires 0 <= i < |hs| => hs[i].(start := hs[i].start + shift))
  }

  function ShiftAssignments(xs: seq<AssignmentAt>, shift: nat): (r: seq<AssignmentAt>)
    ensures |r| == |xs|
    ensures forall i :: 0 <= i < |xs| ==> r[i] == xs[i].(offset := xs[i].offset + shift)
  {
    seq(|xs|, i requires 0 <= i < |xs| => xs[i].(offset := xs[i].offset + shift))
  }

  // Findings made from a fresh start, put after those already collected.
  function Placed(st: ScanState, found: ScanState): ScanState {
    ScanState(
      st.headers + ShiftHeaders(found.headers, st.offset),
      st.assignments + ShiftAssignments(found.assignments, st.offset),
      found.current, found.lex, st.offset + found.offset)
  }

  function Fresh(current: seq<string>, lex: LexState): ScanState {
    ScanState([], [], current, lex, 0)
  }

  function PlacedResult(st: ScanState, r: Result<ScanState, ScanError>): Result<ScanState, ScanError> {
    match r case Err(e) => Err(e) case Ok(found) => Ok(Placed(st, found))
  }

  lemma PlacedTwice(st: ScanState, mid: ScanState, found: ScanState)
    ensures Placed(st, Placed(mid, found)) == Placed(Placed(st, mid), found)
  {
    hide Read, ScanLines;
  }

  lemma RecordFrame(reading: Reading, length: nat, st: ScanState)
    ensures Record(reading, length, st) == PlacedResult(st, Record(reading, length, Fresh(st.current, st.lex)))
  {
    hide Read, ScanLines;
    match reading
    case Malformed(_) =>
    case NewTable(arrayed, segments) =>
      var found := Record(reading, length, Fresh(st.current, st.lex)).value;
      assert ShiftHeaders(found.headers, st.offset) == [HeaderAt(st.offset, arrayed, segments)];
      assert st.assignments + ShiftAssignments(found.assignments, st.offset) == st.assignments;
    case Other(key, _) =>
      var found := Record(reading, length, Fresh(st.current, st.lex)).value;
      assert st.headers + ShiftHeaders(found.headers, st.offset) == st.headers;
      assert ShiftAssignments(found.assignments, st.offset)
          == if key.Some? then [AssignmentAt(st.offset, st.current, key.value)] else [];
  }

  // What scanning finds does not depend on where it starts or what came before.
  lemma {:induction false} ScanFrame(data: Bytes, st: ScanState)
    ensures ScanLines(data, st) == PlacedResult(st, ScanLines(data, Fresh(st.current, st.lex)))
    decreases |data|
  {
    hide Read;
    var blank := Fresh(st.current, st.lex);
    if data == "" {
      assert Placed(st, blank) == st;
    } else {
      var n := FirstLine(data);
      RecordFrame(Read(StripBreaks(data[..n]), st.lex), n, st);
      match ScanLine(data[..n], blank) {
        case Err(_) =>
        case Ok(mid) =>
          ScanFrame(data[n..], mid);
          ScanFrame(data[n..], Placed(st, mid));
          match ScanLines(data[n..], Fresh(mid.current, mid.lex)) {
            case Err(_) =>
            case Ok(found) => PlacedTwice(st, mid, found);
          }
      }
    }
  }

  // Text that opens with a header line does not see the table it comes after.
  lemma ScanFromHeader(data: Bytes, current: seq<string>)
    requires data != "" && HeaderLine(StripBreaks(data[..FirstLine(data)]))
    ensures ScanLines(data, Fresh(current, AT_BOUNDARY)) == ScanLines(data, START)
  {
    var n := FirstLine(data);
    ScanOne(data, Fresh(current, AT_BOUNDARY));
    ScanOne(data, START);
    TableForgets(Read(StripBreaks(data[..n]), AT_BOUNDARY), n, current);
  }

  lemma TableForgets(reading: Reading, length: nat, current: seq<string>)
    requires !reading.Other?
    ensures Record(reading, length, Fresh(current, AT_BOUNDARY)) == Record(reading, length, START)
  {
    hide Read, ScanLines;
  }

  // ---------------------------------------------------------------- cutting at a header

  lemma {:induction false} FirstLineCut(data: Bytes)
    requires data != ""
    ensures var n := FirstLine(data); FirstLine(data[..n]) == n && CleanCut(data[..n], data[n..])
  {
    hide Read, ScanLines;
    if data[0] != '\n' && data[0] != '\r' && |data| > 1 {
      FirstLineCut(data[1..]);
      var n := FirstLine(data);
      assert data[..n][1..] == data[1..][..n - 1];
      assert data[n..] == data[1..][n - 1..];
    }
  }

  lemma ScanFirstLine(data: Bytes, st: ScanState)
    requires data != ""
    ensures ScanLines(data[..FirstLine(data)], st) == ScanLine(data[..FirstLine(data)], st)
  {
    hide Read;
    FirstLineCut(data);
    var raw := data[..FirstLine(data)];
    ScanOne(raw, st);
    assert raw[..|raw|] == raw && raw[|raw|..] == "";
  }

  // Scanning only adds findings, and adds them at or after its starting offset.
  lemma ScanGrows(data: Bytes, st: ScanState)
    requires ScanLines(data, st).Ok?
    ensures var end := ScanLines(data, st).value;
      && st.headers <= end.headers
      && (forall i :: |st.headers| <= i < |end.headers| ==> end.headers[i].start >= st.offset)
  {
    hide Read, ScanLines;
    ScanFrame(data, st);
  }

  // The first line of the text is the given header.
  ghost predicate OpensWith(data: Bytes, h: HeaderAt) {
    data != "" && Read(StripBreaks(data[..FirstLine(data)]), AT_BOUNDARY) == NewTable(h.arrayed, h.segments)
  }

  // The text can be cut into `a` and `b`: outside every value, where `b` opens the i-th table.
  ghost predicate CutsInto(a: Bytes, b: Bytes, st: ScanState, headers: seq<HeaderAt>, i: nat)
    requires i < |headers|
  {
    && headers[i].start == st.offset + |a|
    && CleanCut(a, b)
    && OpensWith(b, headers[i])
    && var before := ScanLines(a, st);
    && before.Ok? && before.value.lex == AT_BOUNDARY
    && before.value.headers == headers[..i] && before.value.offset == st.offset + |a|
  }

  lemma HeaderCutHere(data: Bytes, st: ScanState, headers: seq<HeaderAt>)
    requires data != "" && ScanLines(data, st).Ok? && ScanLines(data, st).value.headers == headers
    requires |ScanLine(data[..FirstLine(data)], st).value.headers| > |st.headers|
    ensures |st.headers| < |headers| && CutsInto("", data, st, headers, |st.headers|)
  {
    hide Read, ScanLines, StripBreaks, FirstLine;
    ScanNone(st);
    var n := FirstLine(data);
    ScanOne(data, st);
    var reading := Read(StripBreaks(data[..n]), st.lex);
    var mid := ScanLine(data[..n], st).value;
    assert mid == Record(reading, n, st).value && reading.NewTable?;
    ScanGrows(data[n..], mid);
    assert headers[|st.headers|] == mid.headers[|st.headers|];
    assert headers[..|st.headers|] == st.headers;
    TableAtBoundary(StripBreaks(data[..n]), st.lex);
  }

  lemma TableAtBoundary(line: Bytes, lex: LexState)
    requires Read(line, lex).NewTable?
    ensures lex == AT_BOUNDARY
  {
  }

  lemma HeaderCutLater(data: Bytes, a: Bytes, b: Bytes, st: ScanState, headers: seq<HeaderAt>, i: nat)
    requires data != "" && ScanLine(data[..FirstLine(data)], st).Ok? && i < |headers|
    requires data[FirstLine(data)..] == a + b
    requires CutsInto(a, b, ScanLine(data[..FirstLine(data)], st).value, headers, i)
    ensures data[..FirstLine(data)] + a + b == data
    ensures CutsInto(data[..FirstLine(data)] + a, b, st, headers, i)
  {
    hide Read, ScanLines;
    var n := FirstLine(data);
    FirstLineCut(data);
    ScanFirstLine(data, st);
    assert data[..n] + a + b == data[..n] + (a + b) == data;
    if a == "" {
      assert a + b == b && data[..n] + a == data[..n];
    }
    ScanAppend(data[..n], a, st);
  }

  lemma {:induction false} HeaderCut(data: Bytes, st: ScanState, i: nat) returns (a: Bytes, b: Bytes)
    requires ScanLines(data, st).Ok?
    requires |st.headers| <= i < |ScanLines(data, st).value.headers|
    ensures data == a + b && CutsInto(a, b, st, ScanLines(data, st).value.headers, i)
    decreases |data|
  {
    hide Read, ScanLines;
    ScanNone(st);
    var n := FirstLine(data);
    var headers := ScanLines(data, st).value.headers;
    ScanOne(data, st);
    var mid := ScanLine(data[..n], st).value;
    assert |mid.headers| <= |st.headers| + 1;
    if i < |mid.headers| {
      HeaderCutHere(data, st, headers);
      a, b := "", data;
      assert data == "" + data;
    } else {
      a, b := HeaderCut(data[n..], mid, i);
      HeaderCutLater(data, a, b, st, headers, i);
      a := data[..n] + a;
    }
  }

  // After a header line, scanning goes on from the next line inside the new table.
  lemma AfterHeader(data: Bytes, h: HeaderAt, st: ScanState)
    requires OpensWith(data, h) && st.lex == AT_BOUNDARY
    ensures ScanLines(data, st) == ScanLines(data[FirstLine(data)..],
      ScanState(st.headers + [h.(start := st.offset)], st.assignments, h.segments, AT_BOUNDARY,
                st.offset + FirstLine(data)))
  {
    hide Read, ScanLines;
    ScanOne(data, st);
  }

  // ---------------------------------------------------------------- blank lines

  lemma {:induction false} FirstLineAddBreak(data: Bytes)
    requires data != "" && data[|data| - 1] != '\n'
    ensures FirstLine(data + "\n") == if FirstLine(data) == |data| then |data| + 1 else FirstLine(data)
  {
    hide Read, ScanLines;
    if data[0] == '\n' {
    } else if data[0] == '\r' {
    } else if |data| > 1 {
      assert (data + "\n")[1..] == data[1..] + "\n";
      FirstLineAddBreak(data[1..]);
    } else {
      assert (data + "\n")[1..] == "\n";
    }
  }

  lemma RecordLength(reading: Reading, length: nat, st: ScanState)
    requires Record(reading, length, st).Ok?
    ensures Record(reading, length + 1, st)
         == Ok(Record(reading, length, st).value.(offset := Record(reading, length, st).value.offset + 1))
  {
  }

  lemma ScanLastLine(raw: Bytes, st: ScanState)
    requires raw != "" && FirstLine(raw) == |raw|
    ensures ScanLines(raw, st) == Record(Read(StripBreaks(raw), st.lex), |raw|, st)
  {
    hide Read;
    ScanOne(raw, st);
    assert raw[..|raw|] == raw && raw[|raw|..] == "";
  }

  // Ending the last line changes nothing but the length.
  lemma {:induction false} ScanAddBreak(data: Bytes, st: ScanState)
    requires data != "" && data[|data| - 1] != '\n'
    requires ScanLines(data, st).Ok?
    ensures ScanLines(data + "\n", st) == Ok(ScanLines(data, st).value.(offset := ScanLines(data, st).value.offset + 1))
    decreases |data|
  {
    hide Read, ScanLines;
    var n := FirstLine(data);
    var longer := data + "\n";
    FirstLineAddBreak(data);
    if n == |data| {
      ScanLastLine(data, st);
      ScanLastLine(longer, st);
      assert longer[..|data|] == data;
      assert StripBreaks(longer) == StripBreaks(data);
      RecordLength(Read(StripBreaks(data), st.lex), n, st);
    } else {
      ScanOne(data, st);
      ScanOne(longer, st);
      assert longer[..n] == data[..n];
      assert longer[n..] == data[n..] + "\n";
      ScanAddBreak(data[n..], ScanLine(data[..n], st).value);
    }
  }

  lemma AdvanceNothing(lex: LexState)
    ensures Advance("", lex) == lex
  {
    hide Read, ScanLines;
  }

  lemma ScanBlankLine(st: ScanState)
    ensures ScanLines("\n", st) == Ok(st.(offset := st.offset + 1))
  {
    ScanOne("\n", st);
    assert "\n"[..1] == "\n" && "\n"[1..] == "";
    assert StripBreaks("\n") == StripBreaks("") == "";
    AdvanceNothing(st.lex);
    assert st.assignments + [] == st.assignments;
  }

  // ---------------------------------------------------------------- where findings lie

  lemma {:induction false} ScanOffset(data: Bytes, st: ScanState)
    requires ScanLines(data, st).Ok?
    ensures var end := ScanLines(data, st).value;
      && end.offset == st.offset + |data|
      && (forall i :: |st.headers| <= i < |end.headers| ==> st.offset <= end.headers[i].start < end.offset)
    decreases |data|
  {
    hide Read;
    if data != "" {
      var n := FirstLine(data);
      ScanOne(data, st);
      var mid := ScanLine(data[..n], st).value;
      ScanOffset(data[n..], mid);
      ScanGrows(data[n..], mid);
      ScanGrows(data, st);
      var end := ScanLines(data, st).value;
      forall i | |st.headers| <= i < |end.headers|
        ensures st.offset <= end.headers[i].start < end.offset
      {
        if i < |mid.headers| {
          assert end.headers[i] == mid.headers[i];
        }
      }
    }
  }

  // Text that opens no table leaves the current one in force.
  lemma {:induction false} ScanInsideTable(data: Bytes, st: ScanState)
    requires ScanLines(data, st).Ok?
    requires ScanLines(data, st).value.headers == st.headers
    requires forall x :: x in st.assignments ==> x.table == st.current
    ensures var end := ScanLines(data, st).value;
      end.current == st.current && forall x :: x in end.assignments ==> x.table == st.current
    decreases |data|
  {
    hide Read;
    if data != "" {
      var n := FirstLine(data);
      ScanOne(data, st);
      var mid := ScanLine(data[..n], st).value;
      ScanGrows(data[n..], mid);
      assert mid.headers == st.headers by {
        assert |mid.headers| <= |st.headers|;
      }
      ScanInsideTable(data[n..], mid);
    }
  }

  ghost predicate Ascending(st: ScanState) {
    && (forall i, j :: 0 <= i < j < |st.headers| ==> st.headers[i].start < st.headers[j].start)
    && (forall i :: 0 <= i < |st.headers| ==> st.headers[i].start < st.offset)
  }

  lemma RecordAscends(reading: Reading, length: nat, st: ScanState)
    requires Ascending(st) && length > 0 && Record(reading, length, st).Ok?
    ensures Ascending(Record(reading, length, st).value)
  {
  }

  // Headers are reported in the order of their starts.
  lemma {:induction false} ScanAscends(data: Bytes, st: ScanState)
    requires Ascending(st) && ScanLines(data, st).Ok?
    ensures Ascending(ScanLines(data, st).value)
    decreases |data|
  {
    hide Read;
    if data != "" {
      var n := FirstLine(data);
      ScanOne(data, st);
      RecordAscends(Read(StripBreaks(data[..n]), st.lex), n, st);
      ScanAscends(data[n..], ScanLine(data[..n], st).value);
    }
  }
}
