// How a config with one registration is put together (release_tools/installer.py, 583-605, 798-996).
//
// A config has exactly one registration, in a table found by the exact pattern, if and only if
// it is some clean text, that table, and a tail that is empty or opens the next table.
module Splice {
  import opened Basics
  import opened TomlLexer
  import opened TomlHeader
  import opened TomlScan
  import opened Registration

  ghost predicate NoRegistrations(st: ScanState) {
    && (forall h :: h in st.headers ==> !Registers(h.segments))
    && (forall x :: x in st.assignments ==> !AssignmentRegisters(x))
  }

  // Text before the table: whole lines, every value closed, nothing registered.
  ghost predicate Lead(a: Bytes) {
    && (a == "" || a[|a| - 1] == '\n')
    && ScanLines(a, START).Ok?
    && ScanLines(a, START).value.lex == AT_BOUNDARY
    && NoRegistrations(ScanLines(a, START).value)
  }

  // Text after the table: nothing, or further tables with every value closed and nothing registered.
  ghost predicate Tail(b: Bytes) {
    b != "" ==>
      && Read(StripBreaks(b[..FirstLine(b)]), AT_BOUNDARY).NewTable?
      && ScanLines(b, START).Ok?
      && ScanLines(b, START).value.lex == AT_BOUNDARY
      && NoRegistrations(ScanLines(b, START).value)
  }

  // The text of one table registering `name`, and of nothing else.
  ghost predicate TableText(t: Bytes, name: string) {
    && MatchHeader(t, name).Some?
    && ScanLines(t, START).Ok?
    && ScanLines(t, START).value.lex == AT_BOUNDARY
    && ScanLines(t, START).value.headers == [HeaderAt(0, false, [MCP_SERVERS, name])]
  }

  ghost predicate Splits(name: string, a: Bytes, t: Bytes, b: Bytes) {
    Lead(a) && TableText(t, name) && Tail(b) && CleanCut(t, b)
  }

  // What the finder reports: the table in the slot of its name.
  function Found(name: string, t: Table): (Option<Table>, Option<Table>) {
    if name == SERVER_NAME then (Some(t), None) else (None, Some(t))
  }

  // ---------------------------------------------------------------- tables and their entries

  lemma TableEntries(t: Bytes, name: string)
    requires TableText(t, name) && OwnedName(name)
    ensures t != "" && HeaderLine(StripBreaks(t[..FirstLine(t)]))
    ensures forall x :: x in ScanLines(t, START).value.assignments ==> x.table == [MCP_SERVERS, name]
  {
    hide MatchHeader, Read, ScanLines, FirstLine, StripBreaks, HeaderLine;
    MatchedLine(t, name);
    TableOpens(t, name);
    var n := FirstLine(t);
    ScanOne(t, START);
    var mid := ScanLine(t[..n], START).value;
    ScanInsideTable(t[n..], mid);
  }

  lemma TableOpens(t: Bytes, name: string)
    requires t != "" && ScanLines(t, START).Ok?
    requires var r := Read(StripBreaks(t[..FirstLine(t)]), AT_BOUNDARY);
      (r.NewTable? ==> r == NewTable(false, [MCP_SERVERS, name])) && !r.Other?
    ensures HeaderLine(StripBreaks(t[..FirstLine(t)]))
    ensures ScanLine(t[..FirstLine(t)], START)
         == Ok(ScanState([HeaderAt(0, false, [MCP_SERVERS, name])], [], [MCP_SERVERS, name], AT_BOUNDARY, FirstLine(t)))
  {
    hide Read, ScanLines, FirstLine, StripBreaks, HeaderLine;
    ScanOne(t, START);
    ReadsHeader(StripBreaks(t[..FirstLine(t)]));
    assert [] + [HeaderAt(0, false, [MCP_SERVERS, name])] == [HeaderAt(0, false, [MCP_SERVERS, name])];
  }

  lemma ReadsHeader(line: Bytes)
    requires !Read(line, AT_BOUNDARY).Other?
    ensures HeaderLine(line)
  {
  }

  lemma OwnEntriesDoNotRegister(x: AssignmentAt, name: string)
    requires OwnedName(name) && x.table == [MCP_SERVERS, name]
    ensures !AssignmentRegisters(x)
  {
    assert |x.table + x.key| >= 2;
  }

  // ---------------------------------------------------------------- scanning the pieces

  lemma TailFromHeader(b: Bytes, st: ScanState)
    requires Tail(b) && b != "" && st.lex == AT_BOUNDARY
    ensures ScanLines(b, st) == Ok(Placed(st, ScanLines(b, START).value))
  {
    hide Read, ScanLines;
    TailIsHeader(StripBreaks(b[..FirstLine(b)]));
    ScanFrame(b, st);
    ScanFromHeader(b, st.current);
  }

  lemma TailIsHeader(line: Bytes)
    requires Read(line, AT_BOUNDARY).NewTable?
    ensures HeaderLine(line)
  {
  }

  lemma TableFromHeader(t: Bytes, name: string, st: ScanState)
    requires TableText(t, name) && OwnedName(name) && st.lex == AT_BOUNDARY
    ensures ScanLines(t, st) == Ok(Placed(st, ScanLines(t, START).value))
  {
    hide Read, ScanLines;
    hide MatchHeader;
    TableEntries(t, name);
    ScanFrame(t, st);
    ScanFromHeader(t, st.current);
  }

  lemma CutAfter(a: Bytes, t: Bytes, b: Bytes)
    requires t != "" && CleanCut(t, b)
    ensures CleanCut(a + t, b)
  {
    assert (a + t)[|a + t| - 1] == t[|t| - 1];
  }

  // Scanning the three pieces together finds what each holds, in order and in place.
  lemma ScanSplit(name: string, a: Bytes, t: Bytes, b: Bytes)
    requires Splits(name, a, t, b) && OwnedName(name)
    ensures ScanLines(a + t, START) == Ok(Placed(ScanLines(a, START).value, ScanLines(t, START).value))
    ensures b != "" ==>
      (ScanLines(a + t + b, START)
       == Ok(Placed(Placed(ScanLines(a, START).value, ScanLines(t, START).value), ScanLines(b, START).value)))
    ensures b == "" ==> a + t + b == a + t
  {
    hide Read, MatchHeader, ScanLines, NoRegistrations, StripBreaks, FirstLine;
    var sa := ScanLines(a, START).value;
    ScanAppend(a, t, START);
    TableFromHeader(t, name, sa);
    if b != "" {
      TableEntries(t, name);
      CutAfter(a, t, b);
      ScanAppend(a + t, b, START);
      TailFromHeader(b, Placed(sa, ScanLines(t, START).value));
    } else {
      assert a + t + b == a + t;
    }
  }

  // The headers of the whole: those before, the registration, those after.
  ghost function HeadersAround(name: string, a: Bytes, t: Bytes, b: Bytes): seq<HeaderAt>
    requires Splits(name, a, t, b)
  {
    ScanLines(a, START).value.headers + [HeaderAt(|a|, false, [MCP_SERVERS, name])]
      + (if b == "" then [] else ShiftHeaders(ScanLines(b, START).value.headers, |a| + |t|))
  }

  lemma SplitHeaders(name: string, a: Bytes, t: Bytes, b: Bytes)
    requires Splits(name, a, t, b) && OwnedName(name)
    ensures Scan(a + t + b).Ok?
    ensures Scan(a + t + b).value.headers == HeadersAround(name, a, t, b)
  {
    hide Read, MatchHeader, ScanLines, NoRegistrations, AssignmentRegisters, StripBreaks, FirstLine, CleanCut;
    var sa, st := ScanLines(a, START).value, ScanLines(t, START).value;
    ScanSplit(name, a, t, b);
    ScanOffset(a, START);
    ScanOffset(t, START);
    assert ShiftHeaders(st.headers, |a|) == [HeaderAt(|a|, false, [MCP_SERVERS, name])];
  }

  lemma NoneAmongPlaced(st: ScanState, found: ScanState)
    requires forall x :: x in st.assignments ==> !AssignmentRegisters(x)
    requires forall x :: x in found.assignments ==> !AssignmentRegisters(x)
    ensures forall x :: x in Placed(st, found).assignments ==> !AssignmentRegisters(x)
  {
    hide AssignmentRegisters;
    forall x | x in Placed(st, found).assignments
      ensures !AssignmentRegisters(x)
    {
      PlacedEntry(st, found, x);
      if x !in st.assignments {
        var y :| y in found.assignments && y.table == x.table && y.key == x.key;
        SameEntry(x, y);
      }
    }
  }

  lemma TableRegistersNothingElse(t: Bytes, name: string)
    requires TableText(t, name) && OwnedName(name)
    ensures forall x :: x in ScanLines(t, START).value.assignments ==> !AssignmentRegisters(x)
  {
    hide AssignmentRegisters;
    TableEntries(t, name);
    forall x | x in ScanLines(t, START).value.assignments
      ensures !AssignmentRegisters(x)
    {
      OwnEntriesDoNotRegister(x, name);
    }
  }

  lemma SplitAssignments(name: string, a: Bytes, t: Bytes, b: Bytes)
    requires Splits(name, a, t, b) && OwnedName(name)
    ensures Scan(a + t + b).Ok?
    ensures forall x :: x in Scan(a + t + b).value.assignments ==> !AssignmentRegisters(x)
  {
    hide Read, ScanLines;
    hide MatchHeader;
    hide AssignmentRegisters;
    var sa, st := ScanLines(a, START).value, ScanLines(t, START).value;
    SplitHeaders(name, a, t, b);
    ScanSplit(name, a, t, b);
    TableRegistersNothingElse(t, name);
    NoneAmongPlaced(sa, st);
    if b != "" {
      NoneAmongPlaced(Placed(sa, st), ScanLines(b, START).value);
    }
  }

  lemma PlacedEntry(st: ScanState, found: ScanState, x: AssignmentAt)
    requires x in Placed(st, found).assignments
    ensures x in st.assignments || exists y :: y in found.assignments && y.table == x.table && y.key == x.key
  {
    var i :| 0 <= i < |Placed(st, found).assignments| && Placed(st, found).assignments[i] == x;
    if i >= |st.assignments| {
      var y := found.assignments[i - |st.assignments|];
      assert y in found.assignments;
    }
  }

  lemma SameEntry(x: AssignmentAt, y: AssignmentAt)
    requires y.table == x.table && y.key == x.key
    ensures AssignmentRegisters(x) == AssignmentRegisters(y)
  {
  }

  // ---------------------------------------------------------------- exact matches

  // A header the pattern matches registers exactly the matched name.
  lemma MatchMeansRegistration(data: Bytes, i: nat, name: string)
    requires Scan(data).Ok? && i < |Scan(data).value.headers| && OwnedName(name)
    requires Matches(data, Scan(data).value.headers[i].start, name)
    ensures Scan(data).value.headers[i] == HeaderAt(Scan(data).value.headers[i].start, false, [MCP_SERVERS, name])
  {
    hide Read, ScanLines;
    hide MatchHeader;
    var h := Scan(data).value.headers[i];
    var a, b := HeaderCut(data, START, i);
    assert data[h.start..] == b;
    MatchedLine(b, name);
  }

  lemma {:induction false} ExactNone(data: Bytes, headers: seq<HeaderAt>, name: string)
    requires forall h :: h in headers ==> !Matches(data, h.start, name)
    ensures Exact(data, headers, name) == []
  {
    if headers != [] {
      ExactNone(data, headers[1..], name);
    }
  }

  lemma {:induction false} ExactAppend(data: Bytes, xs: seq<HeaderAt>, ys: seq<HeaderAt>, name: string)
    ensures Exact(data, xs + ys, name) == Exact(data, xs, name) + Exact(data, ys, name)
  {
    hide Matches;
    if xs == [] {
      assert xs + ys == ys;
      assert [] + Exact(data, ys, name) == Exact(data, ys, name);
    } else {
      ExactAppend(data, xs[1..], ys, name);
      assert (xs + ys)[1..] == xs[1..] + ys;
      var first := if Matches(data, xs[0].start, name) then [xs[0]] else [];
      assert first + (Exact(data, xs[1..], name) + Exact(data, ys, name))
        == first + Exact(data, xs[1..], name) + Exact(data, ys, name);
    }
  }

  lemma {:induction false} ExactAre(data: Bytes, headers: seq<HeaderAt>, name: string)
    ensures forall h :: h in Exact(data, headers, name) <==> h in headers && Matches(data, h.start, name)
  {
    if headers != [] {
      ExactAre(data, headers[1..], name);
      assert headers == [headers[0]] + headers[1..];
    }
  }

  // The first start at or after `from` among ascending starts.
  lemma {:induction false} NextStartIs(headers: seq<HeaderAt>, from: int, limit: nat, i: nat)
    requires i <= |headers|
    requires forall j :: 0 <= j < i ==> headers[j].start < from
    requires i < |headers| ==> headers[i].start >= from && headers[i].start < limit
    requires forall j :: i < j < |headers| ==> headers[i].start < headers[j].start
    ensures NextStart(headers, from, limit) == if i < |headers| then headers[i].start else limit
    decreases |headers|
  {
    if headers != [] {
      if i > 0 {
        NextStartIs(headers[1..], from, limit, i - 1);
      } else {
        NextStartAbove(headers[1..], from, limit, headers[0].start);
      }
    }
  }

  lemma {:induction false} NextStartAbove(headers: seq<HeaderAt>, from: int, limit: nat, low: nat)
    requires low < limit && forall j :: 0 <= j < |headers| ==> headers[j].start > low
    ensures NextStart(headers, from, limit) > low
  {
    if headers != [] {
      NextStartAbove(headers[1..], from, limit, low);
    }
  }

  // ---------------------------------------------------------------- a split config is found

  lemma MatchIgnoresWhatFollows(t: Bytes, b: Bytes, name: string)
    requires MatchHeader(t, name).Some? && OwnedName(name) && CleanCut(t, b)
    ensures MatchHeader(t + b, name) == Some(MatchHeader(t, name).value.(tail := MatchHeader(t, name).value.tail + b))
  {
    hide MatchHeader;
    var m := MatchHeader(t, name).value;
    MatchedParts(t, name);
    PrefixAscii(m, name);
    if m.tail == "" {
      MatchedIsHeader(m, name);
      assert NoBreaks(t);
      assert b == "";
    }
    var longer := m.(tail := m.tail + b);
    Assoc(m.comment, m.tail, b);
    Assoc(Prefix(m, name), m.comment + m.tail, b);
    assert Prefix(longer, name) == Prefix(m, name);
    MatchRejoined(longer, name);
  }

  // Among the headers of a split config, only the registration registers anything.
  lemma OnlyOwnRegisters(name: string, a: Bytes, t: Bytes, b: Bytes, i: nat)
    requires Splits(name, a, t, b) && OwnedName(name)
    requires i < |HeadersAround(name, a, t, b)|
    ensures Registers(HeadersAround(name, a, t, b)[i].segments) <==> i == |ScanLines(a, START).value.headers|
  {
    hide Read, ScanLines;
    hide MatchHeader;
    var before := ScanLines(a, START).value.headers;
    if i < |before| {
      assert before[i] in before;
    } else if i > |before| {
      var after := ScanLines(b, START).value.headers;
      assert after[i - |before| - 1] in after;
    }
  }

  lemma OnlyOwnMatches(name: string, a: Bytes, t: Bytes, b: Bytes, other: string, i: nat)
    requires Splits(name, a, t, b) && OwnedName(name) && OwnedName(other)
    requires i < |HeadersAround(name, a, t, b)|
    requires Matches(a + t + b, HeadersAround(name, a, t, b)[i].start, other)
    ensures i == |ScanLines(a, START).value.headers| && other == name
  {
    hide Read, ScanLines;
    hide MatchHeader;
    hide Matches;
    SplitHeaders(name, a, t, b);
    MatchMeansRegistration(a + t + b, i, other);
    OnlyOwnRegisters(name, a, t, b, i);
  }

  // At most one header matches, so it is the only exact one.
  lemma ExactSingle(data: Bytes, headers: seq<HeaderAt>, n: nat, name: string)
    requires n < |headers|
    requires forall i :: 0 <= i < |headers| && i != n ==> !Matches(data, headers[i].start, name)
    ensures Exact(data, headers, name) == if Matches(data, headers[n].start, name) then [headers[n]] else []
  {
    hide Matches;
    var before, after := headers[..n], headers[n + 1..];
    ExactNone(data, before, name);
    ExactNone(data, after, name);
    assert headers == before + ([headers[n]] + after);
    ExactAppend(data, before, [headers[n]] + after, name);
    ExactAppend(data, [headers[n]], after, name);
    assert Exact(data, [headers[n]], name) == if Matches(data, headers[n].start, name) then [headers[n]] else [];
  }

  lemma SplitMatches(name: string, a: Bytes, t: Bytes, b: Bytes, other: string)
    requires Splits(name, a, t, b) && OwnedName(name) && OwnedName(other)
    ensures Exact(a + t + b, HeadersAround(name, a, t, b), other)
         == if other == name then [HeaderAt(|a|, false, [MCP_SERVERS, name])] else []
  {
    var data := a + t + b;
    var headers := HeadersAround(name, a, t, b);
    var n := |ScanLines(a, START).value.headers|;
    OwnPlace(name, a, t, b);
    hide Read, ScanLines, MatchHeader, Matches, Exact, HeadersAround, Splits;
    forall i | 0 <= i < |headers| && i != n
      ensures !Matches(data, headers[i].start, other)
    {
      if Matches(data, headers[i].start, other) {
        OnlyOwnMatches(name, a, t, b, other, i);
      }
    }
    ExactSingle(data, headers, n, other);
    if other == name {
      SplitOwnMatch(name, a, t, b);
    } else if Matches(data, headers[n].start, other) {
      OnlyOwnMatches(name, a, t, b, other, n);
    }
  }

  lemma OwnPlace(name: string, a: Bytes, t: Bytes, b: Bytes)
    requires Splits(name, a, t, b)
    ensures var headers, n := HeadersAround(name, a, t, b), |ScanLines(a, START).value.headers|;
      n < |headers| && headers[n] == HeaderAt(|a|, false, [MCP_SERVERS, name])
  {
    hide Read, ScanLines, MatchHeader;
  }

  lemma SplitOwnMatch(name: string, a: Bytes, t: Bytes, b: Bytes)
    requires Splits(name, a, t, b) && OwnedName(name)
    ensures Matches(a + t + b, |a|, name)
    ensures MatchHeader((a + t + b)[|a|..], name)
      == Some(MatchHeader(t, name).value.(tail := MatchHeader(t, name).value.tail + b))
  {
    hide MatchHeader;
    hide Read, ScanLines;
    assert (a + t + b)[|a|..] == t + b;
    Assoc(a, t, b);
    MatchIgnoresWhatFollows(t, b, name);
    OwnMatch(a, t + b, name);
  }

  lemma OwnMatch(a: Bytes, rest: Bytes, name: string)
    requires a == "" || a[|a| - 1] == '\n'
    requires MatchHeader(rest, name).Some?
    ensures Matches(a + rest, |a|, name)
  {
    assert (a + rest)[|a|..] == rest;
  }

  // The match ends with the table's first line.
  lemma SplitMatchEnd(name: string, a: Bytes, t: Bytes, b: Bytes)
    requires Splits(name, a, t, b) && OwnedName(name)
    ensures var data := a + t + b;
      && MatchHeader(data[|a|..], name).Some?
      && MatchEnd(data, |a|, MatchHeader(data[|a|..], name).value) == |a| + FirstLine(t)
  {
    hide Read, ScanLines;
    hide MatchHeader;
    SplitOwnMatch(name, a, t, b);
    var data := a + t + b;
    assert data[|a|..] == t + b;
    MatchedLine(t + b, name);
    MatchedParts(t + b, name);
    MatchedLine(t, name);
    FirstLineAppend(t, b);
  }

  lemma AroundStarts(name: string, a: Bytes, t: Bytes, b: Bytes)
    requires Splits(name, a, t, b) && OwnedName(name)
    ensures var headers, n := HeadersAround(name, a, t, b), |ScanLines(a, START).value.headers|;
      && (forall j :: 0 <= j < n ==> headers[j].start < |a|)
      && headers[n].start == |a|
      && (b == "" ==> |headers| == n + 1)
      && (b != "" ==> |headers| > n + 1 && headers[n + 1].start == |a| + |t|)
  {
    hide Read, ScanLines;
    hide MatchHeader;
    ScanOffset(a, START);
    if b != "" {
      TailOpens(b);
    }
  }

  lemma SplitAscends(name: string, a: Bytes, t: Bytes, b: Bytes)
    requires Splits(name, a, t, b) && OwnedName(name)
    ensures var headers := HeadersAround(name, a, t, b);
      && (forall i, j :: 0 <= i < j < |headers| ==> headers[i].start < headers[j].start)
      && (forall i :: 0 <= i < |headers| ==> headers[i].start < |a + t + b|)
  {
    hide Read, ScanLines;
    hide MatchHeader;
    SplitHeaders(name, a, t, b);
    ScanAscends(a + t + b, START);
    ScanOffset(a + t + b, START);
  }

  // A table runs to the header after it, or to the end.
  lemma EndOfTable(headers: seq<HeaderAt>, n: nat, line: nat, end: nat, limit: nat)
    requires n < |headers|
    requires forall i, j :: 0 <= i < j < |headers| ==> headers[i].start < headers[j].start
    requires 0 < line && headers[n].start + line <= end
    requires (|headers| == n + 1 && end == limit) || (|headers| > n + 1 && headers[n + 1].start == end && end < limit)
    ensures NextStart(headers, headers[n].start + line, limit) == end
  {
    NextStartIs(headers, headers[n].start + line, limit, n + 1);
  }

  lemma SplitTableEnd(name: string, a: Bytes, t: Bytes, b: Bytes)
    requires Splits(name, a, t, b) && OwnedName(name)
    ensures t != ""
    ensures NextStart(HeadersAround(name, a, t, b), |a| + FirstLine(t), |a + t + b|) == |a| + |t|
  {
    hide Read, ScanLines;
    hide MatchHeader;
    hide NextStart;
    TableEntries(t, name);
    AroundStarts(name, a, t, b);
    SplitAscends(name, a, t, b);
    EndOfTable(HeadersAround(name, a, t, b), |ScanLines(a, START).value.headers|, FirstLine(t), |a| + |t|, |a + t + b|);
  }

  lemma TailOpens(b: Bytes)
    requires Tail(b) && b != ""
    ensures ScanLines(b, START).value.headers != [] && ScanLines(b, START).value.headers[0].start == 0
  {
    var reading := Read(StripBreaks(b[..FirstLine(b)]), AT_BOUNDARY);
    ScanOne(b, START);
    hide Read, ScanLines;
    ScanGrows(b[FirstLine(b)..], ScanLine(b[..FirstLine(b)], START).value);
  }

  // One exact match: the table runs from it to the next header.
  lemma FindOneTable(data: Bytes, headers: seq<HeaderAt>, name: string, h: HeaderAt, end: nat)
    requires Exact(data, headers, name) == [h] && Matches(data, h.start, name)
    requires NextStart(headers, MatchEnd(data, h.start, MatchHeader(data[h.start..], name).value), |data|) == end
    requires h.start <= end <= |data|
    ensures FindTable(data, headers, name) == Ok(Some(Table(h.start, end, data[h.start..end])))
  {
    hide MatchHeader;
    hide Exact;
    hide NextStart;
  }

  lemma FindNoTable(data: Bytes, headers: seq<HeaderAt>, name: string)
    requires Exact(data, headers, name) == []
    ensures FindTable(data, headers, name) == Ok(None)
  {
    hide MatchHeader;
    hide Exact;
    hide NextStart;
  }

  lemma SplitFindTable(name: string, a: Bytes, t: Bytes, b: Bytes, other: string)
    requires Splits(name, a, t, b) && OwnedName(name) && OwnedName(other)
    ensures FindTable(a + t + b, HeadersAround(name, a, t, b), other)
         == Ok(if other == name then Some(Table(|a|, |a| + |t|, t)) else None)
  {
    hide Read, ScanLines, FirstLine, MatchHeader, Exact, NextStart, FindTable, Matches, MatchEnd, HeadersAround, Splits;
    var data := a + t + b;
    var headers := HeadersAround(name, a, t, b);
    SplitMatches(name, a, t, b, other);
    if other == name {
      SplitOwnMatch(name, a, t, b);
      SplitMatchEnd(name, a, t, b);
      SplitTableEnd(name, a, t, b);
      assert data[|a|..|a| + |t|] == t;
      FindOneTable(data, headers, name, HeaderAt(|a|, false, [MCP_SERVERS, name]), |a| + |t|);
    } else {
      FindNoTable(data, headers, other);
    }
  }

  // A config put together this way is reported with exactly that table.
  lemma SplitIsFound(name: string, a: Bytes, t: Bytes, b: Bytes)
    requires Splits(name, a, t, b) && OwnedName(name)
    ensures FindRegistrationTables(a + t + b) == Ok(Found(name, Table(|a|, |a| + |t|, t)))
  {
    hide Read, ScanLines;
    hide MatchHeader;
    hide AssignmentRegisters;
    hide FindTable;
    var headers := HeadersAround(name, a, t, b);
    var n := |ScanLines(a, START).value.headers|;
    SplitHeaders(name, a, t, b);
    SplitAssignments(name, a, t, b);
    SplitFindTable(name, a, t, b, SERVER_NAME);
    SplitFindTable(name, a, t, b, LEGACY_SERVER_NAME);
    forall h | h in headers && Registers(h.segments)
      ensures h == headers[n]
    {
      var i :| 0 <= i < |headers| && headers[i] == h;
      OnlyOwnRegisters(name, a, t, b, i);
    }
    assert headers[n] in headers;
  }

  // ---------------------------------------------------------------- a found config splits

  // Nothing is registered at all.
  ghost predicate Unregistered(data: Bytes) {
    FindRegistrationTables(data) == Ok((None, None))
  }

  lemma UnregisteredIff(data: Bytes)
    ensures Unregistered(data) <==> Scan(data).Ok? && NoRegistrations(ScanLines(data, START).value)
  {
    hide Read, ScanLines;
    hide MatchHeader;
    hide AssignmentRegisters;
    if Scan(data).Ok? && NoRegistrations(ScanLines(data, START).value) {
      var headers := Scan(data).value.headers;
      NothingMatches(data, SERVER_NAME);
      NothingMatches(data, LEGACY_SERVER_NAME);
      FindNoTable(data, headers, SERVER_NAME);
      FindNoTable(data, headers, LEGACY_SERVER_NAME);
    }
  }

  lemma NothingMatches(data: Bytes, name: string)
    requires Scan(data).Ok? && OwnedName(name)
    requires forall h :: h in Scan(data).value.headers ==> !Registers(h.segments)
    ensures Exact(data, Scan(data).value.headers, name) == []
  {
    hide Read, ScanLines;
    hide MatchHeader;
    hide Matches;
    var headers := Scan(data).value.headers;
    forall h | h in headers
      ensures !Matches(data, h.start, name)
    {
      var i :| 0 <= i < |headers| && headers[i] == h;
      if Matches(data, h.start, name) {
        MatchMeansRegistration(data, i, name);
      }
    }
    ExactNone(data, headers, name);
  }

  // What success of the finder says about the whole structure.
  lemma FoundFacts(data: Bytes, name: string, t: Table) returns (i: nat)
    requires OwnedName(name) && FindRegistrationTables(data) == Ok(Found(name, t))
    ensures Scan(data).Ok? && i < |Scan(data).value.headers|
    ensures var headers := Scan(data).value.headers;
      && headers[i].start == t.start && Matches(data, t.start, name)
      && t.start <= t.end <= |data| && t.block == data[t.start..t.end]
      && t.end == NextStart(headers, MatchEnd(data, t.start, MatchHeader(data[t.start..], name).value), |data|)
      && (forall h :: h in headers && Registers(h.segments) ==> h.start == t.start)
    ensures forall x :: x in Scan(data).value.assignments ==> !AssignmentRegisters(x)
  {
    hide Read, ScanLines;
    hide MatchHeader;
    hide AssignmentRegisters;
    hide NextStart;
    hide Exact;
    hide Matches;
    var headers := Scan(data).value.headers;
    var found := Exact(data, headers, name);
    assert FindTable(data, headers, name) == Ok(Some(t));
    assert |found| == 1;
    ExactAre(data, headers, name);
    assert found[0] in found;
    i :| 0 <= i < |headers| && headers[i] == found[0];
  }

  lemma {:induction false} ScanGrowsEntries(data: Bytes, st: ScanState)
    requires ScanLines(data, st).Ok?
    ensures st.assignments <= ScanLines(data, st).value.assignments
  {
    ScanFrame(data, st);
  }

  lemma CutShorter(t: Bytes, b: Bytes, line: Bytes, rest: Bytes)
    requires t + b == line + rest && |line| <= |t|
    ensures t == line + t[|line|..] && rest == t[|line|..] + b
  {
    assert forall i :: 0 <= i < |line| ==> t[i] == (t + b)[i] == line[i];
    assert (t + b)[|line|..] == t[|line|..] + b;
  }

  lemma ShorterEnd(tail: Bytes, b: Bytes)
    requires PatternEnd(tail + b).Some? && |tail| >= PatternEnd(tail + b).value
    requires tail + b == "" ==> b == ""
    ensures PatternEnd(tail).Some?
  {
    if tail != "" {
      assert (tail + b)[0] == tail[0];
    }
  }

  // The pattern needs only the first line.
  lemma MatchOnFirstLine(t: Bytes, b: Bytes, name: string)
    requires t != "" && OwnedName(name) && CleanCut(t, b) && MatchHeader(t + b, name).Some?
    ensures MatchHeader(t, name).Some?
  {
    hide MatchHeader;
    hide Prefix;
    var m := MatchHeader(t + b, name).value;
    MatchedParts(t + b, name);
    MatchedLine(t + b, name);
    FirstLineAppend(t, b);
    var line := Prefix(m, name) + m.comment;
    Assoc(Prefix(m, name), m.comment, m.tail);
    CutShorter(t, b, line, m.tail);
    var tail := t[|line|..];
    ShorterEnd(tail, b);
    Assoc(Prefix(m, name), m.comment, tail);
    ShorterMatch(m, tail, name);
  }

  lemma ShorterMatch(m: Matched, tail: Bytes, name: string)
    requires ValidMatched(m) && PatternEnd(tail).Some?
    ensures MatchHeader(Prefix(m, name) + (m.comment + tail), name).Some?
  {
    hide MatchHeader;
    var shorter := m.(tail := tail);
    assert Prefix(shorter, name) == Prefix(m, name);
    MatchRejoined(shorter, name);
  }

  // The text of a table that scans from the state before it also scans on its own.
  lemma TableAlone(t: Bytes, st: ScanState, h: HeaderAt, end: ScanState)
    requires OpensWith(t, h) && st.lex == AT_BOUNDARY && st.offset == h.start
    requires ScanLines(t, st) == Ok(end)
    requires end.headers == st.headers + [h]
    ensures ScanLines(t, START).Ok?
    ensures ScanLines(t, START).value.lex == end.lex
    ensures ScanLines(t, START).value.headers == [h.(start := 0)]
  {
    hide Read, ScanLines;
    TailIsHeader(StripBreaks(t[..FirstLine(t)]));
    ScanFrame(t, st);
    ScanFromHeader(t, st.current);
    var found := ScanLines(t, START).value;
    assert end == Placed(st, found);
    assert ShiftHeaders(found.headers, st.offset) == [h] by {
      assert (st.headers + ShiftHeaders(found.headers, st.offset))[|st.headers|..]
        == ShiftHeaders(found.headers, st.offset);
      assert (st.headers + [h])[|st.headers|..] == [h];
    }
    assert found.headers == [found.headers[0]];
  }

  // The text after a table that scans from the state before it also scans on its own.
  lemma TailAlone(b: Bytes, st: ScanState, h: HeaderAt, end: ScanState)
    requires OpensWith(b, h) && st.lex == AT_BOUNDARY
    requires ScanLines(b, st) == Ok(end) && end.lex == AT_BOUNDARY
    requires forall i :: |st.headers| <= i < |end.headers| ==> !Registers(end.headers[i].segments)
    requires forall x :: x in end.assignments ==> !AssignmentRegisters(x)
    ensures Tail(b)
  {
    hide Read, ScanLines;
    hide AssignmentRegisters;
    TailIsHeader(StripBreaks(b[..FirstLine(b)]));
    ScanFrame(b, st);
    ScanFromHeader(b, st.current);
    var found := ScanLines(b, START).value;
    assert end == Placed(st, found);
    forall g | g in found.headers
      ensures !Registers(g.segments)
    {
      var i :| 0 <= i < |found.headers| && found.headers[i] == g;
      assert end.headers[|st.headers| + i].segments == g.segments;
    }
    forall x | x in found.assignments
      ensures !AssignmentRegisters(x)
    {
      var i :| 0 <= i < |found.assignments| && found.assignments[i] == x;
      var y := end.assignments[|st.assignments| + i];
      assert y in end.assignments;
      SameEntry(y, x);
    }
  }

  // Headers other than the found one register nothing.
  lemma OthersDoNotRegister(data: Bytes, i: nat, j: nat)
    requires Scan(data).Ok? && i < |Scan(data).value.headers| && j < |Scan(data).value.headers| && i != j
    requires forall h :: h in Scan(data).value.headers && Registers(h.segments) ==>
      h.start == Scan(data).value.headers[i].start
    ensures !Registers(Scan(data).value.headers[j].segments)
  {
    hide Read, ScanLines;
    var headers := Scan(data).value.headers;
    ScanAscends(data, START);
    assert headers[j] in headers;
  }

  lemma LeadOf(data: Bytes, a: Bytes, r: Bytes, name: string, i: nat)
    requires data == a + r && Scan(data).Ok? && i < |Scan(data).value.headers|
    requires var headers := Scan(data).value.headers;
      && CutsInto(a, r, START, headers, i) && Matches(data, headers[i].start, name)
      && (forall h :: h in headers && Registers(h.segments) ==> h.start == headers[i].start)
    requires forall x :: x in Scan(data).value.assignments ==> !AssignmentRegisters(x)
    ensures Lead(a)
  {
    hide Read, ScanLines;
    hide MatchHeader;
    hide AssignmentRegisters;
    var headers := Scan(data).value.headers;
    var sa := ScanLines(a, START).value;
    ScanAppend(a, r, START);
    ScanGrowsEntries(r, sa);
    assert a != "" ==> data[|a| - 1] == a[|a| - 1];
    forall h | h in sa.headers
      ensures !Registers(h.segments)
    {
      var j :| 0 <= j < |sa.headers| && sa.headers[j] == h;
      OthersDoNotRegister(data, i, j);
    }
  }

  // The next header starts after the line of this one.
  lemma NextAfterLine(data: Bytes, a: Bytes, r: Bytes, i: nat)
    requires data == a + r && Scan(data).Ok? && i < |Scan(data).value.headers|
    requires CutsInto(a, r, START, Scan(data).value.headers, i)
    ensures |a| + FirstLine(r) <= |data|
    ensures i + 1 < |Scan(data).value.headers| ==> Scan(data).value.headers[i + 1].start >= |a| + FirstLine(r)
  {
    hide Read, ScanLines;
    var headers := Scan(data).value.headers;
    var sa := ScanLines(a, START).value;
    ScanAppend(a, r, START);
    AfterHeader(r, headers[i], sa);
    var inside := ScanState(
      sa.headers + [headers[i].(start := sa.offset)], sa.assignments, headers[i].segments, AT_BOUNDARY,
      sa.offset + FirstLine(r));
    ScanOffset(r[FirstLine(r)..], inside);
  }

  lemma HeadersAscend(data: Bytes)
    requires Scan(data).Ok?
    ensures var headers := Scan(data).value.headers;
      && (forall i, j :: 0 <= i < j < |headers| ==> headers[i].start < headers[j].start)
      && (forall i :: 0 <= i < |headers| ==> headers[i].start < |data|)
  {
    hide Read, ScanLines;
    ScanAscends(data, START);
    ScanOffset(data, START);
  }

  // Where the found table ends: at the next header, or at the end of the data.
  lemma FoundEnd(data: Bytes, a: Bytes, r: Bytes, name: string, i: nat)
    requires data == a + r && Scan(data).Ok? && i < |Scan(data).value.headers| && OwnedName(name)
    requires CutsInto(a, r, START, Scan(data).value.headers, i) && MatchHeader(r, name).Some?
    ensures var headers := Scan(data).value.headers;
      var end := if i + 1 < |headers| then headers[i + 1].start else |data|;
      && NextStart(headers, MatchEnd(data, |a|, MatchHeader(r, name).value), |data|) == end
      && |a| + FirstLine(r) <= end <= |data|
  {
    hide Read, ScanLines, FirstLine, StripBreaks, MatchHeader, NextStart, Scan;
    var headers := Scan(data).value.headers;
    NextAfterLine(data, a, r, i);
    HeadersAscend(data);
    MatchedLine(r, name);
    MatchedParts(r, name);
    EndOfTable(headers, i, FirstLine(r), if i + 1 < |headers| then headers[i + 1].start else |data|, |data|);
  }

  lemma FoundHeader(data: Bytes, name: string, i: nat)
    requires OwnedName(name) && Scan(data).Ok? && i < |Scan(data).value.headers|
    requires Matches(data, Scan(data).value.headers[i].start, name)
    ensures Scan(data).value.headers[i].(start := 0) == HeaderAt(0, false, [MCP_SERVERS, name])
  {
    MatchMeansRegistration(data, i, name);
  }

  // The i-th header is the found one, and the text is cut there.
  ghost predicate FoundAt(data: Bytes, a: Bytes, r: Bytes, name: string, i: nat) {
    && OwnedName(name) && data == a + r && Scan(data).Ok?
    && var headers := Scan(data).value.headers;
    && i < |headers| && CutsInto(a, r, START, headers, i)
    && Matches(data, headers[i].start, name)
    && (forall h :: h in headers && Registers(h.segments) ==> h.start == headers[i].start)
    && (forall x :: x in Scan(data).value.assignments ==> !AssignmentRegisters(x))
  }

  // The found table is the last one.
  lemma FoundLast(data: Bytes, a: Bytes, t: Bytes, name: string, i: nat)
    requires FoundAt(data, a, t, name, i) && i + 1 == |Scan(data).value.headers|
    ensures TableText(t, name)
  {
    hide Read, ScanLines;
    hide MatchHeader;
    hide AssignmentRegisters;
    var headers := Scan(data).value.headers;
    assert data[|a|..] == t;
    ScanAppend(a, t, START);
    assert headers == headers[..i] + [headers[i]];
    TableAlone(t, ScanLines(a, START).value, headers[i], ScanLines(data, START).value);
    FoundHeader(data, name, i);
  }

  lemma OpensAlone(t: Bytes, b: Bytes, h: HeaderAt)
    requires OpensWith(t + b, h) && t != "" && CleanCut(t, b)
    ensures OpensWith(t, h)
  {
    hide Read, ScanLines;
    FirstLineAppend(t, b);
    assert (t + b)[..FirstLine(t)] == t[..FirstLine(t)];
  }

  // The found table is followed by another, which `b` opens.
  lemma FoundInner(data: Bytes, a: Bytes, t: Bytes, b: Bytes, name: string, i: nat)
    requires FoundAt(data, a, t + b, name, i) && Lead(a)
    requires i + 1 < |Scan(data).value.headers| && t != ""
    requires CutsInto(a + t, b, START, Scan(data).value.headers, i + 1)
    ensures TableText(t, name) && CleanCut(t, b)
  {
    hide Read, ScanLines;
    hide MatchHeader;
    hide AssignmentRegisters;
    hide Scan;
    var headers := Scan(data).value.headers;
    assert t[|t| - 1] == (a + t)[|a + t| - 1];
    assert data[|a|..] == t + b;
    MatchOnFirstLine(t, b, name);
    OpensAlone(t, b, headers[i]);
    FoundHeader(data, name, i);
    InnerScan(a, t, b, headers, i);
  }

  lemma InnerScan(a: Bytes, t: Bytes, b: Bytes, headers: seq<HeaderAt>, i: nat)
    requires Lead(a) && t != "" && i + 1 < |headers| && OpensWith(t, headers[i])
    requires CutsInto(a, t + b, START, headers, i) && CutsInto(a + t, b, START, headers, i + 1)
    ensures ScanLines(t, START).Ok? && ScanLines(t, START).value.lex == AT_BOUNDARY
    ensures ScanLines(t, START).value.headers == [headers[i].(start := 0)]
  {
    hide Read, ScanLines;
    ScanAppend(a, t, START);
    assert headers[..i + 1] == headers[..i] + [headers[i]];
    TableAlone(t, ScanLines(a, START).value, headers[i], ScanLines(a + t, START).value);
  }

  lemma FoundTail(data: Bytes, a: Bytes, t: Bytes, b: Bytes, name: string, i: nat)
    requires FoundAt(data, a, t + b, name, i)
    requires i + 1 < |Scan(data).value.headers|
    requires CutsInto(a + t, b, START, Scan(data).value.headers, i + 1)
    ensures Tail(b)
  {
    hide Read, ScanLines;
    hide MatchHeader;
    hide AssignmentRegisters;
    var headers := Scan(data).value.headers;
    Assoc(a, t, b);
    ScanAppend(a + t, b, START);
    forall j | i + 1 <= j < |headers|
      ensures !Registers(headers[j].segments)
    {
      OthersDoNotRegister(data, i, j);
    }
    TailAlone(b, ScanLines(a + t, START).value, headers[i + 1], ScanLines(data, START).value);
  }

  // A config the finder accepts with one table is put together as described.
  lemma FoundIsSplit(data: Bytes, name: string, t: Table)
    requires OwnedName(name) && FindRegistrationTables(data) == Ok(Found(name, t))
    ensures t.start <= t.end <= |data| && t.block == data[t.start..t.end]
    ensures Splits(name, data[..t.start], t.block, data[t.end..])
  {
    hide Read, ScanLines;
    hide MatchHeader;
    hide AssignmentRegisters;
    hide NextStart;
    hide FindRegistrationTables;
    hide Scan;
    hide TableText;
    hide Lead;
    hide Tail;
    var i := FoundFacts(data, name, t);
    var headers := Scan(data).value.headers;
    var a, r := CutAtHeader(data, i);
    assert a == data[..t.start] && r == data[t.start..];
    LeadOf(data, a, r, name, i);
    FoundEnd(data, a, r, name, i);
    MatchedLine(r, name);
    var b := data[t.end..];
    assert r == t.block + b;
    if i + 1 < |headers| {
      var a2, b2 := CutAtHeader(data, i + 1);
      assert a2 == data[..t.end] == a + t.block && b2 == b;
      FoundInner(data, a, t.block, b, name, i);
      FoundTail(data, a, t.block, b, name, i);
    } else {
      assert b == "" && r == t.block;
      FoundLast(data, a, r, name, i);
      EmptyTail();
    }
  }

  lemma CutAtHeader(data: Bytes, i: nat) returns (a: Bytes, b: Bytes)
    requires Scan(data).Ok? && i < |Scan(data).value.headers|
    ensures data == a + b && CutsInto(a, b, START, Scan(data).value.headers, i)
    ensures |a| == Scan(data).value.headers[i].start
  {
    a, b := HeaderCut(data, START, i);
  }

  lemma EmptyTail()
    ensures Tail("")
  {
  }
}
