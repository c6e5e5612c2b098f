// Which documents register the server (release_tools/installer.py, 861-996).
module DocumentFinder {
  import opened Basics
  import opened TomlScan
  import opened TomlDocument
  import opened Registration
  import opened Splice

  // The path leads to or into the table of one of the two names.
  ghost predicate LeadsToServer(path: seq<string>) {
    exists name :: OwnedName(name) && [MCP_SERVERS, name] <= path
  }

  lemma RegistersIff(segments: seq<string>)
    ensures Registers(segments) <==> LeadsToServer(segments)
  {
    if |segments| >= 2 {
      assert [MCP_SERVERS, segments[1]] <= segments <==> segments[0] == MCP_SERVERS;
    }
    forall name | OwnedName(name) && [MCP_SERVERS, name] <= segments ensures Registers(segments) {
      assert segments[..2] == [MCP_SERVERS, name];
    }
  }

  // Some table of the document leads there, or some assignment, from the table it stands in, does or
  // defines all servers at once.
  ghost predicate SaysServer(said: ScanState) {
    || (exists h :: h in said.headers && LeadsToServer(h.segments))
    || (exists x :: x in said.assignments && (x.table + x.key == [MCP_SERVERS] || LeadsToServer(x.table + x.key)))
  }

  // Every assignment stands at the top or in a table of the document.
  ghost predicate InTables(st: ScanState) {
    && (st.current == [] || exists h :: h in st.headers && h.segments == st.current)
    && (forall x :: x in st.assignments ==> x.table == [] || exists h :: h in st.headers && h.segments == x.table)
  }

  lemma {:induction false} SaidInTables(doc: seq<Line>, st: ScanState)
    requires InTables(st)
    ensures InTables(SaysAll(doc, st))
    decreases doc
  {
    if doc != [] {
      var next := Says(doc[0].statement, |PrintLine(doc[0])|, st);
      OneInTables(doc[0].statement, |PrintLine(doc[0])|, st);
      hide InTables, Says, PrintLine;
      SaidInTables(doc[1..], next);
    }
  }

  lemma OneInTables(s: Statement, length: nat, st: ScanState)
    requires InTables(st)
    ensures InTables(Says(s, length, st))
  {
    var next := Says(s, length, st);
    assert forall h :: h in st.headers ==> h in next.headers;
    if s.TableLine? {
      assert next.headers[|st.headers|] in next.headers;
    }
  }

  // The finder reports nothing exactly if the document says nothing of the server, however it is
  // spelled and wherever it would stand.
  lemma DocumentRegisters(doc: seq<Line>)
    requires ValidDocument(doc)
    ensures Unregistered(PrintDocument(doc)) <==> !SaysServer(SaysAll(doc, START))
  {
    hide ScanLines, Says, PrintLine, ValidLine;
    var data, said := PrintDocument(doc), SaysAll(doc, START);
    ScanDocument(doc);
    ScanAllSays(doc, START);
    UnregisteredIff(data);
    assert InTables(START);
    SaidInTables(doc, START);
    hide Unregistered, Scan, InTables, SaysAll;
    RegistrationsSaid(said);
  }

  lemma RegistrationsSaid(said: ScanState)
    requires InTables(said)
    ensures NoRegistrations(said) <==> !SaysServer(said)
  {
    hide Registers, LeadsToServer;
    forall path ensures Registers(path) <==> LeadsToServer(path) {
      RegistersIff(path);
    }
  }
}
