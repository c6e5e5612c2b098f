// Whole runs: install, reinstall, migrate, edit, uninstall
// (release_tools/installer.py, 1131-1205, 2995-3005, 4020-4077).
module CodexLifecycle {
  import opened Basics
  import opened TomlLexer
  import opened TomlHeader
  import opened TomlScan
  import opened Registration
  import opened Splice
  import opened CodexBlock
  import opened CodexConfig

  // The live config, the recorded ownership, and the text that follows the table.
  datatype Session = Session(config: Bytes, codex: CodexState, after: Bytes)

  // What happens between install and uninstall.
  datatype Edit =
    | Reinstall(replaceOwned: bool, allowMigration: bool)
    | AddTables(text: Bytes)

  // The ownership an install records after a write.
  function Recording(w: Written, expected: Bytes, config: Bytes, prior: Option<Bytes>): CodexState {
    CodexState(TableHeader(SERVER_NAME), Some(Sha256(expected)), Recorded(w.separator),
               if w.changed then Some(config) else prior)
  }

  // The user adds closed tables on lines of their own, registering nothing.
  ghost predicate Addable(config: Bytes, text: Bytes) {
    text != "" && Tail(text) && CleanCut(config, text)
  }

  ghost function Apply(s: Session, edit: Edit, expected: Bytes): Session {
    match edit
    case Reinstall(replaceOwned, allowMigration) =>
      (match PlanWrite(s.config, Some(InstallState(Some(s.codex))), expected, replaceOwned, allowMigration)
       case Err(_) => s
       case Ok(w) => Session(w.config, Recording(w, expected, s.config, s.codex.backup), s.after))
    case AddTables(text) =>
      if Addable(s.config, text) then Session(s.config + text, s.codex, s.after + text) else s
  }

  ghost function RunEdits(s: Session, edits: seq<Edit>, expected: Bytes): Session
    decreases edits
  {
    if edits == [] then s else RunEdits(Apply(s, edits[0], expected), edits[1..], expected)
  }

  // The config is user text, the owned separator, the owned table and user tables.
  ghost predicate Shape(s: Session, name: string, block: Bytes, p: Bytes, separator: Bytes) {
    && s.config == p + separator + block + s.after
    && Splits(name, p + separator, block, s.after)
    && s.codex.table == TableHeader(name)
    && s.codex.blockHash == Some(Sha256(block))
    && OwnedSeparator(s.codex, s.config, |p + separator|) == Ok(separator)
  }

  // Either the current table is in place, or the former one still is.
  ghost predicate Kept(s: Session, expected: Bytes, legacy: Bytes, p: Bytes, separator: Bytes) {
    Shape(s, SERVER_NAME, expected, p, separator) || Shape(s, LEGACY_SERVER_NAME, legacy, p, separator)
  }

  // ---------------------------------------------------------------- each edit keeps the shape

  lemma TailAppend(b: Bytes, c: Bytes)
    requires Tail(b) && Tail(c) && CleanCut(b, c)
    ensures Tail(b + c)
  {
    hide Read, ScanLines;
    hide AssignmentRegisters;
    if b == "" {
      assert b + c == c;
    } else if c == "" {
      assert b + c == b;
    } else {
      var sb, sc := ScanLines(b, START).value, ScanLines(c, START).value;
      FirstLineAppend(b, c);
      assert (b + c)[..FirstLine(b)] == b[..FirstLine(b)];
      ScanAppend(b, c, START);
      TailFromHeader(c, sb);
      PlacedRegistersNothing(sb, sc);
    }
  }

  lemma PlacedRegistersNothing(st: ScanState, found: ScanState)
    requires NoRegistrations(st) && NoRegistrations(found)
    ensures NoRegistrations(Placed(st, found))
  {
    hide AssignmentRegisters;
    NoneAmongPlaced(st, found);
    forall h | h in Placed(st, found).headers
      ensures !Registers(h.segments)
    {
      var i :| 0 <= i < |Placed(st, found).headers| && Placed(st, found).headers[i] == h;
      if i >= |st.headers| {
        assert found.headers[i - |st.headers|] in found.headers;
      }
    }
  }

  lemma CutBeforeAdded(a: Bytes, block: Bytes, after: Bytes, text: Bytes)
    requires block != "" && text != "" && CleanCut(a + block + after, text) && CleanCut(block, after)
    ensures CleanCut(after, text) && CleanCut(block, after + text)
  {
    LastCharacter(a, block, after);
    if after == "" {
      assert after + text == text;
    } else {
      assert (after + text)[0] == after[0];
    }
  }

  lemma AddKeepsSplit(a: Bytes, block: Bytes, after: Bytes, text: Bytes, name: string)
    requires OwnedName(name) && Splits(name, a, block, after) && Addable(a + block + after, text)
    ensures Splits(name, a, block, after + text)
  {
    TableEntries(block, name);
    hide Lead;
    hide TableText;
    hide Tail;
    CutBeforeAdded(a, block, after, text);
    hide CleanCut;
    TailAppend(after, text);
  }

  lemma AddKeepsShape(s: Session, text: Bytes, name: string, block: Bytes, p: Bytes, separator: Bytes)
    requires OwnedName(name) && Shape(s, name, block, p, separator) && Addable(s.config, text)
    ensures Shape(Session(s.config + text, s.codex, s.after + text), name, block, p, separator)
  {
    hide Splits;
    hide Addable;
    hide OwnedSeparator;
    var a := p + separator;
    AddKeepsSplit(a, block, s.after, text, name);
    Assoc(a + block, s.after, text);
    assert s.config == a + (block + s.after);
    assert (s.config + text)[..|a|] == s.config[..|a|];
    SeparatorFromPrefix(s.codex, s.config, s.config + text, |a|);
  }

  lemma LastCharacter(a: Bytes, block: Bytes, after: Bytes)
    requires block != ""
    ensures var config := a + block + after;
      config[|config| - 1] == if after == "" then block[|block| - 1] else after[|after| - 1]
  {
  }

  // Separator ownership looks only at the text before the table.
  lemma SeparatorFromPrefix(codex: CodexState, data: Bytes, longer: Bytes, start: nat)
    requires start <= |data| && start <= |longer| && data[..start] == longer[..start]
    ensures OwnedSeparator(codex, longer, start) == OwnedSeparator(codex, data, start)
  {
    match codex.separator
    case Recorded(separator) =>
      if |separator| <= start {
        assert data[start - |separator|..start] == data[..start][start - |separator|..];
        assert longer[start - |separator|..start] == longer[..start][start - |separator|..];
      }
    case _ =>
  }

  lemma ShapeIsFound(s: Session, name: string, block: Bytes, p: Bytes, separator: Bytes)
    requires OwnedName(name) && Shape(s, name, block, p, separator)
    ensures var a := p + separator;
      && FindRegistrationTables(s.config) == Ok(Found(name, Table(|a|, |a| + |block|, block)))
      && |a| + |block| <= |s.config| && s.config[..|a|] == a && s.config[|a| + |block|..] == s.after
  {
    hide Splits;
    hide OwnedSeparator;
    hide TableHeader;
    hide FindRegistrationTables;
    var a := p + separator;
    SplitIsFound(name, a, block, s.after);
    CutThree(a, block, s.after);
  }

  lemma CutThree(a: Bytes, block: Bytes, after: Bytes)
    ensures var data := a + block + after; data[..|a|] == a && data[|a| + |block|..] == after
  {
  }

  // Writing over an owned table, current or former, leaves the current one in its place with the
  // separator recorded.
  lemma WriteKeepsShape(s: Session, name: string, block: Bytes, p: Bytes, separator: Bytes, w: Written, command: Bytes)
    requires OwnedName(name) && Shape(s, name, block, p, separator)
    requires w.config == p + separator + ExpectedBlock(SERVER_NAME, command) + s.after && w.separator == separator
    ensures var expected := ExpectedBlock(SERVER_NAME, command);
      Shape(Session(w.config, Recording(w, expected, s.config, s.codex.backup), s.after),
            SERVER_NAME, expected, p, separator)
  {
    hide ExpectedBlock;
    hide Splits;
    hide OwnedSeparator;
    hide TableHeader;
    var expected := ExpectedBlock(SERVER_NAME, command);
    ReplaceInSplit(name, p + separator, block, s.after, command);
    OwnedSeparatorIs(s.codex, s.config, |p + separator|);
    RecordedSeparator(w, expected, s.config, s.codex.backup, p, s.after);
  }

  lemma ReplaceInSplit(name: string, a: Bytes, t: Bytes, b: Bytes, command: Bytes)
    requires OwnedName(name) && Splits(name, a, t, b)
    ensures Splits(SERVER_NAME, a, ExpectedBlock(SERVER_NAME, command), b)
  {
    hide ExpectedBlock;
    hide Splits;
    hide TableText;
    BlockIsTable(SERVER_NAME, command);
    ReplaceKeepsTheRest(name, a, t, b, ExpectedBlock(SERVER_NAME, command));
  }

  lemma RecordedSeparator(w: Written, expected: Bytes, config: Bytes, prior: Option<Bytes>, p: Bytes, after: Bytes)
    requires w.config == p + w.separator + expected + after && AllowedSeparator(w.separator)
    ensures OwnedSeparator(Recording(w, expected, config, prior), w.config, |p + w.separator|) == Ok(w.separator)
  {
    var a := p + w.separator;
    assert w.config[|a| - |w.separator|..|a|] == w.separator;
  }

  lemma PlanOverCanonical(data: Bytes, codex: CodexState, t: Table, replaceOwned: bool, allowMigration: bool)
    requires FindRegistrationTables(data) == Ok((Some(t), None)) && t.start <= t.end <= |data|
    requires codex.table == TableHeader(SERVER_NAME) && codex.blockHash == Some(Sha256(t.block))
    requires OwnedSeparator(codex, data, t.start).Ok?
    ensures PlanWrite(data, Some(InstallState(Some(codex))), t.block, replaceOwned, allowMigration)
         == Ok(Written(data, false, OwnedSeparator(codex, data, t.start).value))
  {
    hide FindRegistrationTables;
    hide OwnedSeparator;
    hide TableHeader;
  }

  lemma PlansOverLegacy(data: Bytes, codex: CodexState, t: Table, expected: Bytes, replaceOwned: bool,
                        allowMigration: bool)
    requires FindRegistrationTables(data) == Ok((None, Some(t))) && t.start <= t.end <= |data|
    requires codex.table == TableHeader(LEGACY_SERVER_NAME) && codex.blockHash == Some(Sha256(t.block))
    requires OwnedSeparator(codex, data, t.start).Ok?
    ensures PlanWrite(data, Some(InstallState(Some(codex))), expected, replaceOwned, allowMigration)
         == if allowMigration
            then Ok(Written(data[..t.start] + expected + data[t.end..], true,
                            OwnedSeparator(codex, data, t.start).value))
            else Err(MigrationNotAllowed)
    ensures PlanUninstall(data, InstallState(Some(codex)), expected) == Err(MigrationNotAllowed)
  {
    hide FindRegistrationTables;
    hide OwnedSeparator;
    hide TableHeader;
  }

  lemma LegacySlot(t: Table)
    ensures Found(LEGACY_SERVER_NAME, t) == (None, Some(t)) && Found(SERVER_NAME, t) == (Some(t), None)
  {
    NamesDiffer();
  }

  lemma NamesDiffer()
    ensures SERVER_NAME != LEGACY_SERVER_NAME
  {
    assert |SERVER_NAME| != |LEGACY_SERVER_NAME|;
  }

  lemma CanonicalReinstall(s: Session, expected: Bytes, p: Bytes, separator: Bytes, replaceOwned: bool,
                           allowMigration: bool)
    requires Shape(s, SERVER_NAME, expected, p, separator)
    ensures PlanWrite(s.config, Some(InstallState(Some(s.codex))), expected, replaceOwned, allowMigration)
         == Ok(Written(s.config, false, separator))
  {
    ShapeIsFound(s, SERVER_NAME, expected, p, separator);
    var t := Table(|p + separator|, |p + separator| + |expected|, expected);
    LegacySlot(t);
    hide *;
    ShapeOwned(s, SERVER_NAME, expected, p, separator);
    PlanOverCanonical(s.config, s.codex, t, replaceOwned, allowMigration);
  }

  lemma ShapeOwned(s: Session, name: string, block: Bytes, p: Bytes, separator: Bytes)
    requires Shape(s, name, block, p, separator)
    ensures s.config == p + separator + block + s.after && |p + separator| <= |s.config|
    ensures s.codex.table == TableHeader(name) && s.codex.blockHash == Some(Sha256(block))
    ensures OwnedSeparator(s.codex, s.config, |p + separator|) == Ok(separator)
  {
  }

  lemma LegacyReinstall(s: Session, legacy: Bytes, expected: Bytes, p: Bytes, separator: Bytes, replaceOwned: bool,
                        allowMigration: bool)
    requires Shape(s, LEGACY_SERVER_NAME, legacy, p, separator)
    ensures PlanWrite(s.config, Some(InstallState(Some(s.codex))), expected, replaceOwned, allowMigration)
         == if allowMigration then Ok(Written(p + separator + expected + s.after, true, separator))
            else Err(MigrationNotAllowed)
    ensures PlanUninstall(s.config, InstallState(Some(s.codex)), expected) == Err(MigrationNotAllowed)
    ensures s.codex.table == TableHeader(LEGACY_SERVER_NAME)
  {
    ShapeIsFound(s, LEGACY_SERVER_NAME, legacy, p, separator);
    var t := Table(|p + separator|, |p + separator| + |legacy|, legacy);
    LegacySlot(t);
    hide *;
    ShapeOwned(s, LEGACY_SERVER_NAME, legacy, p, separator);
    PlansOverLegacy(s.config, s.codex, t, expected, replaceOwned, allowMigration);
  }

  lemma EditKeepsShape(s: Session, edit: Edit, command: Bytes, legacy: Bytes, p: Bytes, separator: Bytes)
    requires Kept(s, ExpectedBlock(SERVER_NAME, command), legacy, p, separator)
    ensures var expected := ExpectedBlock(SERVER_NAME, command);
      Kept(Apply(s, edit, expected), expected, legacy, p, separator)
  {
    var expected := ExpectedBlock(SERVER_NAME, command);
    var name := if Shape(s, SERVER_NAME, expected, p, separator) then SERVER_NAME else LEGACY_SERVER_NAME;
    var block := if name == SERVER_NAME then expected else legacy;
    assert Shape(s, name, block, p, separator);
    match edit
    case Reinstall(replaceOwned, allowMigration) =>
      if name == SERVER_NAME {
        CanonicalReinstall(s, expected, p, separator, replaceOwned, allowMigration);
      } else {
        LegacyReinstall(s, legacy, expected, p, separator, replaceOwned, allowMigration);
      }
      hide Shape;
      hide PlanWrite;
      hide ExpectedBlock;
      var plan := PlanWrite(s.config, Some(InstallState(Some(s.codex))), expected, replaceOwned, allowMigration);
      if plan.Ok? {
        ShapeOwned(s, name, block, p, separator);
        WriteKeepsShape(s, name, block, p, separator, plan.value, command);
      }
    case AddTables(text) =>
      if Addable(s.config, text) {
        hide Shape;
        AddKeepsShape(s, text, name, block, p, separator);
      }
  }

  lemma {:induction false} RunKeepsShape(
      s: Session, edits: seq<Edit>, command: Bytes, legacy: Bytes, p: Bytes, separator: Bytes)
    requires Kept(s, ExpectedBlock(SERVER_NAME, command), legacy, p, separator)
    ensures var expected := ExpectedBlock(SERVER_NAME, command);
      Kept(RunEdits(s, edits, expected), expected, legacy, p, separator)
    decreases edits
  {
    if edits != [] {
      EditKeepsShape(s, edits[0], command, legacy, p, separator);
      hide Apply;
      hide Kept;
      RunKeepsShape(Apply(s, edits[0], ExpectedBlock(SERVER_NAME, command)), edits[1..], command, legacy, p, separator);
    }
  }

  // ---------------------------------------------------------------- uninstall undoes install

  lemma ShapeUninstalls(s: Session, expected: Bytes, p: Bytes, separator: Bytes)
    requires Shape(s, SERVER_NAME, expected, p, separator)
    ensures PlanUninstall(s.config, InstallState(Some(s.codex)), expected) == Ok(p + s.after)
  {
    hide Splits;
    InstalledUninstalls(s.config, s.codex, expected, p, separator, s.after);
  }

  // Install on an unregistered config always succeeds, and after any run of reinstalls and added
  // tables, uninstall gives back the original text followed by exactly what was added.
  lemma InstallEditUninstall(p: Bytes, edits: seq<Edit>, command: Bytes)
    requires Unregistered(p)
    ensures var expected := ExpectedBlock(SERVER_NAME, command);
      var plan := PlanWrite(p, None, expected, false, false);
      plan.Ok? &&
      var s := RunEdits(Session(plan.value.config, Recording(plan.value, expected, p, None), ""), edits, expected);
      PlanUninstall(s.config, InstallState(Some(s.codex)), expected) == Ok(p + s.after)
  {
    var expected := ExpectedBlock(SERVER_NAME, command);
    FirstPlanSucceeds(p, expected);
    var w := PlanWrite(p, None, expected, false, false).value;
    FirstWrite(p, None, command, false, false);
    FirstShape(p, w, expected);
    var first := Session(w.config, Recording(w, expected, p, None), "");
    hide Shape;
    hide ExpectedBlock;
    hide PlanWrite;
    hide PlanUninstall;
    RunKeepsShape(first, edits, command, "", p, w.separator);
    var last := RunEdits(first, edits, expected);
    if Shape(last, SERVER_NAME, expected, p, w.separator) {
      ShapeUninstalls(last, expected, p, w.separator);
    } else {
      EmptyIsNoTable(last, p, w.separator);
    }
  }

  lemma FirstPlanSucceeds(p: Bytes, expected: Bytes)
    requires Unregistered(p)
    ensures PlanWrite(p, None, expected, false, false).Ok?
  {
    hide FindRegistrationTables;
    hide FreshSeparator;
  }

  lemma FirstShape(p: Bytes, w: Written, expected: Bytes)
    requires w.config == p + w.separator + expected + "" && AllowedSeparator(w.separator)
    requires Splits(SERVER_NAME, p + w.separator, expected, "")
    ensures Shape(Session(w.config, Recording(w, expected, p, None), ""), SERVER_NAME, expected, p, w.separator)
  {
    hide Splits;
    RecordedSeparator(w, expected, p, None, p, "");
  }

  lemma EmptyIsNoTable(s: Session, p: Bytes, separator: Bytes)
    ensures !Shape(s, LEGACY_SERVER_NAME, "", p, separator)
  {
    hide Read, ScanLines;
    hide RawHeaderSegments;
  }

  // A config owned under the former name: once a permitted migration has run, uninstall gives back
  // the original text and the added tables; until then it is refused.
  lemma MigrateEditUninstall(s: Session, legacy: Bytes, p: Bytes, separator: Bytes, edits: seq<Edit>, command: Bytes)
    requires Shape(s, LEGACY_SERVER_NAME, legacy, p, separator)
    ensures var expected := ExpectedBlock(SERVER_NAME, command);
      var last := RunEdits(s, edits, expected);
      PlanUninstall(last.config, InstallState(Some(last.codex)), expected)
      == if last.codex.table == TableHeader(SERVER_NAME) then Ok(p + last.after) else Err(MigrationNotAllowed)
  {
    var expected := ExpectedBlock(SERVER_NAME, command);
    RunKeepsShape(s, edits, command, legacy, p, separator);
    var last := RunEdits(s, edits, expected);
    hide ExpectedBlock;
    hide RunEdits;
    HeadersDiffer();
    if Shape(last, SERVER_NAME, expected, p, separator) {
      ShapeUninstalls(last, expected, p, separator);
    } else {
      LegacyReinstall(last, legacy, expected, p, separator, false, false);
    }
  }

  lemma HeadersDiffer()
    ensures TableHeader(SERVER_NAME) != TableHeader(LEGACY_SERVER_NAME)
  {
    assert |TableHeader(SERVER_NAME)| != |TableHeader(LEGACY_SERVER_NAME)|;
  }

  // ---------------------------------------------------------------- what removal does to the seam

  // After uninstall, the tables that followed still begin on a line of their own exactly when the
  // text before them was empty or ended its last line; otherwise their header joins that line.
  lemma SeamKeepsTable(p: Bytes, s: Bytes)
    requires Unregistered(p) && Tail(s) && s != ""
    ensures (Scan(p + s).Ok? && exists h :: h in Scan(p + s).value.headers && h.start == |p|) <==> CleanCut(p, s)
  {
    hide Read, ScanLines;
    hide AssignmentRegisters;
    UnregisteredIff(p);
    if CleanCut(p, s) {
      var sp := ScanLines(p, START).value;
      ScanAppend(p, s, START);
      ScanOffset(p, START);
      TailFromHeader(s, sp);
      TailOpens(s);
      var headers := ScanLines(p + s, START).value.headers;
      assert headers[|sp.headers|].start == |p|;
      assert headers[|sp.headers|] in headers;
    }
    if Scan(p + s).Ok? {
      forall h | h in Scan(p + s).value.headers && h.start == |p|
        ensures CleanCut(p, s)
      {
        var i :| 0 <= i < |Scan(p + s).value.headers| && Scan(p + s).value.headers[i] == h;
        var a, b := CutAtHeader(p + s, i);
        assert a == (p + s)[..|p|] == p && b == s;
      }
    }
  }

  // A config that is one comment without a line break shows it: uninstall joins the first table that
  // followed to the comment.
  lemma CommentSwallowsTable(s: Bytes)
    requires Tail(s) && s != ""
    ensures Unregistered("#") && !CleanCut("#", s)
    ensures !(Scan("#" + s).Ok? && exists h :: h in Scan("#" + s).value.headers && h.start == 1)
  {
    CommentScans();
    UnregisteredIff("#");
    hide Read, ScanLines;
    hide ScanLines;
    hide Scan;
    SeamKeepsTable("#", s);
  }

  lemma CommentScans()
    ensures Scan("#").Ok? && NoRegistrations(ScanLines("#", START).value)
  {
    var d := "#";
    assert FirstLine(d) == 1 && d[..1] == d && d[1..] == "";
    assert StripBreaks(d) == d;
    assert TakeSpace(d) == "" && DropSpace(d) == d;
    assert !HeaderLine(d) && !StatementLine(d);
    assert Advance(d, AT_BOUNDARY) == AT_BOUNDARY;
  }
}
