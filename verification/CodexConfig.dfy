// Owning, writing and removing the registration (release_tools/installer.py, 999-1205, 4020-4077).
module CodexConfig {
  import opened Basics
  import opened TomlHeader
  import opened TomlScan
  import opened Registration
  import opened Splice
  import opened CodexBlock

  // The separator the install state remembers having written before its table.
  datatype SeparatorRecord = Unrecorded | Undecodable | Recorded(bytes: Bytes)

  // The Codex part of the install state; `backup` is the content of the pre-install backup
  // when its recorded path still names a regular file in the owned backup directory.
  datatype CodexState = CodexState(
    table: Bytes, blockHash: Option<Digest>, separator: SeparatorRecord, backup: Option<Bytes>)

  datatype InstallState = InstallState(codex: Option<CodexState>)

  datatype Ownership = FreshInstall | LegacyMigration | CanonicalExact | CanonicalReplace

  datatype ConfigError =
    | NotRegular
    | Finding(error: FindError)
    | RegistrationMissing
    | Unowned
    | NoOwnershipMetadata
    | InvalidOwnershipHash
    | LegacyNotOwned
    | MigrationNotAllowed
    | WrongIdentity
    | HashMismatch
    | Drifted
    | InvalidSeparator
    | BoundaryChanged
    | UninstallRefused

  // ---------------------------------------------------------------- ownership

  function Validate(
    state: Option<InstallState>, canonical: Option<Table>, legacy: Option<Table>, expected: Bytes,
    replaceOwned: bool, allowMigration: bool): Result<Ownership, ConfigError>
  {
    if canonical.None? && legacy.None? then
      if state.None? then Ok(FreshInstall) else Err(RegistrationMissing)
    else if state.None? then Err(Unowned)
    else if state.value.codex.None? then Err(NoOwnershipMetadata)
    else
      var codex := state.value.codex.value;
      var existing := if canonical.Some? then canonical.value else legacy.value;
      if codex.blockHash.None? then Err(InvalidOwnershipHash)
      else if legacy.Some? then
        if codex.table != TableHeader(LEGACY_SERVER_NAME) || Sha256(existing.block) != codex.blockHash.value then
          Err(LegacyNotOwned)
        else if !allowMigration then Err(MigrationNotAllowed)
        else Ok(LegacyMigration)
      else if codex.table != TableHeader(SERVER_NAME) then Err(WrongIdentity)
      else if Sha256(existing.block) == Sha256(expected) then
        if Sha256(existing.block) != codex.blockHash.value then Err(HashMismatch) else Ok(CanonicalExact)
      else if !replaceOwned then Err(Drifted)
      else Ok(CanonicalReplace)
  }

  predicate AllowedSeparator(s: Bytes) {
    s == "" || s == "\n" || s == "\n\n"
  }

  // Only whitespace the installer itself inserted before its table.
  function OwnedSeparator(codex: CodexState, data: Bytes, start: nat): Result<Bytes, ConfigError>
    requires start <= |data|
  {
    match codex.separator
    case Undecodable => Err(InvalidSeparator)
    case Recorded(separator) =>
      if !AllowedSeparator(separator) then Err(InvalidSeparator)
      else if separator != "" && (start < |separator| || data[start - |separator|..start] != separator) then
        Err(BoundaryChanged)
      else Ok(separator)
    case Unrecorded =>
      if codex.backup.None? then Ok("")
      else if data[..start] == codex.backup.value + "\n" then Ok("\n")
      else if data[..start] == codex.backup.value + "\n\n" then Ok("\n\n")
      else Ok("")
  }

  // ---------------------------------------------------------------- what a write does

  function FreshSeparator(data: Bytes): Bytes {
    if data == "" then "" else if EndsWith(data, "\n") then "\n" else "\n\n"
  }

  datatype Written = Written(config: Bytes, changed: bool, separator: Bytes)

  function PlanWrite(
    data: Bytes, state: Option<InstallState>, expected: Bytes, replaceOwned: bool, allowMigration: bool)
    : Result<Written, ConfigError>
  {
    match FindRegistrationTables(data)
    case Err(e) => Err(Finding(e))
    case Ok((canonical, legacy)) =>
      match Validate(state, canonical, legacy, expected, replaceOwned, allowMigration)
      case Err(e) => Err(e)
      case Ok(ownership) =>
        if canonical.None? && legacy.None? then
          Ok(Written(data + FreshSeparator(data) + expected, true, FreshSeparator(data)))
        else
          var existing := if canonical.Some? then canonical.value else legacy.value;
          if !(existing.start <= existing.end <= |data|) || state.None? || state.value.codex.None? then
            Err(NoOwnershipMetadata)
          else
            match OwnedSeparator(state.value.codex.value, data, existing.start)
            case Err(e) => Err(e)
            case Ok(separator) =>
              if ownership == CanonicalExact then Ok(Written(data, false, separator))
              else Ok(Written(data[..existing.start] + expected + data[existing.end..], true, separator))
  }

  function PlanUninstall(data: Bytes, state: InstallState, expected: Bytes): Result<Bytes, ConfigError> {
    match FindRegistrationTables(data)
    case Err(e) => Err(Finding(e))
    case Ok((canonical, legacy)) =>
      match Validate(Some(state), canonical, legacy, expected, false, false)
      case Err(e) => Err(e)
      case Ok(ownership) =>
        if ownership != CanonicalExact || canonical.None? || legacy.Some? || state.codex.None?
          || !(canonical.value.start <= canonical.value.end <= |data|) then Err(UninstallRefused)
        else
          match OwnedSeparator(state.codex.value, data, canonical.value.start)
          case Err(e) => Err(e)
          case Ok(separator) =>
            if |separator| > canonical.value.start then Err(UninstallRefused)
            else Ok(data[..canonical.value.start - |separator|] + data[canonical.value.end..])
  }

  // ---------------------------------------------------------------- the config file

  datatype File = Missing | NotAFile | Regular(bytes: Bytes)

  // The config path and the backups taken of it, newest last.
  class ConfigFile {
    var file: File
    var backups: seq<Bytes>

    constructor (file: File)
      ensures this.file == file && backups == []
    {
      this.file := file;
      backups := [];
    }

    // A failed write leaves the file and its backups alone; a change backs the old bytes up first.
    method Write(state: Option<InstallState>, expected: Bytes, replaceOwned: bool, allowMigration: bool)
      returns (r: Result<Written, ConfigError>)
      modifies this
      ensures old(file).NotAFile? ==> r == Err(NotRegular)
      ensures !old(file).NotAFile? ==>
        r == PlanWrite(
          if old(file).Regular? then old(file).bytes else "", state, expected, replaceOwned, allowMigration)
      ensures r.Ok? && r.value.changed ==> file == Regular(r.value.config)
      ensures r.Ok? && r.value.changed ==>
        backups == old(backups) + (if old(file).Regular? then [old(file).bytes] else [])
      ensures r.Err? || !r.value.changed ==> file == old(file) && backups == old(backups)
      ensures var data := if old(file).Regular? then old(file).bytes else "";
        r.Ok? && r.value.changed <==>
          && !old(file).NotAFile?
          && (|| Appends(data, state)
              || (exists name, a, t, b, separator ::
                    && Stands(data, state, name, a, t, b, separator)
                    && MayReplace(state.value, name, t, expected, replaceOwned, allowMigration)))
    {
      WriteWhen(if file.Regular? then file.bytes else "", state, expected, replaceOwned, allowMigration);
      hide Stands, MayReplace, Appends;
      if file.NotAFile? {
        return Err(NotRegular);
      }
      var data := if file.Regular? then file.bytes else "";
      var found := FindRegistrationTables(data);
      if found.Err? {
        return Err(Finding(found.error));
      }
      var (canonical, legacy) := found.value;
      var ownership := Validate(state, canonical, legacy, expected, replaceOwned, allowMigration);
      if ownership.Err? {
        return Err(ownership.error);
      }
      var separator: Bytes, newData: Bytes;
      if canonical.None? && legacy.None? {
        separator := if data == "" then "" else if EndsWith(data, "\n") then "\n" else "\n\n";
        newData := data + separator + expected;
      } else {
        var existing := if canonical.Some? then canonical.value else legacy.value;
        if !(existing.start <= existing.end <= |data|) {
          return Err(NoOwnershipMetadata);
        }
        var owned := OwnedSeparator(state.value.codex.value, data, existing.start);
        if owned.Err? {
          return Err(owned.error);
        }
        separator := owned.value;
        if ownership.value == CanonicalExact {
          return Ok(Written(data, false, separator));
        }
        newData := data[..existing.start] + expected + data[existing.end..];
      }
      if file.Regular? {
        backups := backups + [file.bytes];
      }
      file := Regular(newData);
      r := Ok(Written(newData, true, separator));
    }

    // The config step of uninstall: refused with nothing changed, or the table and its separator removed.
    method Uninstall(state: InstallState, expected: Bytes) returns (r: Result<Bytes, ConfigError>)
      modifies this
      ensures !old(file).Regular? ==> r == Err(UninstallRefused)
      ensures old(file).Regular? ==> r == PlanUninstall(old(file).bytes, state, expected)
      ensures r.Ok? ==> file == Regular(r.value) && backups == old(backups) + [old(file).bytes]
      ensures r.Err? ==> file == old(file) && backups == old(backups)
    {
      if !file.Regular? {
        return Err(UninstallRefused);
      }
      var data := file.bytes;
      var found := FindRegistrationTables(data);
      if found.Err? {
        return Err(Finding(found.error));
      }
      var (canonical, legacy) := found.value;
      var ownership := Validate(Some(state), canonical, legacy, expected, false, false);
      if ownership.Err? {
        return Err(ownership.error);
      }
      if ownership.value != CanonicalExact || canonical.None? || legacy.Some? || state.codex.None?
        || !(canonical.value.start <= canonical.value.end <= |data|) {
        return Err(UninstallRefused);
      }
      var start, end := canonical.value.start, canonical.value.end;
      var owned := OwnedSeparator(state.codex.value, data, start);
      if owned.Err? {
        return Err(owned.error);
      }
      if |owned.value| > start {
        return Err(UninstallRefused);
      }
      var rest := data[..start - |owned.value|] + data[end..];
      backups := backups + [data];
      file := Regular(rest);
      r := Ok(rest);
    }
  }

  // ---------------------------------------------------------------- splices leave one registration

  // The separator only ends the last line and adds a blank one.
  lemma SeparatorAddsNothing(data: Bytes)
    requires ScanLines(data, START).Ok?
    ensures var st := ScanLines(data, START).value;
      ScanLines(data + FreshSeparator(data), START) == Ok(st.(offset := st.offset + |FreshSeparator(data)|))
  {
    hide Read, ScanLines;
    var st := ScanLines(data, START).value;
    if data == "" {
      assert data + "" == data;
    } else if EndsWith(data, "\n") {
      assert data[|data| - 1] == data[|data| - 1..][0];
      ScanAppend(data, "\n", START);
      ScanBlankLine(st);
    } else {
      assert data[|data| - 1..] == [data[|data| - 1]];
      ScanAddBreak(data, START);
      ScanAppend(data + "\n", "\n", START);
      Assoc(data, "\n", "\n");
      assert "\n" + "\n" == "\n\n";
      ScanBlankLine(st.(offset := st.offset + 1));
    }
  }

  lemma SeparatorEndsLine(data: Bytes)
    ensures var a := data + FreshSeparator(data); a == "" || a[|a| - 1] == '\n'
  {
  }

  // Ready to be followed by the table on a new line.
  lemma SeparatedLead(data: Bytes)
    requires Unregistered(data)
    ensures Lead(data + FreshSeparator(data))
  {
    hide Read, ScanLines;
    hide FreshSeparator;
    hide AssignmentRegisters;
    UnregisteredIff(data);
    SeparatorAddsNothing(data);
    SeparatorEndsLine(data);
  }

  // The tables a text opens, without their positions.
  function Listing(headers: seq<HeaderAt>): (r: seq<(bool, seq<string>)>)
    ensures |r| == |headers|
    ensures forall i :: 0 <= i < |r| ==> r[i] == (headers[i].arrayed, headers[i].segments)
  {
    seq(|headers|, i requires 0 <= i < |headers| => (headers[i].arrayed, headers[i].segments))
  }

  function Tables(data: Bytes): seq<(bool, seq<string>)> {
    match ScanLines(data, START)
    case Err(_) => []
    case Ok(st) => Listing(st.headers)
  }

  lemma ScannedTables(data: Bytes)
    requires Scan(data).Ok?
    ensures Tables(data) == Listing(Scan(data).value.headers)
  {
    hide ScanLines;
  }

  lemma SplitTables(name: string, a: Bytes, t: Bytes, b: Bytes)
    requires OwnedName(name) && Splits(name, a, t, b)
    ensures Scan(a + t + b).Ok?
    ensures Tables(a + t + b) == Tables(a) + [(false, [MCP_SERVERS, name])] + Tables(b)
  {
    hide Read, Scan, ScanLines, MatchHeader, NoRegistrations, FirstLine, StripBreaks, CleanCut, HeadersAround, Tables;
    SplitHeaders(name, a, t, b);
    ScannedTables(a + t + b);
    ListingAround(name, a, t, b);
  }

  lemma ListingAround(name: string, a: Bytes, t: Bytes, b: Bytes)
    requires OwnedName(name) && Splits(name, a, t, b)
    ensures Listing(HeadersAround(name, a, t, b)) == Tables(a) + [(false, [MCP_SERVERS, name])] + Tables(b)
  {
    hide Read, Scan, ScanLines, MatchHeader, NoRegistrations, FirstLine, StripBreaks, CleanCut;
    var before, own := ScanLines(a, START).value.headers, HeaderAt(|a|, false, [MCP_SERVERS, name]);
    ListingConcat(before, [own]);
    assert Listing([own]) == [(false, [MCP_SERVERS, name])];
    if b == "" {
      ScanNone(START);
      assert HeadersAround(name, a, t, b) == before + [own];
    } else {
      var after := ScanLines(b, START).value.headers;
      ListingConcat(before + [own], ShiftHeaders(after, |a| + |t|));
      assert Listing(ShiftHeaders(after, |a| + |t|)) == Listing(after);
    }
  }

  lemma ListingConcat(xs: seq<HeaderAt>, ys: seq<HeaderAt>)
    ensures Listing(xs + ys) == Listing(xs) + Listing(ys)
  {
  }

  // Replacing the table of a split config changes that table and nothing else.
  lemma ReplaceKeepsTheRest(name: string, a: Bytes, t: Bytes, b: Bytes, block: Bytes)
    requires OwnedName(name) && Splits(name, a, t, b)
    requires TableText(block, SERVER_NAME) && EndsWith(block, "\n")
    ensures Splits(SERVER_NAME, a, block, b)
    ensures Tables(a + t + b) == Tables(a) + [(false, [MCP_SERVERS, name])] + Tables(b)
    ensures Tables(a + block + b) == Tables(a) + [(false, [MCP_SERVERS, SERVER_NAME])] + Tables(b)
  {
    hide Lead;
    hide Tail;
    hide TableText;
    hide Tables;
    assert block[|block| - 1] == block[|block| - 1..][0];
    SplitTables(name, a, t, b);
    SplitTables(SERVER_NAME, a, block, b);
  }

  lemma PlanFirst(data: Bytes, state: Option<InstallState>, expected: Bytes, replaceOwned: bool, allowMigration: bool)
    requires Unregistered(data) && PlanWrite(data, state, expected, replaceOwned, allowMigration).Ok?
    ensures PlanWrite(data, state, expected, replaceOwned, allowMigration)
         == Ok(Written(data + FreshSeparator(data) + expected, true, FreshSeparator(data)))
  {
    hide FindRegistrationTables;
    hide FreshSeparator;
  }

  // A first install appends the table after its separator; every other table is as before.
  lemma FirstWrite(data: Bytes, state: Option<InstallState>, command: Bytes, replaceOwned: bool, allowMigration: bool)
    requires Unregistered(data)
    requires PlanWrite(data, state, ExpectedBlock(SERVER_NAME, command), replaceOwned, allowMigration).Ok?
    ensures var block := ExpectedBlock(SERVER_NAME, command);
      var w := PlanWrite(data, state, block, replaceOwned, allowMigration).value;
      var a := data + w.separator;
      && w.config == a + block + "" && AllowedSeparator(w.separator) && Splits(SERVER_NAME, a, block, "")
      && FindRegistrationTables(w.config) == Ok(Found(SERVER_NAME, Table(|a|, |a| + |block|, block)))
      && Tables(w.config) == Tables(data) + [(false, [MCP_SERVERS, SERVER_NAME])]
  {
    hide Lead;
    hide Tail;
    hide TableText;
    hide ExpectedBlock;
    hide FindRegistrationTables;
    hide PlanWrite;
    hide Unregistered;
    hide Tables;
    var block := ExpectedBlock(SERVER_NAME, command);
    var a := data + FreshSeparator(data);
    PlanFirst(data, state, block, replaceOwned, allowMigration);
    BlockIsTable(SERVER_NAME, command);
    SeparatedLead(data);
    EmptyTail();
    assert a + block + "" == a + block;
    SplitIsFound(SERVER_NAME, a, block, "");
    SplitTables(SERVER_NAME, a, block, "");
    SeparatorTables(data);
  }

  lemma SeparatorTables(data: Bytes)
    requires Unregistered(data)
    ensures Tables(data + FreshSeparator(data)) == Tables(data) && Tables("") == []
  {
    hide Read, ScanLines;
    hide FreshSeparator;
    UnregisteredIff(data);
    SeparatorAddsNothing(data);
    ScanNone(START);
  }

  // Any later write puts the expected table in the exact place of the one it found, canonical or
  // legacy; every other table keeps its place and its text.
  lemma LaterWrite(data: Bytes, state: Option<InstallState>, command: Bytes, replaceOwned: bool, allowMigration: bool)
    returns (name: string, a: Bytes, t: Bytes, b: Bytes)
    requires !Unregistered(data)
    requires PlanWrite(data, state, ExpectedBlock(SERVER_NAME, command), replaceOwned, allowMigration).Ok?
    ensures OwnedName(name) && Splits(name, a, t, b) && data == a + t + b
    ensures var block := ExpectedBlock(SERVER_NAME, command);
      var w := PlanWrite(data, state, block, replaceOwned, allowMigration).value;
      && w.config == a + block + b && Splits(SERVER_NAME, a, block, b)
      && FindRegistrationTables(w.config) == Ok(Found(SERVER_NAME, Table(|a|, |a| + |block|, block)))
      && Tables(data) == Tables(a) + [(false, [MCP_SERVERS, name])] + Tables(b)
      && Tables(w.config) == Tables(a) + [(false, [MCP_SERVERS, SERVER_NAME])] + Tables(b)
  {
    hide Lead;
    hide Tail;
    hide TableText;
    hide ExpectedBlock;
    hide FindRegistrationTables;
    hide Tables;
    var block := ExpectedBlock(SERVER_NAME, command);
    BlockIsTable(SERVER_NAME, command);
    var (canonical, legacy) := FindRegistrationTables(data).value;
    OneSlot(data);
    name := if canonical.Some? then SERVER_NAME else LEGACY_SERVER_NAME;
    var found := if canonical.Some? then canonical.value else legacy.value;
    FoundIsSplit(data, name, found);
    a, t, b := data[..found.start], found.block, data[found.end..];
    assert data == a + t + b;
    ReplaceKeepsTheRest(name, a, t, b, block);
    SplitIsFound(SERVER_NAME, a, block, b);
  }

  // The finder never reports both tables.
  lemma OneSlot(data: Bytes)
    requires FindRegistrationTables(data).Ok?
    ensures var (canonical, legacy) := FindRegistrationTables(data).value; canonical.None? || legacy.None?
  {
    hide Scan;
    hide FindTable;
    hide AssignmentRegisters;
  }

  lemma OwnedSeparatorIs(codex: CodexState, data: Bytes, start: nat)
    requires start <= |data| && OwnedSeparator(codex, data, start).Ok?
    ensures var separator := OwnedSeparator(codex, data, start).value;
      AllowedSeparator(separator) && |separator| <= start && data[start - |separator|..start] == separator
  {
    var separator := OwnedSeparator(codex, data, start).value;
    if codex.separator.Unrecorded? && separator != "" {
      var original := codex.backup.value;
      assert data[..start] == original + separator;
      assert data[start - |separator|..start] == data[..start][|original|..];
    }
  }

  // ---------------------------------------------------------------- exactly when uninstall succeeds

  // The installed shape: user text, the owned separator, the exact owned table, user tables.
  ghost predicate InstalledAs(data: Bytes, codex: CodexState, expected: Bytes, p: Bytes, separator: Bytes, s: Bytes) {
    && data == p + separator + expected + s
    && Splits(SERVER_NAME, p + separator, expected, s)
    && codex.table == TableHeader(SERVER_NAME)
    && codex.blockHash == Some(Sha256(expected))
    && OwnedSeparator(codex, data, |p + separator|) == Ok(separator)
  }

  lemma InstalledUninstalls(data: Bytes, codex: CodexState, expected: Bytes, p: Bytes, separator: Bytes, s: Bytes)
    requires InstalledAs(data, codex, expected, p, separator, s)
    ensures PlanUninstall(data, InstallState(Some(codex)), expected) == Ok(p + s)
  {
    hide Splits;
    hide FindRegistrationTables;
    SplitIsFound(SERVER_NAME, p + separator, expected, s);
    var end := |p + separator| + |expected|;
    assert data[..|p|] == p && data[end..] == s;
  }

  // Uninstall succeeds on exactly the configs of that shape, and leaves the user's two texts;
  // on every other config it is refused.
  lemma UninstallIff(data: Bytes, state: InstallState, expected: Bytes, rest: Bytes)
    ensures PlanUninstall(data, state, expected) == Ok(rest) <==>
      && state.codex.Some?
      && exists p, separator, s :: InstalledAs(data, state.codex.value, expected, p, separator, s) && rest == p + s
  {
    hide Splits;
    hide FindRegistrationTables;
    if PlanUninstall(data, state, expected) == Ok(rest) {
      var t := FindRegistrationTables(data).value.0.value;
      assert FindRegistrationTables(data) == Ok(Found(SERVER_NAME, t));
      FoundIsSplit(data, SERVER_NAME, t);
      var codex := state.codex.value;
      OwnedSeparatorIs(codex, data, t.start);
      var separator := OwnedSeparator(codex, data, t.start).value;
      var p, s := data[..t.start - |separator|], data[t.end..];
      assert p + separator == data[..t.start];
      assert t.block == expected;
      assert data == p + separator + expected + s;
      assert InstalledAs(data, codex, expected, p, separator, s);
    }
    if state.codex.Some? {
      forall p, separator, s | InstalledAs(data, state.codex.value, expected, p, separator, s) && rest == p + s
        ensures PlanUninstall(data, state, expected) == Ok(rest)
      {
        InstalledUninstalls(data, state.codex.value, expected, p, separator, s);
      }
    }
  }

  // ---------------------------------------------------------------- exactly when a write succeeds

  // The text before the table ends with the separator that is owned.
  ghost predicate OwnsSeparator(codex: CodexState, a: Bytes, separator: Bytes) {
    && separator in {"", "\n", "\n\n"} && EndsWith(a, separator)
    && match codex.separator
       case Undecodable => false
       case Recorded(bytes) => separator == bytes
       case Unrecorded =>
         if codex.backup.None? then separator == ""
         else if separator == "" then a != codex.backup.value + "\n" && a != codex.backup.value + "\n\n"
         else a == codex.backup.value + separator
  }

  lemma OwnsSeparatorIff(codex: CodexState, data: Bytes, start: nat, separator: Bytes)
    requires start <= |data|
    ensures OwnedSeparator(codex, data, start) == Ok(separator) <==> OwnsSeparator(codex, data[..start], separator)
  {
    var a := data[..start];
    if OwnedSeparator(codex, data, start) == Ok(separator) {
      OwnedSeparatorIs(codex, data, start);
      assert a[|a| - |separator|..] == data[start - |separator|..start];
    }
    if OwnsSeparator(codex, a, separator) {
      assert a[|a| - |separator|..] == data[start - |separator|..start];
      if codex.backup.Some? && codex.separator.Unrecorded? {
        assert |codex.backup.value + "\n"| != |codex.backup.value + "\n\n"|;
      }
    }
  }

  // A table stands between a and b, and the record names it by its header and has some hash for it.
  ghost predicate Stands(
    data: Bytes, state: Option<InstallState>, name: string, a: Bytes, t: Bytes, b: Bytes, separator: Bytes)
  {
    && OwnedName(name) && data == a + t + b && Splits(name, a, t, b)
    && state.Some? && state.value.codex.Some?
    && var codex := state.value.codex.value;
    && codex.table == TableHeader(name) && codex.blockHash.Some? && OwnsSeparator(codex, a, separator)
  }

  // The table may be replaced: it is the very one that was recorded under the former name, and a
  // migration is allowed; or it is under the current name, is not what would be written, and the
  // caller asked for it to be replaced.
  ghost predicate MayReplace(
    state: InstallState, name: string, t: Bytes, expected: Bytes, replaceOwned: bool, allowMigration: bool)
    requires state.codex.Some?
  {
    || (name == LEGACY_SERVER_NAME && state.codex.value.blockHash == Some(Sha256(t)) && allowMigration)
    || (name == SERVER_NAME && t != expected && replaceOwned)
  }

  // The config already holds what would be written, and the record says so.
  ghost predicate UpToDate(state: InstallState, name: string, t: Bytes, expected: Bytes)
    requires state.codex.Some?
  {
    name == SERVER_NAME && t == expected && state.codex.value.blockHash == Some(Sha256(t))
  }

  // A table is appended to a config without one, for an installation without a record.
  ghost predicate Appends(data: Bytes, state: Option<InstallState>) {
    Unregistered(data) && state.None?
  }

  lemma FoundPlan(data: Bytes, state: Option<InstallState>, expected: Bytes, replaceOwned: bool, allowMigration: bool,
                  name: string, a: Bytes, t: Bytes, b: Bytes)
    requires OwnedName(name) && data == a + t + b
    requires FindRegistrationTables(data) == Ok(Found(name, Table(|a|, |a| + |t|, t)))
    ensures forall separator, changed, config ::
      PlanWrite(data, state, expected, replaceOwned, allowMigration) == Ok(Written(config, changed, separator)) <==>
        && state.Some? && state.value.codex.Some?
        && var codex := state.value.codex.value;
        && codex.table == TableHeader(name) && codex.blockHash.Some? && OwnsSeparator(codex, a, separator)
        && (if changed then
              MayReplace(state.value, name, t, expected, replaceOwned, allowMigration) && config == a + expected + b
            else UpToDate(state.value, name, t, expected) && config == data)
  {
    hide FindRegistrationTables, OwnedSeparator, OwnsSeparator;
    assert data[..|a|] == a && data[|a| + |t|..] == b;
    if state.Some? && state.value.codex.Some? {
      forall separator
        ensures OwnedSeparator(state.value.codex.value, data, |a|) == Ok(separator)
           <==> OwnsSeparator(state.value.codex.value, a, separator)
      {
        OwnsSeparatorIff(state.value.codex.value, data, |a|, separator);
      }
    }
  }

  ghost predicate Replaces(data: Bytes, state: Option<InstallState>, expected: Bytes, replaceOwned: bool,
                           allowMigration: bool, w: Written, name: string, a: Bytes, t: Bytes, b: Bytes) {
    && Stands(data, state, name, a, t, b, w.separator)
    && if w.changed then
         MayReplace(state.value, name, t, expected, replaceOwned, allowMigration) && w.config == a + expected + b
       else UpToDate(state.value, name, t, expected) && w.config == data
  }

  // A write succeeds in these cases and no others, and says what it leaves: a first table is appended
  // after its separator; an up-to-date one stays; one that may be replaced is, and nothing else.
  lemma WriteIff(data: Bytes, state: Option<InstallState>, expected: Bytes, replaceOwned: bool, allowMigration: bool,
                 w: Written)
    ensures PlanWrite(data, state, expected, replaceOwned, allowMigration) == Ok(w) <==>
      || (Appends(data, state) && w == Written(data + FreshSeparator(data) + expected, true, FreshSeparator(data)))
      || (exists name, a, t, b :: Replaces(data, state, expected, replaceOwned, allowMigration, w, name, a, t, b))
  {
    hide Splits, OwnsSeparator, FreshSeparator, MayReplace, UpToDate, Unregistered, PlanWrite;
    if Unregistered(data) {
      PlanAppends(data, state, expected, replaceOwned, allowMigration);
      forall name, a, t, b ensures !Replaces(data, state, expected, replaceOwned, allowMigration, w, name, a, t, b) {
        if Replaces(data, state, expected, replaceOwned, allowMigration, w, name, a, t, b) {
          StandsIsRegistered(data, state, name, a, t, b, w.separator);
        }
      }
    } else {
      if PlanWrite(data, state, expected, replaceOwned, allowMigration) == Ok(w) {
        PlanReplaces(data, state, expected, replaceOwned, allowMigration, w);
      }
      forall name, a, t, b | Replaces(data, state, expected, replaceOwned, allowMigration, w, name, a, t, b)
        ensures PlanWrite(data, state, expected, replaceOwned, allowMigration) == Ok(w)
      {
        SplitIsFound(name, a, t, b);
        FoundPlan(data, state, expected, replaceOwned, allowMigration, name, a, t, b);
      }
    }
  }

  lemma StandsIsRegistered(
    data: Bytes, state: Option<InstallState>, name: string, a: Bytes, t: Bytes, b: Bytes, separator: Bytes)
    requires Stands(data, state, name, a, t, b, separator)
    ensures !Unregistered(data)
  {
    hide Splits, OwnsSeparator, FindRegistrationTables;
    SplitIsFound(name, a, t, b);
  }

  lemma PlanReplaces(data: Bytes, state: Option<InstallState>, expected: Bytes, replaceOwned: bool,
                     allowMigration: bool, w: Written)
    requires !Unregistered(data) && PlanWrite(data, state, expected, replaceOwned, allowMigration) == Ok(w)
    ensures exists name, a, t, b :: Replaces(data, state, expected, replaceOwned, allowMigration, w, name, a, t, b)
  {
    hide Splits, OwnsSeparator, MayReplace, UpToDate, Unregistered, PlanWrite, FindRegistrationTables;
    var name, t := OneFound(data, state, expected, replaceOwned, allowMigration);
    FoundIsSplit(data, name, t);
    var a, b := data[..t.start], data[t.end..];
    assert data == a + t.block + b;
    FoundPlan(data, state, expected, replaceOwned, allowMigration, name, a, t.block, b);
    assert Replaces(data, state, expected, replaceOwned, allowMigration, w, name, a, t.block, b);
  }

  lemma WriteWhen(data: Bytes, state: Option<InstallState>, expected: Bytes, replaceOwned: bool, allowMigration: bool)
    ensures var r := PlanWrite(data, state, expected, replaceOwned, allowMigration);
      r.Ok? && r.value.changed <==>
        || Appends(data, state)
        || (exists name, a, t, b, separator ::
              && Stands(data, state, name, a, t, b, separator)
              && MayReplace(state.value, name, t, expected, replaceOwned, allowMigration))
  {
    hide PlanWrite, Splits, OwnsSeparator, MayReplace, UpToDate, FreshSeparator;
    var r := PlanWrite(data, state, expected, replaceOwned, allowMigration);
    if r.Ok? {
      WriteIff(data, state, expected, replaceOwned, allowMigration, r.value);
    }
    if Appends(data, state) {
      var w := Written(data + FreshSeparator(data) + expected, true, FreshSeparator(data));
      WriteIff(data, state, expected, replaceOwned, allowMigration, w);
    }
    forall name, a, t, b, separator |
      Stands(data, state, name, a, t, b, separator)
      && MayReplace(state.value, name, t, expected, replaceOwned, allowMigration)
      ensures r.Ok? && r.value.changed
    {
      var w := Written(a + expected + b, true, separator);
      WriteIff(data, state, expected, replaceOwned, allowMigration, w);
      assert Replaces(data, state, expected, replaceOwned, allowMigration, w, name, a, t, b);
    }
  }

  lemma PlanAppends(
    data: Bytes, state: Option<InstallState>, expected: Bytes, replaceOwned: bool, allowMigration: bool)
    requires Unregistered(data)
    ensures PlanWrite(data, state, expected, replaceOwned, allowMigration) ==
      if state.None? then Ok(Written(data + FreshSeparator(data) + expected, true, FreshSeparator(data)))
      else Err(RegistrationMissing)
  {
    hide FindRegistrationTables, FreshSeparator;
  }

  lemma OneFound(data: Bytes, state: Option<InstallState>, expected: Bytes, replaceOwned: bool, allowMigration: bool)
    returns (name: string, t: Table)
    requires !Unregistered(data) && PlanWrite(data, state, expected, replaceOwned, allowMigration).Ok?
    ensures OwnedName(name) && FindRegistrationTables(data) == Ok(Found(name, t))
  {
    hide FindRegistrationTables;
    var (canonical, legacy) := FindRegistrationTables(data).value;
    OneSlot(data);
    name := if canonical.Some? then SERVER_NAME else LEGACY_SERVER_NAME;
    t := if canonical.Some? then canonical.value else legacy.value;
  }

  // The separator ends the last line, if it is open, and leaves one blank line before the table.
  lemma FreshSeparatorIs(data: Bytes)
    ensures AllowedSeparator(FreshSeparator(data)) && (FreshSeparator(data) == "" <==> data == "")
    ensures data != "" ==> EndsWith(data + FreshSeparator(data), "\n\n")
    ensures EndsWith(data, "\n") ==> |FreshSeparator(data)| == 1
  {
  }
}
