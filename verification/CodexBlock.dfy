// The table the installer writes (release_tools/installer.py, 549-580).
module CodexBlock {
  import opened Basics
  import opened TomlLexer
  import opened TomlHeader
  import opened TomlEscapes
  import opened TomlScan
  import opened Registration
  import opened Splice

  function HexLower(n: nat): char
    requires n < 16
  {
    "0123456789abcdef"[n]
  }

  // json.dumps(..., ensure_ascii=False), byte by byte: bytes past ASCII pass through.
  function JsonEscape(c: char): (r: Bytes)
    ensures r != ""
  {
    if c == '"' then "\\\""
    else if c == '\\' then "\\\\"
    else if c == '\n' then "\\n"
    else if c == '\r' then "\\r"
    else if c == '\t' then "\\t"
    else if c as int == 8 then "\\b"
    else if c as int == 12 then "\\f"
    else if c as int < 0x20 then ['\\', 'u', '0', '0', HexLower(c as int / 16), HexLower(c as int % 16)]
    else [c]
  }

  function JsonBody(s: Bytes): Bytes {
    if s == "" then "" else JsonEscape(s[0]) + JsonBody(s[1..])
  }

  function Quoted(s: Bytes): Bytes {
    "\"" + (JsonBody(s) + "\"")
  }

  function JoinLines(lines: seq<Bytes>): Bytes {
    if lines == [] then "" else lines[0] + "\n" + JoinLines(lines[1..])
  }

  function TableHeader(name: string): Bytes {
    "[" + DottedKey(name) + "]"
  }

  function Setting(key: Bytes, value: Bytes): Bytes {
    key + (" = " + value)
  }

  function Settings(command: Bytes): seq<Bytes> {
    [ Setting("command", Quoted(command)),
      Setting("args", "[]"),
      Setting("enabled", "true"),
      Setting("required", "false"),
      Setting("default_tools_approval_mode", Quoted("writes")),
      Setting("startup_timeout_sec", "20"),
      Setting("tool_timeout_sec", "180") ]
  }

  // The expected table for a launcher path, under the current or the former name.
  function ExpectedBlock(name: string, command: Bytes): Bytes {
    TableHeader(name) + "\n" + JoinLines(Settings(command))
  }

  // ---------------------------------------------------------------- the quoted path is read back

  function JsonPiece(c: char): Piece {
    if c == '"' then Letter('"')
    else if c == '\\' then Letter('\\')
    else if c == '\n' then Letter('n')
    else if c == '\r' then Letter('r')
    else if c == '\t' then Letter('t')
    else if c as int == 8 then Letter('b')
    else if c as int == 12 then Letter('f')
    else if c as int < 0x20 then Escape(c, false, false)
    else Raw(c)
  }

  lemma JsonPieceIs(c: char)
    ensures ValidPiece(JsonPiece(c)) && PieceValue(JsonPiece(c)) == c && PrintPiece(JsonPiece(c)) == JsonEscape(c)
  {
    hide CodePoint, HexDigits;
    if JsonPiece(c).Numeric? {
      EscapeIsRead(c, false, false);
      FourDigits(c as int);
      hide ValidPiece, PieceValue;
    }
  }

  lemma ZeroDigits()
    ensures HexDigits(0, 2, false) == "00"
  {
    assert HexDigits(0, 1, false) == HexDigits(0, 0, false) + "0";
    assert HexDigits(0, 2, false) == HexDigits(0, 1, false) + "0";
  }

  lemma FourDigits(n: nat)
    requires n < 0x100
    ensures HexDigits(n, 4, false) == ['0', '0', HexLower(n / 16), HexLower(n % 16)]
  {
    ZeroDigits();
    assert HexDigits(n / 16, 3, false) == HexDigits(0, 2, false) + [HexLower(n / 16)] by {
      assert n / 16 / 16 == 0 && (n / 16) % 16 == n / 16;
    }
    assert HexDigits(n, 4, false) == HexDigits(n / 16, 3, false) + [HexLower(n % 16)];
  }

  function JsonPieces(s: Bytes): seq<Piece> {
    if s == "" then [] else [JsonPiece(s[0])] + JsonPieces(s[1..])
  }

  lemma {:induction false} JsonPiecesAre(s: Bytes)
    ensures forall p :: p in JsonPieces(s) ==> ValidPiece(p)
    ensures PiecesValue(JsonPieces(s)) == s && PrintPieces(JsonPieces(s)) == JsonBody(s)
  {
    if s != "" {
      JsonPieceIs(s[0]);
      JsonPiecesAre(s[1..]);
      hide JsonPiece, ValidPiece, PieceValue, PrintPiece, JsonEscape;
      assert JsonPieces(s)[1..] == JsonPieces(s[1..]);
      Uncons(s);
    }
  }

  // Read as a TOML basic string, the quoted path is the path, whatever it contains.
  lemma QuotedReads(s: Bytes, rest: Bytes)
    ensures ParsePieces(JsonBody(s) + ("\"" + rest)).Ok?
    ensures var (ps, after) := ParsePieces(JsonBody(s) + ("\"" + rest)).value; PiecesValue(ps) == s && after == rest
  {
    JsonPiecesAre(s);
    ParsePrintedPieces(JsonPieces(s), rest);
  }

  // The first thing the table says is the launcher to run.
  lemma BlockNamesLauncher(name: string, command: Bytes)
    ensures TableHeader(name) + "\n" + ("command = \"" + JsonBody(command) + "\"\n") <= ExpectedBlock(name, command)
  {
    hide TableHeader, JsonBody;
    var first := Setting("command", Quoted(command));
    assert first + "\n" == "command = \"" + JsonBody(command) + "\"\n";
    assert JoinLines(Settings(command)) == first + "\n" + JoinLines(Settings(command)[1..]);
    Assoc(TableHeader(name) + "\n", first + "\n", JoinLines(Settings(command)[1..]));
  }

  // ---------------------------------------------------------------- each line is closed

  lemma RunEscape(c: char, a: Automaton)
    requires a.mode == InBasic(false)
    ensures Run(JsonEscape(c), a) == a
    ensures JsonEscape(c)[0] != '"'
    ensures NoBreaks(JsonEscape(c))
  {
    var e := JsonEscape(c);
    if |e| == 1 {
      assert e[1..] == "";
    } else if |e| == 2 {
      assert Run(e, a) == Run(e[1..], a.(mode := InBasic(true))) == Run(e[1..][1..], a);
      assert e[1..][1..] == "";
    } else {
      var hex := e[2..];
      assert e[1..][1..] == hex;
      assert Run(e, a) == Run(hex, a);
      assert hex[1..][1..][1..] == [hex[3]];
      assert HexLower(c as int / 16) != '"' && HexLower(c as int / 16) != '\\';
      assert HexLower(c as int % 16) != '"' && HexLower(c as int % 16) != '\\';
      assert Run(hex, a) == Run(hex[1..], a) == Run(hex[1..][1..], a) == Run([hex[3]], a) == Run([hex[3]][1..], a);
    }
  }

  lemma {:induction false} RunJsonBody(s: Bytes, a: Automaton)
    requires a.mode == InBasic(false)
    ensures Run(JsonBody(s), a) == a
    ensures NoBreaks(JsonBody(s))
    ensures s != "" ==> JsonBody(s) != "" && JsonBody(s)[0] != '"'
  {
    if s != "" {
      RunEscape(s[0], a);
      RunJsonBody(s[1..], a);
      RunAppend(JsonEscape(s[0]), JsonBody(s[1..]), a);
    }
  }

  // A quoted value opens and closes on its line, whatever it quotes.
  lemma QuotedCloses(s: Bytes, a: Automaton)
    requires a.mode == Plain
    ensures Finish(Quoted(s), a) == EndLine(a)
    ensures NoBreaks(Quoted(s))
  {
    var inside := a.(mode := InBasic(false));
    var body := JsonBody(s);
    RunJsonBody(s, inside);
    assert Quoted(s)[1..] == body + "\"";
    assert Run(Quoted(s), a) == Run(body + "\"", a.(mode := Quote1));
    if s == "" {
      assert body + "\"" == "\"";
      assert Run("\"", a.(mode := Quote1)) == Run("", a.(mode := Quote2));
    } else {
      assert (body + "\"")[0] == body[0];
      assert Run(body + "\"", a.(mode := Quote1)) == Run(body + "\"", inside);
      RunAppend(body, "\"", inside);
      assert Run("\"", inside) == Run("", a);
    }
  }

  // A line that opens no table, spans no other line, and leaves every value closed.
  ghost predicate BodyLine(line: Bytes) {
    NoBreaks(line) && !HeaderLine(line) && Advance(line, AT_BOUNDARY) == AT_BOUNDARY
  }

  lemma SettingCloses(key: Bytes, value: Bytes)
    requires key != "" && !IsSpace(key[0]) && forall i :: 0 <= i < |key| ==> PlainChar(key[i]) && !LineBreak(key[i])
    requires NoBreaks(value) && Finish(value, BeginLine(AT_BOUNDARY)) == AT_BOUNDARY
    ensures BodyLine(Setting(key, value))
  {
    var a := BeginLine(AT_BOUNDARY);
    var lead := key + " = ";
    RunPlain(lead, a);
    Assoc(key, " = ", value);
    RunAppend(lead, value, a);
    var line := Setting(key, value);
    assert line[0] == key[0];
    assert TakeSpace(line) == "";
  }

  lemma PlainValue(value: Bytes)
    requires forall i :: 0 <= i < |value| ==> PlainChar(value[i])
    ensures Finish(value, BeginLine(AT_BOUNDARY)) == AT_BOUNDARY
  {
    RunPlain(value, BeginLine(AT_BOUNDARY));
  }

  lemma QuotedSettings(command: Bytes)
    ensures BodyLine(Setting("command", Quoted(command)))
    ensures BodyLine(Setting("default_tools_approval_mode", Quoted("writes")))
  {
    hide JsonBody;
    hide BodyLine;
    hide Finish;
    QuotedCloses(command, BeginLine(AT_BOUNDARY));
    QuotedCloses("writes", BeginLine(AT_BOUNDARY));
    SettingCloses("command", Quoted(command));
    SettingCloses("default_tools_approval_mode", Quoted("writes"));
  }

  lemma FlagSettings()
    ensures BodyLine(Setting("enabled", "true"))
    ensures BodyLine(Setting("required", "false"))
  {
    hide BodyLine;
    hide Finish;
    PlainValue("true");
    PlainValue("false");
    SettingCloses("enabled", "true");
    SettingCloses("required", "false");
  }

  lemma NumberSettings()
    ensures BodyLine(Setting("startup_timeout_sec", "20"))
    ensures BodyLine(Setting("tool_timeout_sec", "180"))
  {
    hide BodyLine;
    hide Finish;
    PlainValue("20");
    PlainValue("180");
    SettingCloses("startup_timeout_sec", "20");
    SettingCloses("tool_timeout_sec", "180");
  }

  lemma ListSetting()
    ensures BodyLine(Setting("args", "[]"))
  {
    hide BodyLine;
    var a := BeginLine(AT_BOUNDARY);
    assert "[]"[1..] == "]" && "]"[1..] == "";
    assert Run("[]", a) == Run("]", a.(square := 1)) == Run("", a);
    SettingCloses("args", "[]");
  }

  lemma SettingsClose(command: Bytes)
    ensures forall line :: line in Settings(command) ==> BodyLine(line)
  {
    hide BodyLine;
    hide Setting;
    hide Quoted;
    QuotedSettings(command);
    FlagSettings();
    NumberSettings();
    ListSetting();
  }

  // ---------------------------------------------------------------- the block is one table

  lemma ScanBodyLine(line: Bytes, st: ScanState)
    requires BodyLine(line) && st.lex == AT_BOUNDARY
    ensures ScanLines(line + "\n", st).Ok?
    ensures var end := ScanLines(line + "\n", st).value; end.headers == st.headers && end.lex == AT_BOUNDARY
  {
    hide Read, ScanLines, BodyLine, StripBreaks, FirstLine;
    BodyLineReads(line);
    assert PatternEnd("\n") == Some(1) && "\n"[..1] == "\n";
    FirstLineOf(line, "\n");
    StripOneBreak(line, "\n");
    ScanLastLine(line + "\n", st);
  }

  lemma BodyLineReads(line: Bytes)
    requires BodyLine(line)
    ensures NoBreaks(line) && Read(line, AT_BOUNDARY).Other? && Read(line, AT_BOUNDARY).after == AT_BOUNDARY
  {
  }

  lemma {:induction false} ScanBody(lines: seq<Bytes>, st: ScanState)
    requires forall line :: line in lines ==> BodyLine(line)
    requires st.lex == AT_BOUNDARY
    ensures ScanLines(JoinLines(lines), st).Ok?
    ensures var end := ScanLines(JoinLines(lines), st).value; end.headers == st.headers && end.lex == AT_BOUNDARY
  {
    hide Read;
    hide BodyLine;
    if lines != [] {
      ScanBodyLine(lines[0], st);
      ScanBody(lines[1..], ScanLines(lines[0] + "\n", st).value);
      ScanAppend(lines[0] + "\n", JoinLines(lines[1..]), st);
    }
  }

  lemma HeaderMatched(name: string, rest: Bytes) returns (m: Matched)
    requires OwnedName(name)
    ensures m == Matched("", "", "", "", "", "\n" + rest)
    ensures ValidMatched(m) && Prefix(m, name) == TableHeader(name)
    ensures TableHeader(name) + "\n" + rest == Prefix(m, name) + (m.comment + m.tail)
  {
    hide DottedKey;
    m := Matched("", "", "", "", "", "\n" + rest);
    Assoc(TableHeader(name), "\n", rest);
  }

  // The block's first line opens its table, whatever follows.
  lemma BlockOpens(name: string, body: Bytes)
    requires OwnedName(name)
    ensures var block := TableHeader(name) + "\n" + body;
      && MatchHeader(block, name).Some?
      && FirstLine(block) == |TableHeader(name)| + 1
      && OpensWith(block, HeaderAt(0, false, [MCP_SERVERS, name]))
  {
    hide MatchHeader;
    hide RawHeaderSegments;
    hide DottedKey;
    hide TableHeader;
    var block := TableHeader(name) + "\n" + body;
    var m := HeaderMatched(name, body);
    MatchRejoined(m, name);
    MatchedLine(block, name);
    PrefixAscii(m, name);
    assert m.tail[..1] == "\n";
    StripOneBreak(TableHeader(name), m.tail);
    assert TableHeader(name) + "" == TableHeader(name);
    FirstLineOf(TableHeader(name), m.tail);
    Assoc(TableHeader(name), "\n", body);
    assert block[..FirstLine(block)] == TableHeader(name) + "\n";
    HeaderReads(m, name);
  }

  lemma HeaderReads(m: Matched, name: string)
    requires OwnedName(name) && ValidMatched(m) && m.comment == ""
    ensures Read(Prefix(m, name), AT_BOUNDARY) == NewTable(false, [MCP_SERVERS, name])
  {
    hide RawHeaderSegments;
    hide Prefix;
    MatchedLineParses(m, name);
    MatchedIsHeader(m, name);
    assert Prefix(m, name) + "" == Prefix(m, name);
  }

  lemma OneTable(block: Bytes, h: HeaderAt, body: Bytes, lines: seq<Bytes>)
    requires OpensWith(block, h) && h.start == 0 && block[FirstLine(block)..] == body == JoinLines(lines)
    requires forall line :: line in lines ==> BodyLine(line)
    ensures ScanLines(block, START).Ok?
    ensures ScanLines(block, START).value.lex == AT_BOUNDARY && ScanLines(block, START).value.headers == [h]
  {
    hide Read;
    hide BodyLine;
    AfterHeader(block, h, START);
    assert START.headers + [h] == [h];
    ScanBody(lines, ScanState([h], [], h.segments, AT_BOUNDARY, FirstLine(block)));
  }

  // Whatever the launcher path, the block is exactly one table under its own name.
  lemma BlockIsTable(name: string, command: Bytes)
    requires OwnedName(name)
    ensures TableText(ExpectedBlock(name, command), name)
    ensures EndsWith(ExpectedBlock(name, command), "\n")
  {
    hide MatchHeader;
    hide OpensWith;
    hide TableHeader;
    hide Settings;
    hide BodyLine;
    var body := JoinLines(Settings(command));
    var block := ExpectedBlock(name, command);
    BlockOpens(name, body);
    assert block[FirstLine(block)..] == body;
    SettingsClose(command);
    OneTable(block, HeaderAt(0, false, [MCP_SERVERS, name]), body, Settings(command));
    SettingsNonempty(command);
    BodyEnds(Settings(command));
  }

  lemma SettingsNonempty(command: Bytes)
    ensures Settings(command) != []
  {
  }

  lemma {:induction false} BodyEnds(lines: seq<Bytes>)
    requires lines != []
    ensures EndsWith(JoinLines(lines), "\n")
  {
    if |lines| > 1 {
      BodyEnds(lines[1..]);
    } else {
      assert lines[1..] == [];
    }
  }
}
