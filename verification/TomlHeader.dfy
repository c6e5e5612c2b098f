// The TOML table-header key parser (release_tools/installer.py, 608-724).
//
// A header is described by its concrete spelling.  Printing and parsing are inverse to each
// other, so the parser accepts exactly the printed headers and recovers every decision made
// in spelling them; the index loops of the source are proved to compute this parser.
module TomlHeader {
  import opened Basics
  import Utf8

  datatype HeaderError =
    | NonUtf8
    | InvalidHeader
    | EmptySegment
    | InvalidLiteral
    | ControlCharacter
    | InvalidEscape
    | InvalidUnicode
    | Unterminated
    | InvalidBareKey
    | InvalidDotted

  // ---------------------------------------------------------------- spellings

  // One character of a basic-quoted key: itself, a letter escape, or a numeric escape.
  datatype Piece =
    | Raw(c: char)
    | Letter(letter: char)
    | Numeric(marker: char, digits: string)

  datatype Spelling =
    | Bare(text: string)
    | LiteralQuoted(text: string)
    | BasicQuoted(pieces: seq<Piece>)

  // A key segment with the blanks around it.
  datatype Part = Part(before: string, key: Spelling, after: string)

  datatype Header = Header(indent: string, arrayed: bool, parts: seq<Part>, trailing: string)

  predicate BareChar(c: char) {
    'A' <= c <= 'Z' || 'a' <= c <= 'z' || '0' <= c <= '9' || c == '_' || c == '-'
  }

  predicate HexDigit(c: char) {
    '0' <= c <= '9' || 'A' <= c <= 'F' || 'a' <= c <= 'f'
  }

  function HexValue(c: char): nat {
    if !HexDigit(c) then 0
    else if c <= '9' then c as int - '0' as int
    else if c <= 'F' then c as int - 'A' as int + 10
    else c as int - 'a' as int + 10
  }

  function CodePoint(digits: string): nat {
    if digits == "" then 0
    else CodePoint(digits[..|digits| - 1]) * 16 + HexValue(digits[|digits| - 1])
  }

  function LetterValue(letter: char): Option<char> {
    match letter
    case 'b' => Some(8 as char)
    case 't' => Some('\t')
    case 'n' => Some('\n')
    case 'f' => Some(12 as char)
    case 'r' => Some('\r')
    case '"' => Some('"')
    case '\\' => Some('\\')
    case _ => None
  }

  function DigitCount(marker: char): nat {
    if marker == 'u' then 4 else 8
  }

  predicate ValidPiece(p: Piece) {
    match p
    case Raw(c) => c != '"' && c != '\\' && c as int >= 0x20
    case Letter(l) => LetterValue(l).Some?
    case Numeric(m, digits) =>
      && (m == 'u' || m == 'U')
      && |digits| == DigitCount(m)
      && (forall c :: c in digits ==> HexDigit(c))
      && Utf8.Scalar(CodePoint(digits))
  }

  // The character a piece stands for; only valid pieces are ever read.
  function PieceValue(p: Piece): char {
    match p
    case Raw(c) => c
    case Letter(l) => if LetterValue(l).Some? then LetterValue(l).value else l
    case Numeric(m, digits) => if Utf8.Scalar(CodePoint(digits)) then CodePoint(digits) as char else m
  }

  function PiecesValue(ps: seq<Piece>): string {
    if ps == [] then "" else [PieceValue(ps[0])] + PiecesValue(ps[1..])
  }

  predicate ValidSpelling(k: Spelling) {
    match k
    case Bare(t) => t != "" && forall c :: c in t ==> BareChar(c)
    case LiteralQuoted(t) => t != "" && '\'' !in t
    case BasicQuoted(ps) => ps != [] && forall p :: p in ps ==> ValidPiece(p)
  }

  // The segment a spelling stands for.
  function Segment(k: Spelling): string {
    match k
    case Bare(t) => t
    case LiteralQuoted(t) => t
    case BasicQuoted(ps) => PiecesValue(ps)
  }

  ghost predicate ValidPart(p: Part) {
    AllSpace(p.before) && ValidSpelling(p.key) && AllSpace(p.after)
  }

  ghost predicate ValidParts(ps: seq<Part>) {
    ps != [] && forall p :: p in ps ==> ValidPart(p)
  }

  predicate ValidTrailing(t: string) {
    var rest := DropSpace(t);
    rest == "" || rest[0] == '#'
  }

  ghost predicate ValidHeader(h: Header) {
    AllSpace(h.indent) && ValidParts(h.parts) && ValidTrailing(h.trailing)
  }

  function Segments(ps: seq<Part>): seq<string> {
    if ps == [] then [] else [Segment(ps[0].key)] + Segments(ps[1..])
  }

  // ---------------------------------------------------------------- printing

  function PrintPiece(p: Piece): string {
    match p
    case Raw(c) => [c]
    case Letter(l) => ['\\', l]
    case Numeric(m, digits) => ['\\', m] + digits
  }

  function PrintPieces(ps: seq<Piece>): string {
    if ps == [] then "" else PrintPiece(ps[0]) + PrintPieces(ps[1..])
  }

  function PrintKey(k: Spelling): string {
    match k
    case Bare(t) => t
    case LiteralQuoted(t) => "'" + (t + "'")
    case BasicQuoted(ps) => "\"" + (PrintPieces(ps) + "\"")
  }

  function Closer(arrayed: bool): string {
    if arrayed then "]]" else "]"
  }

  // A key with its blanks, and the text that follows.
  function PrintPart(p: Part, tail: string): string {
    p.before + (PrintKey(p.key) + (p.after + tail))
  }

  // Everything after the opening bracket(s).
  function PrintParts(ps: seq<Part>, arrayed: bool, trailing: string): string
    requires ps != []
  {
    PrintPart(ps[0], if |ps| == 1 then Closer(arrayed) + trailing else "." + PrintParts(ps[1..], arrayed, trailing))
  }

  function Print(h: Header): string
    requires h.parts != []
  {
    h.indent + ((if h.arrayed then "[[" else "[") + PrintParts(h.parts, h.arrayed, h.trailing))
  }

  // ---------------------------------------------------------------- parsing

  // The escape after a backslash, and how many characters it took.
  function ParseEscape(s: string): (r: Result<(Piece, nat), HeaderError>)
    ensures r.Ok? ==> 0 < r.value.1 <= |s|
  {
    if s == "" then Err(InvalidEscape)
    else if LetterValue(s[0]).Some? then Ok((Letter(s[0]), 1))
    else if s[0] != 'u' && s[0] != 'U' then Err(InvalidEscape)
    else
      var width := DigitCount(s[0]);
      if |s| < 1 + width || exists c :: c in s[1..1 + width] && !HexDigit(c) then Err(InvalidUnicode)
      else if !Utf8.Scalar(CodePoint(s[1..1 + width])) then Err(InvalidUnicode)
      else Ok((Numeric(s[0], s[1..1 + width]), 1 + width))
  }

  // The body of a basic-quoted key up to its closing quote, and what follows the quote.
  function ParsePieces(s: string): (r: Result<(seq<Piece>, string), HeaderError>)
    decreases |s|
    ensures r.Ok? ==> |r.value.1| < |s|
  {
    if s == "" then Err(Unterminated)
    else if s[0] == '"' then Ok(([], s[1..]))
    else if s[0] != '\\' then
      if s[0] as int < 0x20 then Err(ControlCharacter) else
      match ParsePieces(s[1..])
      case Err(e) => Err(e)
      case Ok((ps, rest)) => Ok(([Raw(s[0])] + ps, rest))
    else
      match ParseEscape(s[1..])
      case Err(e) => Err(e)
      case Ok((p, n)) =>
        match ParsePieces(s[1 + n..])
        case Err(e) => Err(e)
        case Ok((ps, rest)) => Ok(([p] + ps, rest))
  }

  predicate BareStop(c: char) {
    IsSpace(c) || c == '.' || c == ']'
  }

  function BareLength(s: string): (n: nat)
    ensures n <= |s|
    ensures forall i :: 0 <= i < n ==> !BareStop(s[i])
    ensures n < |s| ==> BareStop(s[n])
  {
    if s == "" || BareStop(s[0]) then 0 else 1 + BareLength(s[1..])
  }

  // The position of the next single quote, or the length when there is none.
  function TickAt(s: string): (n: nat)
    ensures n <= |s|
    ensures '\'' !in s[..n]
    ensures n < |s| ==> s[n] == '\''
  {
    if s == "" || s[0] == '\'' then 0
    else
      var n := TickAt(s[1..]);
      assert s[..n + 1] == [s[0]] + s[1..][..n];
      n + 1
  }

  function ParseKey(s: string): (r: Result<(Spelling, string), HeaderError>)
    ensures r.Ok? ==> |r.value.1| < |s|
  {
    if s == "" then Err(EmptySegment)
    else if s[0] == '\'' then
      var n := TickAt(s[1..]);
      if n == |s| - 1 then Err(InvalidLiteral)
      else if n == 0 then Err(EmptySegment)
      else Ok((LiteralQuoted(s[1..][..n]), s[1..][n + 1..]))
    else if s[0] == '"' then
      match ParsePieces(s[1..])
      case Err(e) => Err(e)
      case Ok((ps, rest)) => if ps == [] then Err(EmptySegment) else Ok((BasicQuoted(ps), rest))
    else
      var n := BareLength(s);
      if n == 0 || exists c :: c in s[..n] && !BareChar(c) then Err(InvalidBareKey)
      else Ok((Bare(s[..n]), s[n..]))
  }

  // One key segment and what follows it.
  datatype Cut =
    | Bad(error: HeaderError)
    | Last(part: Part, trailing: string)
    | More(part: Part, rest: string)

  function CutPart(s: string, arrayed: bool): (c: Cut)
    ensures c.More? ==> |c.rest| < |s|
  {
    match ParseKey(DropSpace(s))
    case Err(e) => Bad(e)
    case Ok((key, rest)) => CutAfter(Part(TakeSpace(s), key, TakeSpace(rest)), DropSpace(rest), arrayed)
  }

  function CutAfter(part: Part, next: string, arrayed: bool): (c: Cut)
    ensures c.More? ==> |c.rest| < |next|
  {
    if StartsWith(next, Closer(arrayed)) then
      var trailing := next[|Closer(arrayed)|..];
      if ValidTrailing(trailing) then Last(part, trailing) else Bad(InvalidHeader)
    else if next == "" || next[0] != '.' then Bad(InvalidDotted)
    else More(part, next[1..])
  }

  function ParseParts(s: string, arrayed: bool): Result<(seq<Part>, string), HeaderError>
    decreases |s|
  {
    match CutPart(s, arrayed)
    case Bad(e) => Err(e)
    case Last(part, trailing) => Ok(([part], trailing))
    case More(part, rest) =>
      match ParseParts(rest, arrayed)
      case Err(e) => Err(e)
      case Ok((parts, trailing)) => Ok(([part] + parts, trailing))
  }

  function ParseHeader(line: string): Result<Header, HeaderError> {
    var s := DropSpace(line);
    var arrayed := StartsWith(s, "[[");
    if !StartsWith(s, "[") then Err(InvalidHeader)
    else
      match ParseParts(s[if arrayed then 2 else 1..], arrayed)
      case Err(e) => Err(e)
      case Ok((parts, trailing)) => Ok(Header(TakeSpace(line), arrayed, parts, trailing))
  }

  // What the source returns: the array flag and the decoded segments.
  function HeaderSegments(line: string): Result<(bool, seq<string>), HeaderError> {
    match ParseHeader(line)
    case Err(e) => Err(e)
    case Ok(h) => Ok((h.arrayed, Segments(h.parts)))
  }

  // ---------------------------------------------------------------- parsing undoes printing

  lemma ParsePrintedEscape(p: Piece, rest: string)
    requires ValidPiece(p) && !p.Raw?
    ensures ParseEscape(PrintPiece(p)[1..] + rest) == Ok((p, |PrintPiece(p)| - 1))
  {
    var s := PrintPiece(p)[1..] + rest;
    match p
    case Letter(l) =>
      assert s[0] == l;
    case Numeric(m, digits) =>
      assert s[0] == m;
      assert s[1..1 + |digits|] == digits;
  }

  lemma ParseRawThen(c: char, tail: string)
    requires ValidPiece(Raw(c)) && ParsePieces(tail).Ok?
    ensures ParsePieces([c] + tail) == Ok(([Raw(c)] + ParsePieces(tail).value.0, ParsePieces(tail).value.1))
  {
    assert ([c] + tail)[1..] == tail;
  }

  lemma ParseEscapeThen(p: Piece, tail: string)
    requires ValidPiece(p) && !p.Raw? && ParsePieces(tail).Ok?
    ensures ParsePieces(PrintPiece(p) + tail) == Ok(([p] + ParsePieces(tail).value.0, ParsePieces(tail).value.1))
  {
    var s := PrintPiece(p) + tail;
    ParsePrintedEscape(p, tail);
    assert s[0] == '\\' && s[1..] == PrintPiece(p)[1..] + tail;
    assert s[1 + (|PrintPiece(p)| - 1)..] == tail;
  }

  lemma {:induction false} ParsePrintedPieces(ps: seq<Piece>, rest: string)
    requires forall p :: p in ps ==> ValidPiece(p)
    ensures ParsePieces(PrintPieces(ps) + ("\"" + rest)) == Ok((ps, rest))
  {
    if ps == [] {
      assert "" + ("\"" + rest) == "\"" + rest;
      assert ("\"" + rest)[1..] == rest;
    } else {
      var p := ps[0];
      ParsePrintedPieces(ps[1..], rest);
      Assoc(PrintPiece(p), PrintPieces(ps[1..]), "\"" + rest);
      assert [p] + ps[1..] == ps;
      if p.Raw? {
        ParseRawThen(p.c, PrintPieces(ps[1..]) + ("\"" + rest));
      } else {
        ParseEscapeThen(p, PrintPieces(ps[1..]) + ("\"" + rest));
      }
    }
  }

  lemma {:induction false} BareLengthOf(t: string, rest: string)
    requires forall c :: c in t ==> !BareStop(c)
    requires rest != "" ==> BareStop(rest[0])
    ensures BareLength(t + rest) == |t|
  {
    if t != "" {
      assert (t + rest)[1..] == t[1..] + rest;
      BareLengthOf(t[1..], rest);
    } else {
      assert t + rest == rest;
    }
  }

  lemma {:induction false} TickAtOf(t: string, rest: string)
    requires '\'' !in t
    ensures TickAt(t + ("'" + rest)) == |t|
  {
    if t != "" {
      assert (t + ("'" + rest))[1..] == t[1..] + ("'" + rest);
      TickAtOf(t[1..], rest);
    } else {
      assert t + ("'" + rest) == "'" + rest;
    }
  }

  lemma ParsePrintedBare(t: string, rest: string)
    requires ValidSpelling(Bare(t))
    requires rest != "" && BareStop(rest[0])
    ensures ParseKey(t + rest) == Ok((Bare(t), rest))
  {
    var s := t + rest;
    BareLengthOf(t, rest);
    assert s[..|t|] == t && s[|t|..] == rest;
    assert s[0] == t[0] && t[0] in t;
  }

  lemma ParsePrintedLiteral(t: string, rest: string)
    requires ValidSpelling(LiteralQuoted(t))
    ensures ParseKey("'" + (t + ("'" + rest))) == Ok((LiteralQuoted(t), rest))
  {
    var body := t + ("'" + rest);
    assert ("'" + body)[1..] == body;
    TickAtOf(t, rest);
    assert body[..|t|] == t && body[|t| + 1..] == rest;
  }

  lemma ParsePrintedBasic(ps: seq<Piece>, rest: string)
    requires ValidSpelling(BasicQuoted(ps))
    ensures ParseKey("\"" + (PrintPieces(ps) + ("\"" + rest))) == Ok((BasicQuoted(ps), rest))
  {
    var body := PrintPieces(ps) + ("\"" + rest);
    assert ("\"" + body)[1..] == body;
    ParsePrintedPieces(ps, rest);
  }

  lemma ParsePrintedKey(k: Spelling, rest: string)
    requires ValidSpelling(k)
    requires k.Bare? ==> rest != "" && BareStop(rest[0])
    ensures ParseKey(PrintKey(k) + rest) == Ok((k, rest))
  {
    match k
    case Bare(t) =>
      ParsePrintedBare(t, rest);
    case LiteralQuoted(t) =>
      Assoc("'", t + "'", rest);
      Assoc(t, "'", rest);
      ParsePrintedLiteral(t, rest);
    case BasicQuoted(ps) =>
      Assoc("\"", PrintPieces(ps) + "\"", rest);
      Assoc(PrintPieces(ps), "\"", rest);
      ParsePrintedBasic(ps, rest);
  }

  // A printed key never begins with a blank.
  lemma PrintedKeyStart(k: Spelling)
    requires ValidSpelling(k)
    ensures PrintKey(k) != "" && !IsSpace(PrintKey(k)[0]) && PrintKey(k)[0] != '['
  {
    if k.Bare? {
      assert k.text[0] in k.text;
    }
  }

  // Cutting a printed key segment off returns it.
  lemma CutPrinted(p: Part, tail: string, arrayed: bool)
    requires ValidPart(p) && tail != "" && BareStop(tail[0]) && !IsSpace(tail[0])
    ensures CutPart(PrintPart(p, tail), arrayed) == CutAfter(p, tail, arrayed)
  {
    PrintedKeyStart(p.key);
    TakeSpaceOf(p.before, PrintKey(p.key) + (p.after + tail));
    TakeSpaceOf(p.after, tail);
    if p.after == "" {
      assert p.after + tail == tail;
    }
    ParsePrintedKey(p.key, p.after + tail);
  }

  lemma CutAfterCloser(p: Part, trailing: string, arrayed: bool)
    requires ValidTrailing(trailing)
    ensures CutAfter(p, Closer(arrayed) + trailing, arrayed) == Last(p, trailing)
  {
    assert (Closer(arrayed) + trailing)[|Closer(arrayed)|..] == trailing;
  }

  lemma CutAfterDot(p: Part, inner: string, arrayed: bool)
    ensures CutAfter(p, "." + inner, arrayed) == More(p, inner)
  {
    assert ("." + inner)[1..] == inner;
  }

  lemma ParseLast(s: string, arrayed: bool, part: Part, trailing: string)
    requires CutPart(s, arrayed) == Last(part, trailing)
    ensures ParseParts(s, arrayed) == Ok(([part], trailing))
  {
  }

  lemma ParseMore(s: string, arrayed: bool, part: Part, rest: string, parts: seq<Part>, trailing: string)
    requires CutPart(s, arrayed) == More(part, rest)
    requires ParseParts(rest, arrayed) == Ok((parts, trailing))
    ensures ParseParts(s, arrayed) == Ok(([part] + parts, trailing))
  {
  }

  lemma {:induction false} ParsePrintedParts(ps: seq<Part>, arrayed: bool, trailing: string)
    requires ValidParts(ps) && ValidTrailing(trailing)
    ensures ParseParts(PrintParts(ps, arrayed, trailing), arrayed) == Ok((ps, trailing))
  {
    hide ParseParts, ValidPart, PrintPart;
    assert ValidPart(ps[0]);
    if |ps| == 1 {
      ParseOnePrinted(ps[0], arrayed, trailing);
      assert ps == [ps[0]];
    } else {
      ParsePrintedParts(ps[1..], arrayed, trailing);
      ParseMorePrinted(ps[0], PrintParts(ps[1..], arrayed, trailing), arrayed, ps[1..], trailing);
      assert ps == [ps[0]] + ps[1..];
    }
  }

  lemma ParseOnePrinted(p: Part, arrayed: bool, trailing: string)
    requires ValidPart(p) && ValidTrailing(trailing)
    ensures ParseParts(PrintPart(p, Closer(arrayed) + trailing), arrayed) == Ok(([p], trailing))
  {
    var s := PrintPart(p, Closer(arrayed) + trailing);
    assert CutPart(s, arrayed) == Last(p, trailing) by {
      CutPrinted(p, Closer(arrayed) + trailing, arrayed);
      CutAfterCloser(p, trailing, arrayed);
    }
    ParseLast(s, arrayed, p, trailing);
  }

  lemma ParseMorePrinted(p: Part, inner: string, arrayed: bool, parts: seq<Part>, trailing: string)
    requires ValidPart(p)
    requires ParseParts(inner, arrayed) == Ok((parts, trailing))
    ensures ParseParts(PrintPart(p, "." + inner), arrayed) == Ok(([p] + parts, trailing))
  {
    var s := PrintPart(p, "." + inner);
    assert CutPart(s, arrayed) == More(p, inner) by {
      CutPrinted(p, "." + inner, arrayed);
      CutAfterDot(p, inner, arrayed);
    }
    ParseMore(s, arrayed, p, inner, parts, trailing);
  }

  // Reading back any spelling of a header gives that spelling.
  lemma ParsePrinted(h: Header)
    requires ValidHeader(h)
    ensures ParseHeader(Print(h)) == Ok(h)
  {
    hide ParseParts, PrintParts;
    var body := PrintParts(h.parts, h.arrayed, h.trailing);
    var open := if h.arrayed then "[[" else "[";
    ParsePrintedParts(h.parts, h.arrayed, h.trailing);
    PrintedPartsStart(h.parts, h.arrayed, h.trailing);
    TakeSpaceOf(h.indent, open + body);
    hide TakeSpace, DropSpace;
    assert (open + body)[|open|..] == body;
    assert (open + body)[0] == '[';
    if !h.arrayed {
      assert (open + body)[1] == body[0];
    }
  }

  // No printed segment begins with a bracket, so one bracket is not mistaken for two.
  lemma PrintedPartsStart(ps: seq<Part>, arrayed: bool, trailing: string)
    requires ValidParts(ps)
    ensures PrintParts(ps, arrayed, trailing) != "" && PrintParts(ps, arrayed, trailing)[0] != '['
  {
    assert ValidPart(ps[0]);
    PrintedKeyStart(ps[0].key);
    if ps[0].before != "" {
      assert IsSpace(ps[0].before[0]);
    }
  }

  // ---------------------------------------------------------------- printing undoes parsing

  lemma PrintParsedEscape(s: string)
    requires ParseEscape(s).Ok?
    ensures var (p, n) := ParseEscape(s).value; !p.Raw? && PrintPiece(p) == "\\" + s[..n]
  {
  }

  lemma {:induction false} ParsedPiecesValid(s: string)
    requires ParsePieces(s).Ok?
    ensures forall p :: p in ParsePieces(s).value.0 ==> ValidPiece(p)
    decreases |s|
  {
    if s[0] == '"' {
    } else if s[0] != '\\' {
      ParsedPiecesValid(s[1..]);
    } else {
      var (p, n) := ParseEscape(s[1..]).value;
      ParsedPiecesValid(s[1 + n..]);
      assert ValidPiece(p);
    }
  }

  lemma ParsedKeyValid(s: string)
    requires ParseKey(s).Ok?
    ensures ValidSpelling(ParseKey(s).value.0)
  {
    if s[0] == '"' {
      ParsedPiecesValid(s[1..]);
    }
  }

  lemma CutPartValid(s: string, arrayed: bool)
    ensures var c := CutPart(s, arrayed);
      && (c.Last? ==> ValidPart(c.part) && ValidTrailing(c.trailing))
      && (c.More? ==> ValidPart(c.part))
  {
    if ParseKey(DropSpace(s)).Ok? {
      ParsedKeyValid(DropSpace(s));
    }
  }

  lemma {:induction false} ParsedPartsValid(s: string, arrayed: bool)
    requires ParseParts(s, arrayed).Ok?
    ensures ValidParts(ParseParts(s, arrayed).value.0) && ValidTrailing(ParseParts(s, arrayed).value.1)
    decreases |s|
  {
    CutPartValid(s, arrayed);
    var c := CutPart(s, arrayed);
    if c.More? {
      ParsedPartsValid(c.rest, arrayed);
    }
  }

  lemma {:induction false} PrintParsedPieces(s: string)
    requires ParsePieces(s).Ok?
    ensures PrintPieces(ParsePieces(s).value.0) + ("\"" + ParsePieces(s).value.1) == s
    decreases |s|
  {
    if s[0] == '"' {
      Uncons(s);
      assert PrintPieces([]) + ("\"" + s[1..]) == s;
    } else if s[0] != '\\' {
      PrintParsedPieces(s[1..]);
      PrintParsedRaw(s);
    } else {
      PrintParsedPieces(s[1 + ParseEscape(s[1..]).value.1..]);
      PrintParsedEscaped(s);
    }
  }

  lemma PrintParsedRaw(s: string)
    requires ParsePieces(s).Ok? && s[0] != '"' && s[0] != '\\'
    requires PrintPieces(ParsePieces(s[1..]).value.0) + ("\"" + ParsePieces(s[1..]).value.1) == s[1..]
    ensures PrintPieces(ParsePieces(s).value.0) + ("\"" + ParsePieces(s).value.1) == s
  {
    var (ps, rest) := ParsePieces(s[1..]).value;
    assert ParsePieces(s).value == ([Raw(s[0])] + ps, rest);
    hide ParsePieces, PrintPieces;
    PrintMorePieces(Raw(s[0]), ps, rest);
    Uncons(s);
  }

  lemma PrintParsedEscaped(s: string)
    requires ParsePieces(s).Ok? && s[0] == '\\'
    requires var rest := s[1 + ParseEscape(s[1..]).value.1..];
      PrintPieces(ParsePieces(rest).value.0) + ("\"" + ParsePieces(rest).value.1) == rest
    ensures PrintPieces(ParsePieces(s).value.0) + ("\"" + ParsePieces(s).value.1) == s
  {
    var (p, n) := ParseEscape(s[1..]).value;
    var (ps, rest) := ParsePieces(s[1 + n..]).value;
    assert ParsePieces(s).value == ([p] + ps, rest);
    hide ParsePieces, PrintPieces, ParseEscape, PrintPiece;
    PrintParsedEscape(s[1..]);
    PrintMorePieces(p, ps, rest);
    EscapeSplit(s, n);
  }

  lemma EscapeSplit(s: string, n: nat)
    requires 1 + n <= |s| && s[0] == '\\'
    ensures ("\\" + s[1..][..n]) + s[1 + n..] == s
  {
    Uncons(s);
    assert s[1..] == s[1..][..n] + s[1..][n..];
    assert s[1..][n..] == s[1 + n..];
    Assoc("\\", s[1..][..n], s[1 + n..]);
  }

  lemma PrintMorePieces(p: Piece, ps: seq<Piece>, rest: string)
    ensures PrintPieces([p] + ps) + ("\"" + rest) == PrintPiece(p) + (PrintPieces(ps) + ("\"" + rest))
  {
    assert ([p] + ps)[1..] == ps;
    Assoc(PrintPiece(p), PrintPieces(ps), "\"" + rest);
  }

  lemma PrintParsedKey(s: string)
    requires ParseKey(s).Ok?
    ensures PrintKey(ParseKey(s).value.0) + ParseKey(s).value.1 == s
  {
    Uncons(s);
    var body := s[1..];
    if s[0] == '\'' {
      var n := TickAt(body);
      Uncons(body[n..]);
      assert body[n..][1..] == body[n + 1..];
      assert body[..n] + body[n..] == body;
      Assoc("'", body[..n] + "'", body[n + 1..]);
      Assoc(body[..n], "'", body[n + 1..]);
    } else if s[0] == '"' {
      PrintParsedPieces(body);
      var (ps, rest) := ParsePieces(body).value;
      Assoc("\"", PrintPieces(ps) + "\"", rest);
      Assoc(PrintPieces(ps), "\"", rest);
    } else {
      assert s[..BareLength(s)] + s[BareLength(s)..] == s;
    }
  }

  // Printing a cut piece and what follows it restores the text.
  lemma PrintCut(s: string, arrayed: bool)
    ensures var c := CutPart(s, arrayed);
      && (c.Last? ==> PrintPart(c.part, Closer(arrayed) + c.trailing) == s)
      && (c.More? ==> PrintPart(c.part, "." + c.rest) == s)
  {
    if ParseKey(DropSpace(s)).Ok? {
      PrintParsedKey(DropSpace(s));
      var (key, rest) := ParseKey(DropSpace(s)).value;
      CutAfterText(Part(TakeSpace(s), key, TakeSpace(rest)), DropSpace(rest), arrayed);
    }
  }

  lemma CutAfterText(part: Part, next: string, arrayed: bool)
    ensures var c := CutAfter(part, next, arrayed);
      && (c.Last? ==> Closer(arrayed) + c.trailing == next)
      && (c.More? ==> "." + c.rest == next)
  {
  }

  lemma {:induction false} PrintParsedParts(s: string, arrayed: bool)
    requires ParseParts(s, arrayed).Ok?
    ensures var (ps, trailing) := ParseParts(s, arrayed).value; PrintParts(ps, arrayed, trailing) == s
    decreases |s|
  {
    PrintCut(s, arrayed);
    var c := CutPart(s, arrayed);
    if c.More? {
      PrintParsedParts(c.rest, arrayed);
      var (parts, trailing) := ParseParts(c.rest, arrayed).value;
      PartsNonempty(c.rest, arrayed);
      assert ([c.part] + parts)[1..] == parts;
    }
  }

  lemma PartsNonempty(s: string, arrayed: bool)
    requires ParseParts(s, arrayed).Ok?
    ensures ParseParts(s, arrayed).value.0 != []
  {
  }

  // Every accepted line is a spelling of what it parses to.
  lemma PrintParsed(line: string)
    requires ParseHeader(line).Ok?
    ensures ValidHeader(ParseHeader(line).value) && Print(ParseHeader(line).value) == line
  {
    hide ParseParts, PrintParts, ValidParts;
    var s := DropSpace(line);
    var arrayed := StartsWith(s, "[[");
    var open := if arrayed then "[[" else "[";
    assert s == open + s[|open|..];
    PrintParsedParts(s[|open|..], arrayed);
    ParsedPartsValid(s[|open|..], arrayed);
  }

  // The accepted lines with a given meaning are exactly the spellings of that meaning.
  lemma AcceptedIffSpelled(line: string, arrayed: bool, segments: seq<string>)
    ensures HeaderSegments(line) == Ok((arrayed, segments)) <==>
            exists h: Header :: ValidHeader(h) && Print(h) == line && h.arrayed == arrayed
              && Segments(h.parts) == segments
  {
    if HeaderSegments(line) == Ok((arrayed, segments)) {
      PrintParsed(line);
    }
    forall h: Header | ValidHeader(h) && Print(h) == line && h.arrayed == arrayed && Segments(h.parts) == segments
      ensures HeaderSegments(line) == Ok((arrayed, segments))
    {
      ParsePrinted(h);
    }
  }

  // ---------------------------------------------------------------- the source's index loops

  predicate LineBreak(c: char) {
    c == '\r' || c == '\n'
  }

  // str.rstrip("\r\n")
  function StripBreaks(s: string): (r: string)
    ensures r <= s
    ensures r != "" ==> !LineBreak(r[|r| - 1])
    ensures (s != "" ==> !LineBreak(s[|s| - 1])) ==> r == s
  {
    if s != "" && LineBreak(s[|s| - 1]) then StripBreaks(s[..|s| - 1]) else s
  }

  // The meaning of a raw header line.
  function RawHeaderSegments(raw: Bytes): Result<(bool, seq<string>), HeaderError> {
    match Utf8.Decode(raw)
    case None => Err(NonUtf8)
    case Some(text) => HeaderSegments(StripBreaks(text))
  }

  // Of text that ends in no line break, the bytes mean what the text does.
  lemma RawOf(text: string)
    requires text != "" && !LineBreak(text[|text| - 1])
    ensures RawHeaderSegments(Utf8.Encode(text)) == HeaderSegments(text)
  {
    hide HeaderSegments;
    Utf8.DecodeEncode(text);
  }

  // What is still to come once `done` has been collected.
  function Outcome(s: string, arrayed: bool, done: seq<string>): Result<(bool, seq<string>), HeaderError> {
    match ParseParts(s, arrayed)
    case Err(e) => Err(e)
    case Ok((ps, _)) => Ok((arrayed, done + Segments(ps)))
  }

  // The text of a basic-quoted key and the rest of the line after it.
  function QuotedText(s: string, done: string): Result<(string, string), HeaderError> {
    match ParsePieces(s)
    case Err(e) => Err(e)
    case Ok((ps, rest)) => Ok((done + PiecesValue(ps), rest))
  }

  lemma QuotedTextRaw(s: string, done: string)
    requires s != "" && s[0] != '"' && s[0] != '\\'
    ensures QuotedText(s, done) ==
      if s[0] as int < 0x20 then Err(ControlCharacter) else QuotedText(s[1..], done + [s[0]])
  {
    if s[0] as int >= 0x20 && ParsePieces(s[1..]).Ok? {
      var (ps, rest) := ParsePieces(s[1..]).value;
      assert ([Raw(s[0])] + ps)[1..] == ps;
      assert done + ([s[0]] + PiecesValue(ps)) == done + [s[0]] + PiecesValue(ps);
    }
  }

  lemma QuotedTextEscape(s: string, done: string)
    requires s != "" && s[0] == '\\'
    ensures QuotedText(s, done) == match ParseEscape(s[1..])
      case Err(e) => Err(e)
      case Ok((p, n)) => QuotedText(s[1 + n..], done + [PieceValue(p)])
  {
    if ParseEscape(s[1..]).Ok? {
      var (p, n) := ParseEscape(s[1..]).value;
      if ParsePieces(s[1 + n..]).Ok? {
        var (ps, rest) := ParsePieces(s[1 + n..]).value;
        assert ([p] + ps)[1..] == ps;
        assert done + ([PieceValue(p)] + PiecesValue(ps)) == done + [PieceValue(p)] + PiecesValue(ps);
      }
    }
  }

  lemma {:induction false} PiecesValueEmpty(ps: seq<Piece>)
    ensures PiecesValue(ps) == "" <==> ps == []
  {
  }

  method SkipSpace(line: string, from: nat) returns (position: nat)
    requires from <= |line|
    ensures from <= position <= |line|
    ensures line[position..] == DropSpace(line[from..])
  {
    position := from;
    while position < |line| && IsSpace(line[position])
      invariant from <= position <= |line|
      invariant DropSpace(line[from..]) == DropSpace(line[position..])
    {
      assert line[position..][1..] == line[position + 1..];
      position := position + 1;
    }
  }

  // The escape whose backslash is just before `index`: its character and where it ends.
  method ReadEscape(line: string, index: nat) returns (r: Result<(char, nat), HeaderError>)
    requires index <= |line|
    ensures match ParseEscape(line[index..])
      case Err(e) => r == Err(e)
      case Ok((p, n)) => r == Ok((PieceValue(p), index + n))
  {
    if index >= |line| {
      return Err(InvalidEscape);
    }
    var escape := line[index];
    if LetterValue(escape).Some? {
      return Ok((LetterValue(escape).value, index + 1));
    }
    if escape != 'u' && escape != 'U' {
      return Err(InvalidEscape);
    }
    var width := DigitCount(escape);
    if |line| < index + 1 + width {
      return Err(InvalidUnicode);
    }
    var digits := line[index + 1..index + 1 + width];
    SliceOfSlice(line, index, 1, 1 + width);
    if exists c :: c in digits && !HexDigit(c) {
      return Err(InvalidUnicode);
    }
    var codepoint := CodePoint(digits);
    if codepoint > 0x10_FFFF || 0xD800 <= codepoint <= 0xDFFF {
      return Err(InvalidUnicode);
    }
    return Ok((codepoint as char, index + 1 + width));
  }

  // A double-quoted key whose opening quote is just before `start`.
  method ReadQuotedKey(line: string, start: nat) returns (r: Result<(string, nat), HeaderError>)
    requires start <= |line|
    ensures match QuotedText(line[start..], "")
      case Err(e) => r == Err(e)
      case Ok((text, rest)) => r.Ok? && r.value.0 == text && r.value.1 <= |line| && line[r.value.1..] == rest
  {
    var index := start;
    var decoded := "";
    while index < |line|
      invariant start <= index <= |line|
      invariant QuotedText(line[start..], "") == QuotedText(line[index..], decoded)
    {
      var character := line[index];
      assert line[index..][1..] == line[index + 1..];
      if character == '"' {
        assert decoded + "" == decoded;
        return Ok((decoded, index + 1));
      }
      if character != '\\' {
        QuotedTextRaw(line[index..], decoded);
        if character as int < 0x20 {
          return Err(ControlCharacter);
        }
        decoded := decoded + [character];
        index := index + 1;
        continue;
      }
      QuotedTextEscape(line[index..], decoded);
      var escape := ReadEscape(line, index + 1);
      if escape.Err? {
        return Err(escape.error);
      }
      assert line[index..][1 + (escape.value.1 - index - 1)..] == line[escape.value.1..];
      decoded := decoded + [escape.value.0];
      index := escape.value.1;
    }
    return Err(Unterminated);
  }

  // A key segment that was read, and where it ends.
  ghost predicate ReadAs(line: string, from: nat, r: Result<(string, nat), HeaderError>)
    requires from <= |line|
  {
    match ParseKey(line[from..])
    case Err(e) => r == Err(e)
    case Ok((k, rest)) => r.Ok? && r.value.0 == Segment(k) && r.value.1 <= |line| && line[r.value.1..] == rest
  }

  method ReadLiteralKey(line: string, from: nat) returns (r: Result<(string, nat), HeaderError>)
    requires from < |line| && line[from] == '\''
    ensures ReadAs(line, from, r)
  {
    ghost var body := line[from..][1..];
    assert body == line[from + 1..];
    var end := from + 1 + TickAt(line[from + 1..]);
    if end >= |line| {
      return Err(InvalidLiteral);
    }
    var segment := line[from + 1..end];
    assert body[..end - from - 1] == segment && body[end - from..] == line[end + 1..];
    if segment == "" {
      return Err(EmptySegment);
    }
    return Ok((segment, end + 1));
  }

  method ReadBasicKey(line: string, from: nat) returns (r: Result<(string, nat), HeaderError>)
    requires from < |line| && line[from] == '"'
    ensures ReadAs(line, from, r)
  {
    assert line[from..][1..] == line[from + 1..];
    r := ReadQuotedKey(line, from + 1);
    if r.Ok? {
      ghost var ps := ParsePieces(line[from + 1..]).value.0;
      assert "" + PiecesValue(ps) == PiecesValue(ps);
      PiecesValueEmpty(ps);
      if r.value.0 == "" {
        return Err(EmptySegment);
      }
    }
  }

  method ReadBareKey(line: string, from: nat) returns (r: Result<(string, nat), HeaderError>)
    requires from < |line| && line[from] != '"' && line[from] != '\''
    ensures ReadAs(line, from, r)
  {
    ghost var s := line[from..];
    var index := from;
    while index < |line| && !BareStop(line[index])
      invariant from <= index <= |line|
      invariant BareLength(s) == index - from + BareLength(line[index..])
    {
      assert line[index..][1..] == line[index + 1..];
      index := index + 1;
    }
    var segment := line[from..index];
    assert s[..index - from] == segment && s[index - from..] == line[index..];
    if segment == "" || exists c :: c in segment && !BareChar(c) {
      return Err(InvalidBareKey);
    }
    return Ok((segment, index));
  }

  method ReadKey(line: string, index: nat) returns (r: Result<(string, nat), HeaderError>)
    requires index <= |line|
    ensures ReadAs(line, index, r)
  {
    if index >= |line| {
      return Err(EmptySegment);
    }
    if line[index] == '\'' {
      r := ReadLiteralKey(line, index);
    } else if line[index] == '"' {
      r := ReadBasicKey(line, index);
    } else {
      r := ReadBareKey(line, index);
    }
  }

  // What one turn of the header loop found: the segment, and where the next one starts.
  ghost predicate TurnAs(line: string, c: Cut, segment: string, next: Result<Option<nat>, HeaderError>) {
    match c
    case Bad(e) => next == Err(e)
    case Last(part, _) => next == Ok(None) && segment == Segment(part.key)
    case More(part, rest) =>
      && next.Ok? && next.value.Some? && segment == Segment(part.key)
      && next.value.value <= |line| && line[next.value.value..] == rest
  }

  // After a segment: the closer and a comment, or a dot.
  method ReadAfter(line: string, index: nat, arrayed: bool, ghost part: Part)
    returns (next: Result<Option<nat>, HeaderError>)
    requires index <= |line|
    ensures TurnAs(line, CutAfter(part, line[index..], arrayed), Segment(part.key), next)
  {
    if StartsWith(line[index..], Closer(arrayed)) {
      var end := index + |Closer(arrayed)|;
      assert line[index..][|Closer(arrayed)|..] == line[end..];
      var trailing := DropSpace(line[end..]);
      if trailing != "" && trailing[0] != '#' {
        return Err(InvalidHeader);
      }
      return Ok(None);
    }
    if index >= |line| || line[index] != '.' {
      return Err(InvalidDotted);
    }
    assert line[index..][1..] == line[index + 1..];
    return Ok(Some(index + 1));
  }

  // One turn of the header loop.
  method ReadPart(line: string, start: nat, arrayed: bool)
    returns (segment: string, next: Result<Option<nat>, HeaderError>)
    requires start <= |line|
    ensures TurnAs(line, CutPart(line[start..], arrayed), segment, next)
  {
    ghost var s := line[start..];
    var index := SkipSpace(line, start);
    var key := ReadKey(line, index);
    if key.Err? {
      return "", Err(key.error);
    }
    segment := key.value.0;
    index := SkipSpace(line, key.value.1);
    ghost var (k, rest) := ParseKey(DropSpace(s)).value;
    next := ReadAfter(line, index, arrayed, Part(TakeSpace(s), k, TakeSpace(rest)));
  }

  method ParseTomlHeaderSegments(rawHeader: Bytes) returns (r: Result<(bool, seq<string>), HeaderError>)
    ensures r == RawHeaderSegments(rawHeader)
  {
    hide Utf8.Decode, StripBreaks, ParseParts, HeaderSegments, Outcome, CutPart, TakeSpace, DropSpace, Segment;
    var text := Utf8.Decode(rawHeader);
    if text.None? {
      return Err(NonUtf8);
    }
    var line := StripBreaks(text.value);
    var index := SkipSpace(line, 0);
    assert line[0..] == line;
    NoBracket(line);
    var arrayed := StartsWith(line[index..], "[[");
    if !StartsWith(line[index..], "[") {
      return Err(InvalidHeader);
    }
    var opener := if arrayed then 2 else 1;
    assert line[index..][opener..] == line[index + opener..];
    StartOutcome(line);
    index := index + opener;
    var segments: seq<string> := [];
    while true
      invariant index <= |line|
      invariant HeaderSegments(line) == Outcome(line[index..], arrayed, segments)
      decreases |line| - index
    {
      OneKey(line[index..], arrayed, segments);
      var segment, next := ReadPart(line, index, arrayed);
      if next.Err? {
        return Err(next.error);
      }
      segments := segments + [segment];
      if next.value.None? {
        return Ok((arrayed, segments));
      }
      index := next.value.value;
    }
  }

  lemma NoBracket(line: string)
    ensures !StartsWith(DropSpace(line), "[") ==> HeaderSegments(line) == Err(InvalidHeader)
  {
  }

  // Before any key, the outcome of the text after the brackets is the outcome of the line.
  lemma StartOutcome(line: string)
    requires StartsWith(DropSpace(line), "[")
    ensures var arrayed := StartsWith(DropSpace(line), "[[");
      HeaderSegments(line) == Outcome(DropSpace(line)[if arrayed then 2 else 1..], arrayed, [])
  {
    assert forall ps: seq<Part> :: [] + Segments(ps) == Segments(ps);
  }

  // Reading one key moves the outcome past it.
  lemma OneKey(s: string, arrayed: bool, done: seq<string>)
    ensures Outcome(s, arrayed, done) == match CutPart(s, arrayed)
      case Bad(e) => Err(e)
      case Last(part, _) => Ok((arrayed, done + [Segment(part.key)]))
      case More(part, rest) => Outcome(rest, arrayed, done + [Segment(part.key)])
  {
    match CutPart(s, arrayed)
    case Bad(_) =>
    case Last(part, _) =>
      assert [part][1..] == [];
      assert Segments([part]) == [Segment(part.key)];
    case More(part, rest) =>
      if ParseParts(rest, arrayed).Ok? {
        var parts := ParseParts(rest, arrayed).value.0;
        assert ([part] + parts)[1..] == parts;
        assert done + ([Segment(part.key)] + Segments(parts)) == done + [Segment(part.key)] + Segments(parts);
      }
  }
}
