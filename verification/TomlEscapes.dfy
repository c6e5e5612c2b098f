// What an escaped key stands for (release_tools/installer.py, 664-693).
//
// Keys are written from their characters with a digit printer of their own; the parser must give
// the characters back.
module TomlEscapes {
  import opened Basics
  import opened TomlHeader
  import Utf8

  const LOWER_DIGITS := "0123456789abcdef"
  const UPPER_DIGITS := "0123456789ABCDEF"

  // A number in so many hexadecimal digits.
  function HexDigits(n: nat, width: nat, upper: bool): (r: string)
    ensures |r| == width
  {
    if width == 0 then ""
    else HexDigits(n / 16, width - 1, upper) + [(if upper then UPPER_DIGITS else LOWER_DIGITS)[n % 16]]
  }

  function SixteenTo(width: nat): nat {
    if width == 0 then 1 else 16 * SixteenTo(width - 1)
  }

  lemma DigitValue(n: nat, upper: bool)
    requires n < 16
    ensures var c := (if upper then UPPER_DIGITS else LOWER_DIGITS)[n]; HexDigit(c) && HexValue(c) == n
  {
    assert UPPER_DIGITS[10] == 'A' && UPPER_DIGITS[15] == 'F' && LOWER_DIGITS[10] == 'a' && LOWER_DIGITS[15] == 'f';
  }

  lemma {:induction false} DigitsAreRead(n: nat, width: nat, upper: bool)
    requires n < SixteenTo(width)
    ensures CodePoint(HexDigits(n, width, upper)) == n
    ensures forall c :: c in HexDigits(n, width, upper) ==> HexDigit(c)
  {
    if width > 0 {
      var front := HexDigits(n / 16, width - 1, upper);
      var all := HexDigits(n, width, upper);
      DigitsAreRead(n / 16, width - 1, upper);
      DigitValue(n % 16, upper);
      assert all[..|all| - 1] == front;
    }
  }

  // Four digits after `u`, eight after `U`.
  function Escape(c: char, wide: bool, upper: bool): Piece {
    Numeric(if wide then 'U' else 'u', HexDigits(c as int, if wide then 8 else 4, upper))
  }

  // Every character can be escaped, in either case of digits, and is read back.
  lemma EscapeIsRead(c: char, wide: bool, upper: bool)
    requires wide || c as int < 0x1_0000
    ensures ValidPiece(Escape(c, wide, upper)) && PieceValue(Escape(c, wide, upper)) == c
  {
    SixteenToEight();
    DigitsAreRead(c as int, if wide then 8 else 4, upper);
  }

  // TOML's letter escapes, by the number of the control character or the character itself.
  const LETTER_CODES: map<char, int> :=
    map['b' := 8, 't' := 9, 'n' := 10, 'f' := 12, 'r' := 13, '"' := 0x22, '\\' := 0x5C]

  lemma LetterIsRead(l: char)
    ensures ValidPiece(Letter(l)) <==> l in LETTER_CODES
    ensures l in LETTER_CODES ==> PieceValue(Letter(l)) as int == LETTER_CODES[l]
  {
  }

  // ---------------------------------------------------------------- whole headers

  function EscapeAll(t: string, upper: bool): seq<Piece> {
    if t == "" then [] else [Escape(t[0], true, upper)] + EscapeAll(t[1..], upper)
  }

  function EscapedKeys(segments: seq<string>, upper: bool): seq<Part> {
    if segments == [] then []
    else [Part("", BasicQuoted(EscapeAll(segments[0], upper)), "")] + EscapedKeys(segments[1..], upper)
  }

  lemma {:induction false} EscapedText(t: string, upper: bool)
    ensures forall p :: p in EscapeAll(t, upper) ==> ValidPiece(p)
    ensures PiecesValue(EscapeAll(t, upper)) == t && (t != "" ==> EscapeAll(t, upper) != [])
  {
    if t != "" {
      EscapeIsRead(t[0], true, upper);
      EscapedText(t[1..], upper);
      Uncons(t);
      hide Escape, ValidPiece, PieceValue;
      assert EscapeAll(t, upper)[1..] == EscapeAll(t[1..], upper);
    }
  }

  lemma {:induction false} EscapedParts(segments: seq<string>, upper: bool)
    requires forall s :: s in segments ==> s != ""
    ensures forall p :: p in EscapedKeys(segments, upper) ==> ValidPart(p)
    ensures Segments(EscapedKeys(segments, upper)) == segments
    ensures segments != [] ==> EscapedKeys(segments, upper) != []
  {
    if segments != [] {
      assert forall s :: s in segments[1..] ==> s in segments;
      var ps := EscapedKeys(segments, upper);
      assert ps[1..] == EscapedKeys(segments[1..], upper);
      hide EscapeAll, ValidPart, Segment;
      assert segments[0] in segments;
      EscapedPart(segments[0], upper);
      EscapedParts(segments[1..], upper);
      assert segments == [segments[0]] + segments[1..];
    }
  }

  lemma EscapedPart(segment: string, upper: bool)
    requires segment != ""
    ensures var p := Part("", BasicQuoted(EscapeAll(segment, upper)), "");
      ValidPart(p) && Segment(p.key) == segment
  {
    hide EscapeAll, PiecesValue, ValidPiece;
    EscapedText(segment, upper);
  }

  // Any list of names has a spelling in which every character is escaped, and the parser gives the
  // names back: no spelling of a registration hides it.
  lemma EscapedHeaderIsRead(arrayed: bool, segments: seq<string>, upper: bool)
    requires segments != [] && forall s :: s in segments ==> s != ""
    ensures var h := Header("", arrayed, EscapedKeys(segments, upper), "");
      && ValidHeader(h) && HeaderSegments(Print(h)) == Ok((arrayed, segments))
      && RawHeaderSegments(Utf8.Encode(Print(h))) == Ok((arrayed, segments))
  {
    var ps := EscapedKeys(segments, upper);
    EscapedParts(segments, upper);
    hide EscapedKeys;
    HeaderIsRead(arrayed, ps);
  }

  lemma HeaderIsRead(arrayed: bool, ps: seq<Part>)
    requires ps != [] && forall p :: p in ps ==> ValidPart(p)
    ensures var h := Header("", arrayed, ps, "");
      && ValidHeader(h) && HeaderSegments(Print(h)) == Ok((arrayed, Segments(ps)))
      && RawHeaderSegments(Utf8.Encode(Print(h))) == Ok((arrayed, Segments(ps)))
  {
    hide ValidPart, RawHeaderSegments, HeaderSegments, Print;
    var h := Header("", arrayed, ps, "");
    HeaderEnds(arrayed, ps);
    AcceptedIffSpelled(Print(h), arrayed, Segments(ps));
    RawOf(Print(h));
  }

  lemma HeaderEnds(arrayed: bool, ps: seq<Part>)
    requires ps != []
    ensures var t := Print(Header("", arrayed, ps, "")); t != "" && t[|t| - 1] == ']'
  {
    PrintEnds(ps, arrayed);
    hide PrintParts;
  }

  lemma {:induction false} PrintEnds(ps: seq<Part>, arrayed: bool)
    requires ps != []
    ensures var t := PrintParts(ps, arrayed, ""); t != "" && t[|t| - 1] == ']'
  {
    if |ps| > 1 {
      PrintEnds(ps[1..], arrayed);
    }
  }

  // ---------------------------------------------------------------- what any spelling stands for

  function Fold(digits: string): (r: string)
    ensures |r| == |digits|
  {
    seq(|digits|, i requires 0 <= i < |digits| =>
      if 'A' <= digits[i] <= 'F' then LOWER_DIGITS[10 + (digits[i] as int - 'A' as int)] else digits[i])
  }

  lemma FoldedDigit(c: char)
    requires HexDigit(c)
    ensures Fold([c]) == [LOWER_DIGITS[HexValue(c)]] && HexValue(c) < 16
  {
    assert LOWER_DIGITS[..10] == "0123456789" && LOWER_DIGITS[10..] == "abcdef";
    if c <= '9' {
      assert LOWER_DIGITS[HexValue(c)] == LOWER_DIGITS[..10][HexValue(c)];
    } else if 'a' <= c {
      assert LOWER_DIGITS[HexValue(c)] == LOWER_DIGITS[10..][HexValue(c) - 10];
    }
  }

  lemma {:induction false} FoldIsPrinted(digits: string)
    requires forall c :: c in digits ==> HexDigit(c)
    ensures CodePoint(digits) < SixteenTo(|digits|)
    ensures HexDigits(CodePoint(digits), |digits|, false) == Fold(digits)
  {
    if digits != "" {
      var front, c := digits[..|digits| - 1], digits[|digits| - 1];
      assert c in digits && forall x :: x in front ==> x in digits;
      FoldIsPrinted(front);
      FoldedDigit(c);
      FoldEnds(digits);
      Sixteens(CodePoint(front), HexValue(c));
      hide Fold, HexDigit, HexValue;
      assert CodePoint(digits) == CodePoint(front) * 16 + HexValue(c);
    }
  }

  lemma Sixteens(n: nat, d: nat)
    requires d < 16
    ensures (n * 16 + d) / 16 == n && (n * 16 + d) % 16 == d
  {
  }

  lemma FoldEnds(digits: string)
    requires digits != ""
    ensures Fold(digits) == Fold(digits[..|digits| - 1]) + Fold([digits[|digits| - 1]])
  {
  }

  // The character itself, its letter escape, or its number in either case of digits.
  predicate SpellsChar(p: Piece, c: char) {
    match p
    case Raw(x) => x == c
    case Letter(l) => l in LETTER_CODES && LETTER_CODES[l] == c as int
    case Numeric(_, digits) => c as int < SixteenTo(|digits|) && Fold(digits) == HexDigits(c as int, |digits|, false)
  }

  predicate Spells(k: Spelling, segment: string) {
    match k
    case Bare(t) => t == segment
    case LiteralQuoted(t) => t == segment
    case BasicQuoted(ps) => |ps| == |segment| && forall i :: 0 <= i < |ps| ==> SpellsChar(ps[i], segment[i])
  }

  predicate SpellsAll(ps: seq<Part>, segments: seq<string>) {
    |ps| == |segments| && forall i :: 0 <= i < |ps| ==> Spells(ps[i].key, segments[i])
  }

  lemma SixteenToEight()
    ensures SixteenTo(4) == 0x1_0000 && SixteenTo(8) >= 0x11_0000
  {
    assert SixteenTo(2) == 0x100;
    assert SixteenTo(6) == 0x100 * SixteenTo(4);
  }

  lemma CharIff(p: Piece, c: char)
    requires ValidPiece(p)
    ensures PieceValue(p) == c <==> SpellsChar(p, c)
  {
    if p.Letter? {
      LetterIsRead(p.letter);
    } else if p.Numeric? {
      NumberIff(p.digits, c as int);
    }
  }

  lemma NumberIff(digits: string, n: nat)
    requires forall c :: c in digits ==> HexDigit(c)
    ensures CodePoint(digits) == n <==> n < SixteenTo(|digits|) && Fold(digits) == HexDigits(n, |digits|, false)
  {
    hide Fold, HexDigit, CodePoint, HexDigits, SixteenTo;
    FoldIsPrinted(digits);
    if n < SixteenTo(|digits|) {
      DigitsAreRead(n, |digits|, false);
      if Fold(digits) == HexDigits(n, |digits|, false) {
        assert CodePoint(HexDigits(CodePoint(digits), |digits|, false)) == n;
        DigitsAreRead(CodePoint(digits), |digits|, false);
      }
    }
  }

  lemma {:induction false} PiecesIff(ps: seq<Piece>, t: string)
    requires forall p :: p in ps ==> ValidPiece(p)
    ensures PiecesValue(ps) == t <==> Spells(BasicQuoted(ps), t)
  {
    if ps != [] && t != "" {
      assert ps[0] in ps && forall p :: p in ps[1..] ==> p in ps;
      CharIff(ps[0], t[0]);
      PiecesIff(ps[1..], t[1..]);
      hide ValidPiece, PieceValue, SpellsChar;
      Uncons(t);
      assert PiecesValue(ps) == t <==> PieceValue(ps[0]) == t[0] && PiecesValue(ps[1..]) == t[1..];
      assert forall i :: 0 <= i < |ps| - 1 ==> ps[1..][i] == ps[i + 1];
      SpellsUncons(ps, t);
    }
  }

  lemma SpellsUncons(ps: seq<Piece>, t: string)
    requires ps != [] && t != ""
    ensures Spells(BasicQuoted(ps), t) <==> SpellsChar(ps[0], t[0]) && Spells(BasicQuoted(ps[1..]), t[1..])
  {
    hide SpellsChar;
    if SpellsChar(ps[0], t[0]) && Spells(BasicQuoted(ps[1..]), t[1..]) {
      forall i | 0 <= i < |ps| ensures SpellsChar(ps[i], t[i]) {
        if i > 0 {
          assert SpellsChar(ps[1..][i - 1], t[1..][i - 1]);
        }
      }
    }
  }

  lemma SegmentIff(k: Spelling, segment: string)
    requires ValidSpelling(k)
    ensures Segment(k) == segment <==> Spells(k, segment)
  {
    if k.BasicQuoted? {
      PiecesIff(k.pieces, segment);
    }
  }

  lemma {:induction false} SegmentsIff(ps: seq<Part>, segments: seq<string>)
    requires forall p :: p in ps ==> ValidPart(p)
    ensures Segments(ps) == segments <==> SpellsAll(ps, segments)
  {
    hide ValidSpelling, Segment, Spells;
    if ps != [] && segments != [] {
      assert ps[0] in ps && forall p :: p in ps[1..] ==> p in ps;
      SegmentIff(ps[0].key, segments[0]);
      SegmentsIff(ps[1..], segments[1..]);
      assert segments == [segments[0]] + segments[1..];
      if SpellsAll(ps[1..], segments[1..]) && Spells(ps[0].key, segments[0]) {
        forall i | 0 <= i < |ps| ensures |ps| == |segments| && Spells(ps[i].key, segments[i]) {
          if i > 0 {
            assert Spells(ps[1..][i - 1].key, segments[1..][i - 1]);
          }
        }
      }
    }
  }

  // The parser gives this list of names exactly for the headers that spell it, bare, quoted or
  // escaped, segment by segment and character by character.
  lemma ParsedIffSpells(h: Header, segments: seq<string>)
    requires ValidHeader(h)
    ensures HeaderSegments(Print(h)) == Ok((h.arrayed, segments)) <==> SpellsAll(h.parts, segments)
  {
    hide ParseHeader, PrintParts, SpellsAll;
    ParsePrinted(h);
    SegmentsIff(h.parts, segments);
  }
}
