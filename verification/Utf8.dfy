// Strict UTF-8, as bytes.decode("utf-8") applies it, with its inverse.
module Utf8 {
  import opened Basics

  predicate Continuation(c: char) {
    0x80 <= c as int < 0xC0
  }

  function Low(c: char): int {
    c as int % 0x40
  }

  predicate Scalar(code: int) {
    0 <= code < 0xD800 || 0xE000 <= code < 0x11_0000
  }

  // The first character of the text and how many bytes it took.
  function DecodeOne(s: Bytes): (r: Option<(char, nat)>)
    requires s != ""
    ensures r.Some? ==> 1 <= r.value.1 <= |s|
  {
    var lead := s[0] as int;
    if lead < 0x80 then Some((s[0], 1))
    else if 0xC2 <= lead < 0xE0 && |s| >= 2 && Continuation(s[1]) then
      Some((((lead - 0xC0) * 0x40 + Low(s[1])) as char, 2))
    else if 0xE0 <= lead < 0xF0 && |s| >= 3 && Continuation(s[1]) && Continuation(s[2]) then
      var code := (lead - 0xE0) * 0x1000 + Low(s[1]) * 0x40 + Low(s[2]);
      if code >= 0x800 && Scalar(code) then Some((code as char, 3)) else None
    else if 0xF0 <= lead < 0xF5 && |s| >= 4 && Continuation(s[1]) && Continuation(s[2]) && Continuation(s[3]) then
      var code := (lead - 0xF0) * 0x4_0000 + Low(s[1]) * 0x1000 + Low(s[2]) * 0x40 + Low(s[3]);
      if code >= 0x1_0000 && Scalar(code) then Some((code as char, 4)) else None
    else None
  }

  function Decode(s: Bytes): Option<string>
    decreases |s|
  {
    if s == "" then Some("") else
    match DecodeOne(s)
    case None => None
    case Some((c, n)) =>
      match Decode(s[n..])
      case None => None
      case Some(rest) => Some([c] + rest)
  }

  function EncodeOne(c: char): (r: Bytes)
    ensures 1 <= |r| <= 4
  {
    var code := c as int;
    if code < 0x80 then [c]
    else if code < 0x800 then [(0xC0 + code / 0x40) as char, (0x80 + code % 0x40) as char]
    else if code < 0x1_0000 then
      [(0xE0 + code / 0x1000) as char, (0x80 + code / 0x40 % 0x40) as char, (0x80 + code % 0x40) as char]
    else
      [(0xF0 + code / 0x4_0000) as char, (0x80 + code / 0x1000 % 0x40) as char,
       (0x80 + code / 0x40 % 0x40) as char, (0x80 + code % 0x40) as char]
  }

  function Encode(t: string): Bytes {
    if t == "" then "" else EncodeOne(t[0]) + Encode(t[1..])
  }

  lemma DecodeTwo(c: char, s: Bytes)
    requires 0x80 <= c as int < 0x800 && EncodeOne(c) <= s
    ensures DecodeOne(s) == Some((c, 2))
  {
    var code := c as int;
    assert s[0] == EncodeOne(c)[0] && s[1] == EncodeOne(c)[1];
    assert Low(s[1]) == code % 0x40;
  }

  lemma DecodeThree(c: char, s: Bytes)
    requires 0x800 <= c as int < 0x1_0000 && EncodeOne(c) <= s
    ensures DecodeOne(s) == Some((c, 3))
  {
    var code := c as int;
    assert s[0] == EncodeOne(c)[0] && s[1] == EncodeOne(c)[1] && s[2] == EncodeOne(c)[2];
    assert code / 0x40 / 0x40 == code / 0x1000;
    assert Low(s[1]) == code / 0x40 % 0x40 && Low(s[2]) == code % 0x40;
  }

  lemma DecodeFour(c: char, s: Bytes)
    requires 0x1_0000 <= c as int && EncodeOne(c) <= s
    ensures DecodeOne(s) == Some((c, 4))
  {
    var code := c as int;
    assert s[0] == EncodeOne(c)[0] && s[1] == EncodeOne(c)[1] && s[2] == EncodeOne(c)[2] && s[3] == EncodeOne(c)[3];
    assert code / 0x40 / 0x40 == code / 0x1000 && code / 0x1000 / 0x40 == code / 0x4_0000;
    assert Low(s[1]) == code / 0x1000 % 0x40 && Low(s[2]) == code / 0x40 % 0x40 && Low(s[3]) == code % 0x40;
  }

  lemma DecodeOneOfEncoded(c: char, rest: Bytes)
    ensures DecodeOne(EncodeOne(c) + rest) == Some((c, |EncodeOne(c)|))
  {
    var s := EncodeOne(c) + rest;
    var code := c as int;
    if code < 0x80 {
      assert s[0] == c;
    } else if code < 0x800 {
      DecodeTwo(c, s);
    } else if code < 0x1_0000 {
      DecodeThree(c, s);
    } else {
      DecodeFour(c, s);
    }
  }

  lemma {:induction false} DecodeEncode(t: string)
    ensures Decode(Encode(t)) == Some(t)
  {
    if t != "" {
      DecodeEncode(t[1..]);
      DecodeOneOfEncoded(t[0], Encode(t[1..]));
      assert Encode(t)[|EncodeOne(t[0])|..] == Encode(t[1..]);
      assert [t[0]] + t[1..] == t;
    }
  }

  lemma EncodeTwoOf(s: Bytes)
    requires s != "" && DecodeOne(s).Some? && DecodeOne(s).value.1 == 2
    ensures EncodeOne(DecodeOne(s).value.0) == s[..2]
  {
    Digits(s[0] as int - 0xC0, Low(s[1]));
  }

  lemma EncodeThreeOf(s: Bytes)
    requires s != "" && DecodeOne(s).Some? && DecodeOne(s).value.1 == 3
    ensures EncodeOne(DecodeOne(s).value.0) == s[..3]
  {
    var high := s[0] as int - 0xE0;
    var code := DecodeOne(s).value.0 as int;
    SixBits(code, (high * 0x40) + Low(s[1]), Low(s[2]));
    SixBits(code / 0x40, high, Low(s[1]));
    assert code / 0x40 / 0x40 == code / 0x1000;
  }

  lemma EncodeFourOf(s: Bytes)
    requires s != "" && DecodeOne(s).Some? && DecodeOne(s).value.1 == 4
    ensures EncodeOne(DecodeOne(s).value.0) == s[..4]
  {
    var high := s[0] as int - 0xF0;
    var code := DecodeOne(s).value.0 as int;
    SixBits(code, ((high * 0x40) + Low(s[1])) * 0x40 + Low(s[2]), Low(s[3]));
    SixBits(code / 0x40, (high * 0x40) + Low(s[1]), Low(s[2]));
    SixBits(code / 0x40 / 0x40, high, Low(s[1]));
    assert code / 0x40 / 0x40 == code / 0x1000 && code / 0x1000 / 0x40 == code / 0x4_0000;
  }

  lemma SixBits(code: int, high: int, low: int)
    requires high >= 0 && 0 <= low < 0x40 && code == high * 0x40 + low
    ensures code / 0x40 == high && code % 0x40 == low
  {
    Digits(high, low);
  }

  lemma EncodeOneOfDecoded(s: Bytes)
    requires s != "" && DecodeOne(s).Some?
    ensures var (c, n) := DecodeOne(s).value; EncodeOne(c) == s[..n]
  {
    var n := DecodeOne(s).value.1;
    if n == 2 {
      EncodeTwoOf(s);
    } else if n == 3 {
      EncodeThreeOf(s);
    } else if n == 4 {
      EncodeFourOf(s);
    }
  }

  lemma Digits(high: int, low: int)
    requires high >= 0 && 0 <= low < 0x40
    ensures (high * 0x40 + low) / 0x40 == high && (high * 0x40 + low) % 0x40 == low
  {
  }

  // Decoding is strict: only the bytes of a text decode, and each text has one encoding.
  lemma {:induction false} EncodeDecode(s: Bytes, t: string)
    ensures Decode(s) == Some(t) <==> Encode(t) == s
    decreases |s|
  {
    if Decode(s) == Some(t) {
      DecodedIsEncoded(s);
    }
    if Encode(t) == s {
      DecodeEncode(t);
    }
  }

  lemma {:induction false} DecodedIsEncoded(s: Bytes)
    requires Decode(s).Some?
    ensures Encode(Decode(s).value) == s
    decreases |s|
  {
    hide DecodeOne, EncodeOne;
    if s != "" {
      var (c, n) := DecodeOne(s).value;
      EncodeOneOfDecoded(s);
      DecodedIsEncoded(s[n..]);
      EncodedCons(c, Decode(s[n..]).value);
      assert s == s[..n] + s[n..];
    }
  }

  lemma EncodedCons(c: char, rest: string)
    ensures Encode([c] + rest) == EncodeOne(c) + Encode(rest)
  {
    assert ([c] + rest)[1..] == rest;
  }

  // The bytes of a character: how many by its size, and its number in groups of six bits.
  lemma EncodedShape(c: char)
    ensures var b, code := EncodeOne(c), c as int;
      && (code < 0x80 <==> |b| == 1) && (0x80 <= code < 0x800 <==> |b| == 2)
      && (0x800 <= code < 0x1_0000 <==> |b| == 3) && (0x1_0000 <= code <==> |b| == 4)
      && (forall i :: 0 < i < |b| ==> Continuation(b[i]))
      && (|b| == 1 ==> b == [c])
      && (|b| == 2 ==> 0xC2 <= b[0] as int < 0xE0 && code == (b[0] as int - 0xC0) * 0x40 + (b[1] as int - 0x80))
      && (|b| == 3 ==>
            && 0xE0 <= b[0] as int < 0xF0
            && code == ((b[0] as int - 0xE0) * 0x40 + (b[1] as int - 0x80)) * 0x40 + (b[2] as int - 0x80))
      && (|b| == 4 ==>
            && 0xF0 <= b[0] as int < 0xF5
            && code == (((b[0] as int - 0xF0) * 0x40 + (b[1] as int - 0x80)) * 0x40 + (b[2] as int - 0x80)) * 0x40
                       + (b[3] as int - 0x80))
  {
    var code := c as int;
    assert code / 0x40 / 0x40 == code / 0x1000 && code / 0x1000 / 0x40 == code / 0x4_0000;
  }

  ghost predicate Ascii(s: string) {
    forall i :: 0 <= i < |s| ==> s[i] as int < 0x80
  }

  // ASCII bytes stand for themselves, whatever follows.
  lemma {:induction false} DecodeAsciiPrefix(a: Bytes, rest: Bytes)
    requires Ascii(a)
    ensures Decode(a + rest) == match Decode(rest) case None => None case Some(t) => Some(a + t)
  {
    if a == "" {
      assert a + rest == rest;
      if Decode(rest).Some? {
        assert a + Decode(rest).value == Decode(rest).value;
      }
    } else {
      DecodeAsciiPrefix(a[1..], rest);
      assert (a + rest)[1..] == a[1..] + rest;
      if Decode(rest).Some? {
        assert [a[0]] + (a[1..] + Decode(rest).value) == a + Decode(rest).value;
      }
    }
  }
}
