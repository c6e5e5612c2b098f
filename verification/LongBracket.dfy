// The Luau long-bracket quoter (scripts/render_studio_plugin.py, 138-147).
module LongBracket {
  import opened Basics

  const LEVELS: nat := 32

  function Equals(level: nat): string {
    seq(level, i => '=')
  }

  function Opener(level: nat): string {
    "[" + Equals(level) + "["
  }

  function Closer(level: nat): string {
    "]" + Equals(level) + "]"
  }

  ghost predicate Contains(s: string, pat: string) {
    exists i: nat :: OccursAt(s, pat, i)
  }

  // A value no level can quote: every closer occurs in it.
  ghost predicate Unquotable(value: string) {
    forall level :: 0 <= level < LEVELS ==> Contains(value, Closer(level))
  }

  function Literal(level: nat, value: string): string {
    Opener(level) + ("\n" + (value + ("\n" + Closer(level))))
  }

  method Search(s: string, pat: string) returns (r: bool)
    requires pat != ""
    ensures r == Contains(s, pat)
  {
    var i := 0;
    while i < |s|
      invariant forall k: nat :: k < i ==> !OccursAt(s, pat, k)
    {
      if OccursAt(s, pat, i) {
        return true;
      }
      i := i + 1;
    }
    return false;
  }

  // The lowest level whose closer the value does not contain; an error only when there is none.
  method LuauLongString(value: string) returns (r: Option<string>)
    ensures r.None? <==> Unquotable(value)
    ensures r.Some? ==> exists level: nat ::
      && level < LEVELS && r.value == Literal(level, value) && !Contains(value, Closer(level))
      && forall lower: nat :: lower < level ==> Contains(value, Closer(lower))
  {
    for level := 0 to LEVELS
      invariant forall lower: nat :: lower < level ==> Contains(value, Closer(lower))
    {
      var inside := Search(value, Closer(level));
      if !inside {
        return Some(Literal(level, value));
      }
    }
    return None;
  }

  // ---------------------------------------------------------------- reading a long bracket

  // How many '=' the text starts with.
  function CountEquals(s: string): (n: nat)
    ensures n <= |s|
  {
    if s == "" || s[0] != '=' then 0 else 1 + CountEquals(s[1..])
  }

  // The text up to the first occurrence of the closer, and what follows that occurrence.
  function UpTo(s: string, closer: string): Option<(string, string)> {
    if OccursAt(s, closer, 0) && |closer| <= |s| then Some(("", s[|closer|..]))
    else if s == "" then None
    else
      match UpTo(s[1..], closer)
      case None => None
      case Some((text, rest)) => Some(([s[0]] + text, rest))
  }

  // Section 2.1 of the Lua 5.1 Reference Manual: an opening bracket of some level, a first line
  // break that is dropped, then the text up to the first closing bracket of the same level.
  function ReadLong(s: string): Option<(string, string)> {
    if !StartsWith(s, "[") then None
    else
      var level := CountEquals(s[1..]);
      var rest := s[1..][level..];
      if !StartsWith(rest, "[") then None
      else
        var body := rest[1..];
        UpTo(if StartsWith(body, "\n") then body[1..] else body, Closer(level))
  }

  lemma {:induction false} CountEqualsOf(level: nat, rest: string)
    requires rest != "" && rest[0] != '='
    ensures CountEquals(Equals(level) + rest) == level
  {
    if level == 0 {
      assert Equals(0) + rest == rest;
    } else {
      assert (Equals(level) + rest)[1..] == Equals(level - 1) + rest;
      CountEqualsOf(level - 1, rest);
    }
  }

  lemma OccursInTail(s: string, pat: string, i: nat)
    requires s != ""
    ensures OccursAt(s[1..], pat, i) ==> OccursAt(s, pat, i + 1)
  {
    if OccursAt(s[1..], pat, i) {
      forall j | 0 <= j < |pat|
        ensures s[i + 1 + j] == pat[j]
      {
        assert s[1..][i + j] == pat[j];
      }
    }
  }

  lemma OccursInPrefix(value: string, tail: string, pat: string, i: nat)
    requires OccursAt(value + tail, pat, i) && i + |pat| <= |value|
    ensures OccursAt(value, pat, i)
  {
    forall j | 0 <= j < |pat|
      ensures value[i + j] == pat[j]
    {
      assert (value + tail)[i + j] == pat[j];
    }
  }

  lemma {:induction false} UpToFirst(text: string, closer: string, rest: string)
    requires forall i: nat :: i < |text| ==> !OccursAt(text + (closer + rest), closer, i)
    ensures UpTo(text + (closer + rest), closer) == Some((text, rest))
  {
    var s := text + (closer + rest);
    if text == "" {
      assert s == closer + rest;
      assert s[|closer|..] == rest;
    } else {
      assert !OccursAt(s, closer, 0);
      assert s[1..] == text[1..] + (closer + rest);
      forall i: nat | i < |text[1..]|
        ensures !OccursAt(s[1..], closer, i)
      {
        OccursInTail(s, closer, i);
        assert !OccursAt(s, closer, i + 1);
      }
      UpToFirst(text[1..], closer, rest);
      assert [text[0]] + text[1..] == text;
    }
  }

  // The line break before the closer cannot lie inside a closer, so none begins before the last.
  lemma NoEarlyCloser(value: string, level: nat, rest: string, i: nat)
    requires !Contains(value, Closer(level)) && i < |value + "\n"|
    ensures !OccursAt(value + "\n" + (Closer(level) + rest), Closer(level), i)
  {
    var closer := Closer(level);
    var s := value + "\n" + (closer + rest);
    assert s[|value|] == '\n';
    assert closer[0] == ']' && closer[level + 1] == ']' && |closer| == level + 2;
    assert forall j :: 0 < j < level + 1 ==> closer[j] == '=';
    if i + |closer| <= |value| {
      assert s == value + ("\n" + (closer + rest));
      if OccursAt(s, closer, i) {
        OccursInPrefix(value, "\n" + (closer + rest), closer, i);
      }
    } else {
      assert s[i + (|value| - i)] != closer[|value| - i];
    }
  }

  // The reader drops the opening bracket and the line break after it.
  lemma OpenedAt(level: nat, body: string)
    ensures ReadLong(Opener(level) + ("\n" + body)) == UpTo(body, Closer(level))
  {
    var s := Opener(level) + ("\n" + body);
    var after := "[" + ("\n" + body);
    assert s[1..] == Equals(level) + after;
    CountEqualsOf(level, after);
    assert s[1..][level..] == after;
    assert after[1..] == "\n" + body;
    assert after[1..][1..] == body;
  }

  // Reading a quoted value back gives the value and one line break, with nothing left over.
  lemma LiteralReads(value: string, level: nat, rest: string)
    requires !Contains(value, Closer(level))
    ensures ReadLong(Literal(level, value) + rest) == Some((value + "\n", rest))
  {
    var text, closer := value + "\n", Closer(level);
    forall i: nat | i < |text|
      ensures !OccursAt(text + (closer + rest), closer, i)
    {
      NoEarlyCloser(value, level, rest, i);
    }
    UpToFirst(text, closer, rest);
    OpenedAt(level, text + (closer + rest));
    LiteralText(level, value, rest);
  }

  lemma LiteralText(level: nat, value: string, rest: string)
    ensures Literal(level, value) + rest == Opener(level) + ("\n" + (value + "\n" + (Closer(level) + rest)))
  {
    hide Opener;
    hide Closer;
    Assoc(value, "\n", Closer(level) + rest);
    Assoc("\n", Closer(level), rest);
    Assoc(value, "\n" + Closer(level), rest);
    Assoc("\n", value + ("\n" + Closer(level)), rest);
    Assoc(Opener(level), "\n" + (value + ("\n" + Closer(level))), rest);
  }

  // ---------------------------------------------------------------- line-break normalisation

  // The reference implementation also turns "\r", "\r\n" and "\n\r" into one line break.
  function Normalised(s: string): (r: string)
    ensures '\r' !in r
  {
    if s == "" then ""
    else if |s| >= 2 && (s[0] == '\r' || s[0] == '\n') && (s[1] == '\r' || s[1] == '\n') && s[0] != s[1] then
      "\n" + Normalised(s[2..])
    else if s[0] == '\r' then "\n" + Normalised(s[1..])
    else [s[0]] + Normalised(s[1..])
  }

  lemma {:induction false} NormalisedUnchanged(s: string)
    requires '\r' !in s
    ensures Normalised(s) == s
  {
    if s != "" {
      if |s| >= 2 {
        assert s[0] in s && s[1] in s;
      }
      NormalisedUnchanged(s[1..]);
      assert s == [s[0]] + s[1..];
    }
  }

  // With normalisation the value survives exactly when it holds no carriage return.
  lemma LiteralReadsNormalised(value: string, level: nat, rest: string)
    requires !Contains(value, Closer(level))
    ensures ReadLong(Literal(level, value) + rest).Some?
    ensures Normalised(ReadLong(Literal(level, value) + rest).value.0) == value + "\n" <==> '\r' !in value
  {
    LiteralReads(value, level, rest);
    if '\r' !in value {
      NormalisedUnchanged(value + "\n");
    } else {
      var i :| 0 <= i < |value| && value[i] == '\r';
      assert (value + "\n")[i] == '\r';
    }
  }

  // ---------------------------------------------------------------- the search bound

  function Interval(low: int, size: nat): (r: set<int>)
    ensures |r| == size
    ensures forall i :: i in r <==> low <= i < low + size
  {
    if size == 0 then {} else Interval(low, size - 1) + {low + size - 1}
  }

  // The positions a closer at `p` of this level takes, its last bracket excepted.
  function Span(p: nat, level: nat): set<int> {
    Interval(p, level + 1)
  }

  // Closers of different levels share at most an end bracket.
  lemma SpansDisjoint(value: string, p: nat, level: nat, q: nat, other: nat)
    requires OccursAt(value, Closer(level), p) && OccursAt(value, Closer(other), q) && level < other
    ensures Span(p, level) !! Span(q, other)
  {
    BracketsOf(value, p, level);
    BracketsOf(value, q, other);
    assert p != q;
  }

  lemma BracketsOf(value: string, p: nat, level: nat)
    requires OccursAt(value, Closer(level), p)
    ensures p + level + 2 <= |value| && value[p] == ']' && value[p + level + 1] == ']'
    ensures forall j :: p < j < p + level + 1 ==> value[j] == '='
  {
    var closer := Closer(level);
    assert closer[0] == ']' && closer[level + 1] == ']';
    forall j | p < j < p + level + 1
      ensures value[j] == '='
    {
      assert value[p + (j - p)] == closer[j - p];
    }
  }

  ghost function PositionOf(value: string, level: nat): (p: nat)
    requires Contains(value, Closer(level))
    ensures OccursAt(value, Closer(level), p)
  {
    var p: nat :| OccursAt(value, Closer(level), p);
    p
  }

  ghost function Covered(value: string, levels: nat): set<int>
    requires forall level :: 0 <= level < levels ==> Contains(value, Closer(level))
  {
    if levels == 0 then {} else Covered(value, levels - 1) + Span(PositionOf(value, levels - 1), levels - 1)
  }

  lemma {:induction false} CoveredIs(value: string, levels: nat, i: int)
    requires forall level :: 0 <= level < levels ==> Contains(value, Closer(level))
    requires i in Covered(value, levels)
    ensures exists level: nat :: level < levels && i in Span(PositionOf(value, level), level)
  {
    if i in Covered(value, levels - 1) {
      CoveredIs(value, levels - 1, i);
    }
  }

  function Triangle(n: nat): nat {
    if n == 0 then 0 else Triangle(n - 1) + n
  }

  lemma {:induction false} TriangleIs(n: nat)
    ensures 2 * Triangle(n) == n * (n + 1)
  {
    if n > 0 {
      TriangleIs(n - 1);
    }
  }

  lemma TopSpanApart(value: string, top: nat)
    requires forall level :: 0 <= level < top + 1 ==> Contains(value, Closer(level))
    ensures Covered(value, top) !! Span(PositionOf(value, top), top)
  {
    hide Span;
    hide OccursAt;
    forall i | i in Covered(value, top)
      ensures i !in Span(PositionOf(value, top), top)
    {
      CoveredIs(value, top, i);
      var level: nat :| level < top && i in Span(PositionOf(value, level), level);
      SpansDisjoint(value, PositionOf(value, level), level, PositionOf(value, top), top);
    }
  }

  lemma UnionSize(small: set<int>, top: set<int>)
    requires small !! top
    ensures |small + top| == |small| + |top|
  {
  }

  // The spans of the first closers add up.
  lemma {:induction false} CoveredSize(value: string, levels: nat)
    requires forall level :: 0 <= level < levels ==> Contains(value, Closer(level))
    ensures |Covered(value, levels)| == Triangle(levels)
  {
    if levels > 0 {
      CoveredSize(value, levels - 1);
      CoveredMore(value, levels - 1);
    }
  }

  lemma CoveredMore(value: string, top: nat)
    requires forall level :: 0 <= level < top + 1 ==> Contains(value, Closer(level))
    ensures |Covered(value, top + 1)| == |Covered(value, top)| + top + 1
  {
    var span := Span(PositionOf(value, top), top);
    assert Covered(value, top + 1) == Covered(value, top) + span;
    assert |span| == top + 1;
    hide OccursAt, Contains, Closer, Covered, Span;
    TopSpanApart(value, top);
    UnionSize(Covered(value, top), span);
  }

  lemma CoveredInside(value: string, levels: nat, i: int)
    requires forall level :: 0 <= level < levels ==> Contains(value, Closer(level))
    requires i in Covered(value, levels)
    ensures 0 <= i < |value| - 1
  {
    CoveredIs(value, levels, i);
    var level: nat :| level < levels && i in Span(PositionOf(value, level), level);
    BracketsOf(value, PositionOf(value, level), level);
  }

  lemma SubsetSize(small: set<int>, large: set<int>)
    requires small <= large
    ensures |small| <= |large|
  {
    assert large == small + (large - small);
  }

  // The search fails only on values of at least 529 characters.
  lemma UnquotableIsLong(value: string)
    requires Unquotable(value)
    ensures |value| >= 529
  {
    hide OccursAt;
    hide Contains;
    hide Triangle;
    CoveredSize(value, LEVELS);
    TriangleIs(LEVELS);
    BracketsOf(value, PositionOf(value, 0), 0);
    forall i | i in Covered(value, LEVELS)
      ensures i in Interval(0, |value| - 1)
    {
      CoveredInside(value, LEVELS, i);
    }
    SubsetSize(Covered(value, LEVELS), Interval(0, |value| - 1));
  }

  // Closers of every level below `levels`, each sharing its end bracket with the next.
  function Chain(levels: nat): string {
    if levels == 0 then "]" else Chain(levels - 1) + Equals(levels - 1) + "]"
  }

  lemma {:induction false} ChainHolds(levels: nat)
    ensures |Chain(levels)| == Triangle(levels) + 1
    ensures Chain(levels)[|Chain(levels)| - 1] == ']'
    ensures forall level :: 0 <= level < levels ==> Contains(Chain(levels), Closer(level))
  {
    if levels > 0 {
      var top := levels - 1;
      ChainHolds(top);
      var before := Chain(top);
      var s := before + Equals(top) + "]";
      assert OccursAt(s, Closer(top), |before| - 1);
      forall level | 0 <= level < top
        ensures Contains(s, Closer(level))
      {
        var p: nat :| OccursAt(before, Closer(level), p);
        assert OccursAt(s, Closer(level), p);
      }
    }
  }

  // The bound is exact: some value of 529 characters cannot be quoted.
  lemma ShortestUnquotable()
    ensures |Chain(LEVELS)| == 529 && Unquotable(Chain(LEVELS))
  {
    hide Triangle;
    ChainHolds(LEVELS);
    TriangleIs(LEVELS);
  }
}
