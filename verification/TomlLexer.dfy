// The lexical half of the TOML structure scanner (release_tools/installer.py, 727-795).
//
// The source advances a (multiline delimiter, square depth, curly depth) triple over one
// line at a time, jumping with `find` and deciding escapes by counting backslashes backwards.
// The specification is a forward automaton that reads one byte at a time.
module TomlLexer {
  import opened Basics

  datatype Delimiter = BasicQuotes | LiteralQuotes

  // What the source carries from one line to the next.
  datatype LexState = LexState(multiline: Option<Delimiter>, square: nat, curly: nat)

  const AT_BOUNDARY := LexState(None, 0, 0)

  const BASIC3: Bytes := ['"', '"', '"']
  const LITERAL3: Bytes := ['\'', '\'', '\'']
  const TICK: Bytes := ['\'']

  function DelimiterBytes(d: Delimiter): Bytes {
    match d
    case BasicQuotes => BASIC3
    case LiteralQuotes => LITERAL3
  }

  // ---------------------------------------------------------------- the automaton

  datatype Mode =
    | Plain
    | Comment
    | Quote1                                        // one double quote seen
    | Quote2                                        // two adjacent double quotes seen
    | InBasic(escaped: bool)
    | Tick1
    | Tick2
    | InLiteral
    | MultiBasic(quotes: nat, escapedInside: bool)  // adjacent unescaped quotes seen so far
    | MultiLiteral(ticks: nat)

  datatype Automaton = Automaton(mode: Mode, square: nat, curly: nat)

  function StepPlain(a: Automaton, c: char): Automaton {
    if c == '#' then a.(mode := Comment)
    else if c == '"' then a.(mode := Quote1)
    else if c == '\'' then a.(mode := Tick1)
    else if c == '[' then a.(mode := Plain, square := a.square + 1)
    else if c == ']' then a.(mode := Plain, square := if a.square == 0 then 0 else a.square - 1)
    else if c == '{' then a.(mode := Plain, curly := a.curly + 1)
    else if c == '}' then a.(mode := Plain, curly := if a.curly == 0 then 0 else a.curly - 1)
    else a.(mode := Plain)
  }

  function StepInBasic(a: Automaton, escaped: bool, c: char): Automaton {
    if escaped then a.(mode := InBasic(false))
    else if c == '\\' then a.(mode := InBasic(true))
    else if c == '"' then a.(mode := Plain)
    else a.(mode := InBasic(false))
  }

  function Step(a: Automaton, c: char): Automaton {
    match a.mode
    case Plain => StepPlain(a, c)
    case Comment => a
    case Quote1 => if c == '"' then a.(mode := Quote2) else StepInBasic(a, false, c)
    case Quote2 => if c == '"' then a.(mode := MultiBasic(0, false)) else StepPlain(a, c)
    case InBasic(escaped) => StepInBasic(a, escaped, c)
    case Tick1 => if c == '\'' then a.(mode := Tick2) else a.(mode := InLiteral)
    case Tick2 => if c == '\'' then a.(mode := MultiLiteral(0)) else StepPlain(a, c)
    case InLiteral => if c == '\'' then a.(mode := Plain) else a
    case MultiBasic(quotes, escaped) =>
      if escaped then a.(mode := MultiBasic(0, false))
      else if c == '\\' then a.(mode := MultiBasic(0, true))
      else if c == '"' then (if quotes == 2 then a.(mode := Plain) else a.(mode := MultiBasic(quotes + 1, false)))
      else a.(mode := MultiBasic(0, false))
    case MultiLiteral(ticks) =>
      if c == '\'' then (if ticks == 2 then a.(mode := Plain) else a.(mode := MultiLiteral(ticks + 1)))
      else a.(mode := MultiLiteral(0))
  }

  function Run(s: Bytes, a: Automaton): Automaton {
    if s == "" then a else Run(s[1..], Step(a, s[0]))
  }

  // A line end closes comments and single-line strings and forgets a half-seen delimiter.
  function EndLine(a: Automaton): LexState {
    LexState(
      if a.mode.MultiBasic? then Some(BasicQuotes)
      else if a.mode.MultiLiteral? then Some(LiteralQuotes)
      else None,
      a.square, a.curly)
  }

  function BeginLine(st: LexState): Automaton {
    Automaton(
      match st.multiline
      case None => Plain
      case Some(BasicQuotes) => MultiBasic(0, false)
      case Some(LiteralQuotes) => MultiLiteral(0),
      st.square, st.curly)
  }

  function Finish(s: Bytes, a: Automaton): LexState {
    EndLine(Run(s, a))
  }

  // The state after one line, by the automaton.
  function Advance(line: Bytes, st: LexState): LexState {
    Finish(line, BeginLine(st))
  }

  lemma {:induction false} RunAppend(s: Bytes, t: Bytes, a: Automaton)
    ensures Run(s + t, a) == Run(t, Run(s, a))
  {
    if s == "" {
      assert s + t == t;
    } else {
      assert (s + t)[1..] == s[1..] + t;
      RunAppend(s[1..], t, Step(a, s[0]));
    }
  }

  lemma RunOne(s: Bytes, i: nat, j: nat, a: Automaton)
    requires i <= j < |s|
    ensures Run(s[i..j + 1], a) == Step(Run(s[i..j], a), s[j])
  {
    assert s[i..j + 1] == s[i..j] + [s[j]];
    RunAppend(s[i..j], [s[j]], a);
  }

  lemma FinishSplit(s: Bytes, i: nat, j: nat, a: Automaton)
    requires i <= j <= |s|
    ensures Finish(s[i..], a) == Finish(s[j..], Run(s[i..j], a))
  {
    assert s[i..] == s[i..j] + s[j..];
    RunAppend(s[i..j], s[j..], a);
  }

  predicate PlainChar(c: char) {
    c != '#' && c != '"' && c != '\'' && c != '[' && c != ']' && c != '{' && c != '}'
  }

  lemma {:induction false} RunPlain(s: Bytes, a: Automaton)
    requires forall i :: 0 <= i < |s| ==> PlainChar(s[i])
    requires a.mode == Plain
    ensures Run(s, a) == a
  {
    if s != "" {
      assert PlainChar(s[0]);
      RunPlain(s[1..], a);
    }
  }

  // ---------------------------------------------------------------- find and escape parity

  // bytes.find(pattern, from): the first position at or after `from`, or -1.
  method Find(s: Bytes, pat: Bytes, from: nat) returns (r: int)
    requires |pat| > 0
    ensures r == -1 || (from <= r && OccursAt(s, pat, r))
    ensures forall k :: from <= k && (r == -1 || k < r) ==> !OccursAt(s, pat, k)
  {
    var i := from;
    while i < |s|
      invariant from <= i
      invariant forall k :: from <= k < i ==> !OccursAt(s, pat, k)
    {
      if OccursAt(s, pat, i) {
        return i;
      }
      i := i + 1;
    }
    return -1;
  }

  // The number of backslashes directly before position p.
  ghost function BackslashRun(s: Bytes, p: nat): nat
    requires p <= |s|
  {
    if p > 0 && s[p - 1] == '\\' then 1 + BackslashRun(s, p - 1) else 0
  }

  ghost predicate EscapedAt(s: Bytes, p: nat)
    requires p <= |s|
  {
    BackslashRun(s, p) % 2 == 1
  }

  method Escaped(s: Bytes, position: nat) returns (r: bool)
    requires position <= |s|
    ensures r == EscapedAt(s, position)
  {
    var backslashes := 0;
    var cursor := position - 1;
    while cursor >= 0 && s[cursor] == '\\'
      invariant -1 <= cursor < |s|
      invariant cursor + 1 <= |s| && backslashes >= 0
      invariant BackslashRun(s, position) == backslashes + BackslashRun(s, cursor + 1)
    {
      backslashes := backslashes + 1;
      cursor := cursor - 1;
    }
    r := backslashes % 2 == 1;
  }

  // ---------------------------------------------------------------- closing a multiline string

  // Adjacent unescaped double quotes ending just before p, not looking left of `from`.
  ghost function QuoteRun(s: Bytes, from: nat, p: nat): nat
    requires from <= p <= |s|
  {
    if p > from && s[p - 1] == '"' && !EscapedAt(s, p - 1) then 1 + QuoteRun(s, from, p - 1) else 0
  }

  ghost predicate ClosesAt(s: Bytes, d: Delimiter, p: nat) {
    OccursAt(s, DelimiterBytes(d), p) && (d == BasicQuotes ==> !EscapedAt(s, p))
  }

  lemma {:induction false} ThreeQuotes(s: Bytes, from: nat, p: nat)
    requires from <= p <= |s|
    requires QuoteRun(s, from, p) >= 3
    ensures p >= from + 3 && ClosesAt(s, BasicQuotes, p - 3)
  {
    assert QuoteRun(s, from, p - 1) >= 2;
    assert QuoteRun(s, from, p - 2) >= 1;
  }

  // Inside a multiline basic string the automaton tracks exactly the backward parity.
  lemma {:induction false} InsideMultiBasic(s: Bytes, from: nat, p: nat, a: Automaton)
    requires from <= p <= |s|
    requires BackslashRun(s, from) == 0
    requires a.mode == MultiBasic(0, false)
    requires forall k :: from <= k && k + 3 <= p ==> !ClosesAt(s, BasicQuotes, k)
    ensures Run(s[from..p], a) == a.(mode := MultiBasic(QuoteRun(s, from, p), EscapedAt(s, p)))
  {
    if p == from {
      assert s[from..p] == "";
    } else {
      InsideMultiBasic(s, from, p - 1, a);
      RunOne(s, from, p - 1, a);
      if QuoteRun(s, from, p) >= 3 {
        ThreeQuotes(s, from, p);
        assert false;
      }
      if EscapedAt(s, p - 1) {
        assert BackslashRun(s, p - 1) > 0;
        QuoteRunAfterBackslash(s, from, p - 1);
      }
    }
  }

  lemma QuoteRunAfterBackslash(s: Bytes, from: nat, p: nat)
    requires from <= p <= |s|
    requires BackslashRun(s, p) > 0
    ensures QuoteRun(s, from, p) == 0
  {
  }

  lemma CloseMultiBasic(s: Bytes, from: nat, p: nat, a: Automaton)
    requires from <= p && p + 3 <= |s|
    requires BackslashRun(s, from) == 0
    requires a.mode == MultiBasic(0, false)
    requires forall k :: from <= k < p ==> !ClosesAt(s, BasicQuotes, k)
    requires ClosesAt(s, BasicQuotes, p)
    ensures Run(s[from..p + 3], a) == a.(mode := Plain)
  {
    assert s[p] == BASIC3[0] && s[p + 1] == BASIC3[1] && s[p + 2] == BASIC3[2];
    InsideMultiBasic(s, from, p + 2, a);
    assert !EscapedAt(s, p + 1) && !EscapedAt(s, p + 2);
    assert QuoteRun(s, from, p + 2) >= 2;
    if QuoteRun(s, from, p + 2) >= 3 {
      ThreeQuotes(s, from, p + 2);
      assert false;
    }
    RunOne(s, from, p + 2, a);
  }

  ghost function TickRun(s: Bytes, from: nat, p: nat): nat
    requires from <= p <= |s|
  {
    if p > from && s[p - 1] == '\'' then 1 + TickRun(s, from, p - 1) else 0
  }

  lemma {:induction false} ThreeTicks(s: Bytes, from: nat, p: nat)
    requires from <= p <= |s|
    requires TickRun(s, from, p) >= 3
    ensures p >= from + 3 && ClosesAt(s, LiteralQuotes, p - 3)
  {
    assert TickRun(s, from, p - 1) >= 2;
    assert TickRun(s, from, p - 2) >= 1;
  }

  lemma {:induction false} InsideMultiLiteral(s: Bytes, from: nat, p: nat, a: Automaton)
    requires from <= p <= |s|
    requires a.mode == MultiLiteral(0)
    requires forall k :: from <= k && k + 3 <= p ==> !ClosesAt(s, LiteralQuotes, k)
    ensures Run(s[from..p], a) == a.(mode := MultiLiteral(TickRun(s, from, p)))
    ensures TickRun(s, from, p) < 3
  {
    if p == from {
      assert s[from..p] == "";
    } else {
      InsideMultiLiteral(s, from, p - 1, a);
      RunOne(s, from, p - 1, a);
      if TickRun(s, from, p) >= 3 {
        ThreeTicks(s, from, p);
        assert false;
      }
    }
  }

  lemma CloseMultiLiteral(s: Bytes, from: nat, p: nat, a: Automaton)
    requires from <= p && p + 3 <= |s|
    requires a.mode == MultiLiteral(0)
    requires forall k :: from <= k < p ==> !ClosesAt(s, LiteralQuotes, k)
    requires ClosesAt(s, LiteralQuotes, p)
    ensures Run(s[from..p + 3], a) == a.(mode := Plain)
  {
    assert s[p] == LITERAL3[0] && s[p + 1] == LITERAL3[1] && s[p + 2] == LITERAL3[2];
    InsideMultiLiteral(s, from, p + 2, a);
    assert TickRun(s, from, p + 2) >= 2;
    RunOne(s, from, p + 2, a);
  }

  // A multiline string that opened before `from` either closes at the first unescaped delimiter
  // at or after `from`, or swallows the rest of the line.
  lemma MultilineJump(s: Bytes, from: nat, d: Delimiter, st: LexState, close: int)
    requires from <= |s|
    requires BackslashRun(s, from) == 0
    requires st.multiline == Some(d)
    requires close == -1 || (from <= close && ClosesAt(s, d, close))
    requires forall k :: from <= k && (close == -1 || k < close) ==> !ClosesAt(s, d, k)
    ensures close == -1 ==> Finish(s[from..], BeginLine(st)) == st
    ensures close != -1 ==>
      Finish(s[from..], BeginLine(st)) == Finish(s[close + 3..], BeginLine(st.(multiline := None)))
  {
    var a := BeginLine(st);
    if close == -1 {
      assert s[from..] == s[from..|s|];
      match d {
        case BasicQuotes => InsideMultiBasic(s, from, |s|, a);
        case LiteralQuotes => InsideMultiLiteral(s, from, |s|, a);
      }
    } else {
      match d {
        case BasicQuotes => CloseMultiBasic(s, from, close, a);
        case LiteralQuotes => CloseMultiLiteral(s, from, close, a);
      }
      FinishSplit(s, from, close + 3, a);
    }
  }

  // ---------------------------------------------------------------- single-line strings

  // A double quote that does not start a triple opens a single-line basic string.
  lemma OpenBasic(s: Bytes, i: nat, a: Automaton)
    requires i < |s| && s[i] == '"' && !OccursAt(s, BASIC3, i)
    requires a.mode == Plain
    ensures Finish(s[i..], a) == Finish(s[i + 1..], a.(mode := InBasic(false)))
  {
    var rest := s[i + 1..];
    assert s[i..][1..] == rest;
    var q := a.(mode := Quote1);
    assert Finish(s[i..], a) == Finish(rest, q);
    if |rest| >= 1 && rest[0] == '"' {
      assert Run(rest, q) == Run(rest[1..], a.(mode := Quote2));
      assert Run(rest, a.(mode := InBasic(false))) == Run(rest[1..], a);
      if |rest| >= 2 {
        assert s[i + 2] != BASIC3[2];
        assert Step(a.(mode := Quote2), rest[1]) == Step(a, rest[1]);
      }
    }
  }

  lemma OpenLiteral(s: Bytes, i: nat, a: Automaton)
    requires i < |s| && s[i] == '\'' && !OccursAt(s, LITERAL3, i)
    requires a.mode == Plain
    ensures Finish(s[i..], a) == Finish(s[i + 1..], a.(mode := InLiteral))
  {
    var rest := s[i + 1..];
    assert s[i..][1..] == rest;
    var q := a.(mode := Tick1);
    assert Finish(s[i..], a) == Finish(rest, q);
    if |rest| >= 1 && rest[0] == '\'' {
      assert Run(rest, q) == Run(rest[1..], a.(mode := Tick2));
      assert Run(rest, a.(mode := InLiteral)) == Run(rest[1..], a);
      if |rest| >= 2 {
        assert s[i + 2] != LITERAL3[2];
        assert Step(a.(mode := Tick2), rest[1]) == Step(a, rest[1]);
      }
    }
  }

  lemma OpenTriple(s: Bytes, i: nat, d: Delimiter, a: Automaton)
    requires OccursAt(s, DelimiterBytes(d), i)
    requires a.mode == Plain
    ensures Finish(s[i..], a)
         == Finish(s[i + 3..], BeginLine(LexState(Some(d), a.square, a.curly)))
  {
    var t := DelimiterBytes(d);
    assert s[i] == t[0] && s[i + 1] == t[1] && s[i + 2] == t[2];
    RunOne(s, i, i, a);
    assert s[i..i] == "";
    RunOne(s, i, i + 1, a);
    RunOne(s, i, i + 2, a);
    FinishSplit(s, i, i + 3, a);
  }

  lemma {:induction false} InsideLiteral(s: Bytes, i: nat, j: nat, a: Automaton)
    requires i <= j <= |s|
    requires a.mode == InLiteral
    requires forall k :: i <= k < j ==> s[k] != '\''
    ensures Run(s[i..j], a) == a
  {
    if i == j {
      assert s[i..j] == "";
    } else {
      InsideLiteral(s, i, j - 1, a);
      RunOne(s, i, j - 1, a);
    }
  }

  lemma {:induction false} InsideComment(s: Bytes, a: Automaton)
    requires a.mode == Comment
    ensures Run(s, a) == a
  {
    if s != "" {
      InsideComment(s[1..], a);
    }
  }

  // The rest of the line from `index`; past the end there is nothing left.
  function Rest(s: Bytes, index: nat): Bytes {
    if index <= |s| then s[index..] else ""
  }

  // Skips a single-line basic string whose opening quote is just before `start`.
  method SkipBasic(rawLine: Bytes, start: nat, square: nat, curly: nat) returns (index: nat)
    requires start <= |rawLine|
    ensures index >= start
    ensures Finish(rawLine[start..], Automaton(InBasic(false), square, curly))
         == Finish(Rest(rawLine, index), Automaton(Plain, square, curly))
  {
    index := start;
    ghost var a := Automaton(InBasic(false), square, curly);
    while index < |rawLine|
      invariant start <= index
      invariant Finish(rawLine[start..], a) == Finish(Rest(rawLine, index), a)
    {
      assert rawLine[index..][1..] == rawLine[index + 1..];
      if rawLine[index] == '\\' {
        assert Finish(rawLine[index..], a) == Finish(rawLine[index + 1..], a.(mode := InBasic(true)));
        if index + 1 < |rawLine| {
          assert rawLine[index + 1..][1..] == rawLine[index + 2..];
        }
        index := index + 2;
        continue;
      }
      if rawLine[index] == '"' {
        index := index + 1;
        return;
      }
      index := index + 1;
    }
  }

  // Skips a single-line literal string whose opening tick is just before `start`.
  method SkipLiteral(rawLine: Bytes, start: nat, square: nat, curly: nat) returns (index: nat)
    requires start <= |rawLine|
    ensures start <= index <= |rawLine|
    ensures Finish(rawLine[start..], Automaton(InLiteral, square, curly))
         == Finish(Rest(rawLine, index), Automaton(Plain, square, curly))
  {
    ghost var inside := Automaton(InLiteral, square, curly);
    var close := Find(rawLine, TICK, start);
    ghost var stop := if close < 0 then |rawLine| else close;
    NoTick(rawLine, start, stop);
    InsideLiteral(rawLine, start, stop, inside);
    FinishSplit(rawLine, start, stop, inside);
    if close < 0 {
      index := |rawLine|;
    } else {
      assert rawLine[close] == TICK[0];
      assert rawLine[close..][1..] == rawLine[close + 1..];
      index := close + 1;
    }
  }

  lemma NoTick(s: Bytes, i: nat, j: nat)
    requires i <= j <= |s|
    requires forall k :: i <= k < j ==> !OccursAt(s, TICK, k)
    ensures forall k :: i <= k < j ==> s[k] != '\''
  {
    forall k | i <= k < j
      ensures s[k] != '\''
    {
      assert !OccursAt(s, TICK, k);
    }
  }

  // Where the multiline string that is open at `index` closes on this line, or -1.
  method FindClose(rawLine: Bytes, index: nat, d: Delimiter) returns (close: int)
    ensures close == -1 || (index <= close && ClosesAt(rawLine, d, close))
    ensures forall k :: index <= k && (close == -1 || k < close) ==> !ClosesAt(rawLine, d, k)
  {
    close := Find(rawLine, DelimiterBytes(d), index);
    var escaped := false;
    if close >= 0 && d == BasicQuotes {
      escaped := Escaped(rawLine, close);
    }
    while close >= 0 && escaped
      invariant close == -1 || (index <= close && OccursAt(rawLine, DelimiterBytes(d), close))
      invariant close >= 0 ==> escaped == (d == BasicQuotes && EscapedAt(rawLine, close))
      invariant forall k :: index <= k && (close == -1 || k < close) ==> !ClosesAt(rawLine, d, k)
      decreases if close >= 0 then |rawLine| - close else 0
    {
      close := Find(rawLine, DelimiterBytes(d), close + 1);
      if close >= 0 {
        escaped := Escaped(rawLine, close);
      }
    }
  }

  lemma AfterDelimiter(s: Bytes, d: Delimiter, i: nat)
    requires OccursAt(s, DelimiterBytes(d), i)
    ensures BackslashRun(s, i + 3) == 0
  {
    assert s[i + 2] == DelimiterBytes(d)[2];
  }

  // The source's line advance: find-and-jump with backward parity counting.
  method AdvanceTomlLexicalState(rawLine: Bytes, st: LexState) returns (r: LexState)
    ensures r == Advance(rawLine, st)
  {
    hide Run;
    var index: nat := 0;
    var multiline, square, curly := st.multiline, st.square, st.curly;
    while index < |rawLine|
      invariant Advance(rawLine, st) == Finish(Rest(rawLine, index), BeginLine(LexState(multiline, square, curly)))
      invariant multiline.Some? && index <= |rawLine| ==> BackslashRun(rawLine, index) == 0
      decreases |rawLine| - index, multiline.Some?
    {
      if multiline.Some? {
        var close := FindClose(rawLine, index, multiline.value);
        MultilineJump(rawLine, index, multiline.value, LexState(multiline, square, curly), close);
        if close < 0 {
          return LexState(multiline, square, curly);
        }
        index := close + 3;
        multiline := None;
        continue;
      }
      ghost var a := Automaton(Plain, square, curly);
      var byte := rawLine[index];
      StepOver(rawLine, index, a);
      if byte == '#' {
        InsideComment(rawLine[index + 1..], a.(mode := Comment));
        break;
      }
      if OccursAt(rawLine, BASIC3, index) {
        OpenTriple(rawLine, index, BasicQuotes, a);
        AfterDelimiter(rawLine, BasicQuotes, index);
        multiline := Some(BasicQuotes);
        index := index + 3;
        continue;
      }
      if OccursAt(rawLine, LITERAL3, index) {
        OpenTriple(rawLine, index, LiteralQuotes, a);
        AfterDelimiter(rawLine, LiteralQuotes, index);
        multiline := Some(LiteralQuotes);
        index := index + 3;
        continue;
      }
      if byte == '"' {
        OpenBasic(rawLine, index, a);
        index := SkipBasic(rawLine, index + 1, square, curly);
        continue;
      }
      if byte == '\'' {
        OpenLiteral(rawLine, index, a);
        index := SkipLiteral(rawLine, index + 1, square, curly);
        continue;
      }
      if byte == '[' {
        square := square + 1;
      } else if byte == ']' {
        square := if square == 0 then 0 else square - 1;
      } else if byte == '{' {
        curly := curly + 1;
      } else if byte == '}' {
        curly := if curly == 0 then 0 else curly - 1;
      }
      index := index + 1;
    }
    r := LexState(multiline, square, curly);
    if index >= |rawLine| {
      assert Rest(rawLine, index) == "";
      NothingLeft(r);
    }
  }

  lemma StepOver(s: Bytes, i: nat, a: Automaton)
    requires i < |s|
    ensures Finish(s[i..], a) == Finish(s[i + 1..], Step(a, s[i]))
  {
    assert s[i..][1..] == s[i + 1..];
  }

  lemma NothingLeft(st: LexState)
    ensures Finish("", BeginLine(st)) == st
  {
  }
}
