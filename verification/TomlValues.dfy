// What a well-formed value does to the scanner, from the grammar of values (release_tools/installer.py, 727-795).
//
// A value is given by its tokens, with brackets and braces nested to any depth.  Whatever stands in
// its strings, blocks and comments, printing it and running the automaton over the bytes leads back
// to where it began, and no line inside it begins at a statement boundary.
module TomlValues {
  import opened Basics
  import opened TomlLexer
  import opened TomlHeader
  import opened TomlStream

  // One character of a basic string: itself, or a backslash and what it escapes.
  datatype Mark = Itself(c: char) | Escaped(c: char)

  datatype Item =
    | Glyph(c: char)                // no quote, bracket, brace or comment sign
    | BasicString(marks: seq<Mark>)
    | LiteralString(text: Bytes)
    | BasicBlock(marks: seq<Mark>)
    | LiteralBlock(text: Bytes)
    | Remark(text: Bytes)           // a comment and the line break that ends it
    | Brackets(items: seq<Item>)
    | Braces(items: seq<Item>)

  // ---------------------------------------------------------------- printing

  function PrintMarks(ms: seq<Mark>): Bytes {
    if ms == [] then ""
    else (match ms[0] case Itself(c) => [c] case Escaped(c) => ['\\', c]) + PrintMarks(ms[1..])
  }

  function PrintItem(item: Item): Bytes
    decreases item
  {
    match item
    case Glyph(c) => [c]
    case BasicString(ms) => "\"" + (PrintMarks(ms) + "\"")
    case LiteralString(t) => "'" + (t + "'")
    case BasicBlock(ms) => BASIC3 + (PrintMarks(ms) + BASIC3)
    case LiteralBlock(t) => LITERAL3 + (t + LITERAL3)
    case Remark(t) => "#" + (t + "\n")
    case Brackets(items) => "[" + (PrintItems(items) + "]")
    case Braces(items) => "{" + (PrintItems(items) + "}")
  }

  function PrintItems(items: seq<Item>): Bytes
    decreases items
  {
    if items == [] then "" else PrintItem(items[0]) + PrintItems(items[1..])
  }

  // ---------------------------------------------------------------- well-formed values

  predicate Unbroken(s: Bytes) {
    forall i :: 0 <= i < |s| ==> !LineBreak(s[i])
  }

  predicate LineMarks(ms: seq<Mark>) {
    forall i :: 0 <= i < |ms| ==> !LineBreak(ms[i].c) && (ms[i].Itself? ==> ms[i].c != '"' && ms[i].c != '\\')
  }

  // After so many quotes in a row: never three, and none before the closing delimiter.
  predicate BlockMarks(ms: seq<Mark>, quotes: nat) {
    if ms == [] then quotes == 0
    else if ms[0] == Itself('"') then quotes < 2 && BlockMarks(ms[1..], quotes + 1)
    else ms[0] != Itself('\\') && BlockMarks(ms[1..], 0)
  }

  predicate BlockText(t: Bytes, ticks: nat) {
    if t == "" then ticks == 0
    else if t[0] == '\'' then ticks < 2 && BlockText(t[1..], ticks + 1)
    else BlockText(t[1..], 0)
  }

  // An empty string directly followed by a quote of its own kind would open a block.
  predicate MayPrecede(item: Item, rest: Bytes) {
    && (item == BasicString([]) ==> rest != "" && rest[0] != '"')
    && (item == LiteralString("") ==> rest != "" && rest[0] != '\'')
  }

  // Line breaks and comments are for brackets and braces only.
  predicate ValidItem(item: Item, nested: bool)
    decreases item
  {
    match item
    case Glyph(c) => PlainChar(c) && (LineBreak(c) ==> nested)
    case BasicString(ms) => LineMarks(ms)
    case LiteralString(t) => Unbroken(t) && '\'' !in t
    case BasicBlock(ms) => BlockMarks(ms, 0)
    case LiteralBlock(t) => BlockText(t, 0)
    case Remark(t) => nested && Unbroken(t)
    case Brackets(items) => ValidItems(items, true, "]")
    case Braces(items) => ValidItems(items, true, "}")
  }

  predicate ValidItems(items: seq<Item>, nested: bool, rest: Bytes)
    decreases items
  {
    items == []
    || (ValidItem(items[0], nested) && MayPrecede(items[0], PrintItems(items[1..]) + rest)
        && ValidItems(items[1..], nested, rest))
  }

  // ---------------------------------------------------------------- inside a value no statement begins

  // No line that begins after a break in this text begins at a statement boundary.
  predicate Quiet(s: Bytes, a: Automaton) {
    s == ""
    || ((LineBreak(s[0]) ==> EndLine(a) != AT_BOUNDARY) && Quiet(s[1..], StepByte(a, s[0])))
  }

  // Going over this text changes nothing for what follows.
  predicate Passes(s: Bytes, rest: Bytes, a: Automaton) {
    RunBytes(s + rest, a) == RunBytes(rest, a) && (Quiet(rest, a) ==> Quiet(s + rest, a))
  }

  lemma {:induction false} QuietAppend(s: Bytes, t: Bytes, a: Automaton)
    ensures Quiet(s + t, a) <==> Quiet(s, a) && Quiet(t, RunBytes(s, a))
  {
    if s == "" {
      assert s + t == t;
    } else {
      assert (s + t)[1..] == s[1..] + t;
      QuietAppend(s[1..], t, StepByte(a, s[0]));
    }
  }

  lemma {:induction false} QuietAt(s: Bytes, a: Automaton, n: nat)
    requires Quiet(s, a) && 0 < n <= |s| && LineBreak(s[n - 1])
    ensures EndLine(RunBytes(s[..n], a)) != AT_BOUNDARY
  {
    assert s[..n][1..] == s[1..][..n - 1];
    if n > 1 {
      QuietAt(s[1..], StepByte(a, s[0]), n - 1);
    } else {
      assert s[..n] == [s[0]] && [s[0]][1..] == "";
      BreakKeeps(a);
    }
  }

  lemma BreakKeeps(a: Automaton)
    ensures EndLine(BeginLine(EndLine(a))) == EndLine(a)
  {
  }

  lemma {:induction false} UnbrokenIsQuiet(s: Bytes, a: Automaton)
    requires Unbroken(s)
    ensures Quiet(s, a)
  {
    if s != "" {
      UnbrokenIsQuiet(s[1..], StepByte(a, s[0]));
    }
  }

  // Going over `s` leads from a to b, and no line inside it begins at a boundary.
  predicate Leads(s: Bytes, a: Automaton, b: Automaton) {
    RunBytes(s, a) == b && Quiet(s, a)
  }

  lemma LeadsOn(s: Bytes, t: Bytes, a: Automaton, b: Automaton, c: Automaton)
    requires Leads(s, a, b) && Leads(t, b, c)
    ensures Leads(s + t, a, c)
  {
    RunBytesAppend(s, t, a);
    QuietAppend(s, t, a);
  }

  lemma OneByte(c: char, a: Automaton)
    requires LineBreak(c) ==> EndLine(a) != AT_BOUNDARY
    ensures Leads([c], a, StepByte(a, c))
  {
    assert [c][1..] == "";
  }

  // A state that reads `rest` as `a` does passes on what follows.
  lemma PassesIfSame(s: Bytes, rest: Bytes, a: Automaton, b: Automaton)
    requires Leads(s, a, b) && RunBytes(rest, b) == RunBytes(rest, a) && (Quiet(rest, a) ==> Quiet(rest, b))
    ensures Passes(s, rest, a)
  {
    RunBytesAppend(s, rest, a);
    QuietAppend(s, rest, a);
  }

  // ---------------------------------------------------------------- strings

  lemma {:induction false} LineMarksLead(ms: seq<Mark>, a: Automaton)
    requires LineMarks(ms) && a.mode == InBasic(false)
    ensures Leads(PrintMarks(ms), a, a)
  {
    if ms != [] {
      LineMarksLead(ms[1..], a);
      var b := a.(mode := InBasic(true));
      match ms[0] {
        case Itself(c) =>
          OneByte(c, a);
          LeadsOn([c], PrintMarks(ms[1..]), a, a, a);
        case Escaped(c) =>
          OneByte('\\', a);
          OneByte(c, b);
          LeadsOn(['\\'], [c], a, b, a);
          assert ['\\'] + [c] == ['\\', c];
          LeadsOn(['\\', c], PrintMarks(ms[1..]), a, a, a);
      }
    }
  }

  // The first character after the opening quote decides nothing but whether the string is empty.
  lemma AfterQuote(s: Bytes, a: Automaton, b: Automaton)
    requires s != "" && s[0] != '"' && !LineBreak(s[0])
    requires a.mode == Quote1 && b == a.(mode := InBasic(false))
    ensures RunBytes(s, a) == RunBytes(s, b) && (Quiet(s, b) ==> Quiet(s, a))
  {
    assert StepByte(a, s[0]) == StepByte(b, s[0]);
  }

  lemma PrintedMark(m: Mark, rest: seq<Mark>)
    ensures PrintMarks([m] + rest) != ""
    ensures PrintMarks([m] + rest)[0] == if m.Itself? then m.c else '\\'
  {
  }

  lemma BasicStringPasses(ms: seq<Mark>, rest: Bytes, a: Automaton)
    requires LineMarks(ms) && a.mode == Plain && MayPrecede(BasicString(ms), rest)
    ensures Passes(PrintItem(BasicString(ms)), rest, a)
  {
    var quote, inside := a.(mode := Quote1), a.(mode := InBasic(false));
    OneByte('"', a);
    if ms == [] {
      OneByte('"', quote);
      LeadsOn("\"", "\"", a, quote, a.(mode := Quote2));
      assert PrintItem(BasicString(ms)) == "\"" + "\"";
      assert StepByte(a.(mode := Quote2), rest[0]) == StepByte(a, rest[0]);
      PassesIfSame("\"" + "\"", rest, a, a.(mode := Quote2));
    } else {
      LineMarksLead(ms, inside);
      OneByte('"', inside);
      LeadsOn(PrintMarks(ms), "\"", inside, inside, a);
      var body := PrintMarks(ms) + "\"";
      PrintedMark(ms[0], ms[1..]);
      assert [ms[0]] + ms[1..] == ms;
      AfterQuote(body, quote, inside);
      LeadsOn("\"", body, a, quote, a);
      PassesIfSame("\"" + body, rest, a, a);
    }
  }

  lemma {:induction false} LiteralTextLeads(t: Bytes, a: Automaton)
    requires Unbroken(t) && '\'' !in t && a.mode == InLiteral
    ensures Leads(t, a, a)
  {
    if t != "" {
      assert t[0] in t;
      OneByte(t[0], a);
      LiteralTextLeads(t[1..], a);
      LeadsOn([t[0]], t[1..], a, a, a);
      Uncons(t);
    }
  }

  lemma LiteralStringPasses(t: Bytes, rest: Bytes, a: Automaton)
    requires Unbroken(t) && '\'' !in t && a.mode == Plain && MayPrecede(LiteralString(t), rest)
    ensures Passes(PrintItem(LiteralString(t)), rest, a)
  {
    var tick, inside := a.(mode := Tick1), a.(mode := InLiteral);
    OneByte('\'', a);
    if t == "" {
      OneByte('\'', tick);
      LeadsOn("'", "'", a, tick, a.(mode := Tick2));
      assert PrintItem(LiteralString(t)) == "'" + "'";
      assert StepByte(a.(mode := Tick2), rest[0]) == StepByte(a, rest[0]);
      PassesIfSame("'" + "'", rest, a, a.(mode := Tick2));
    } else {
      LiteralTextLeads(t, inside);
      OneByte('\'', inside);
      LeadsOn(t, "'", inside, inside, a);
      var body := t + "'";
      assert t[0] in t;
      assert StepByte(tick, body[0]) == StepByte(inside, body[0]);
      LeadsOn("'", body, a, tick, a);
      PassesIfSame("'" + body, rest, a, a);
    }
  }

  // ---------------------------------------------------------------- blocks

  lemma OneInBlock(c: char, a: Automaton)
    requires a.mode.MultiBasic? || a.mode.MultiLiteral?
    ensures Leads([c], a, StepByte(a, c))
  {
    OneByte(c, a);
  }

  // The marks of a block, then its closing delimiter.
  lemma {:induction false} BlockMarksLead(ms: seq<Mark>, quotes: nat, a: Automaton)
    requires BlockMarks(ms, quotes) && a.mode == MultiBasic(quotes, false)
    ensures Leads(PrintMarks(ms), a, a.(mode := MultiBasic(0, false)))
  {
    if ms != [] {
      var begun := a.(mode := MultiBasic(0, false));
      match ms[0] {
        case Itself(c) =>
          var next := if c == '"' then quotes + 1 else 0;
          var b := a.(mode := MultiBasic(next, false));
          OneInBlock(c, a);
          BlockMarksLead(ms[1..], next, b);
          LeadsOn([c], PrintMarks(ms[1..]), a, b, begun);
        case Escaped(c) =>
          var b := a.(mode := MultiBasic(0, true));
          OneInBlock('\\', a);
          OneInBlock(c, b);
          LeadsOn(['\\'], [c], a, b, begun);
          assert ['\\'] + [c] == ['\\', c];
          BlockMarksLead(ms[1..], 0, begun);
          LeadsOn(['\\', c], PrintMarks(ms[1..]), a, begun, begun);
      }
    }
  }

  lemma ThreeQuotes(a: Automaton)
    ensures a.mode == Plain ==> Leads(BASIC3, a, a.(mode := MultiBasic(0, false)))
    ensures a.mode == MultiBasic(0, false) ==> Leads(BASIC3, a, a.(mode := Plain))
  {
    ThreeBytes(BASIC3, a);
  }

  lemma ThreeTicks(a: Automaton)
    ensures a.mode == Plain ==> Leads(LITERAL3, a, a.(mode := MultiLiteral(0)))
    ensures a.mode == MultiLiteral(0) ==> Leads(LITERAL3, a, a.(mode := Plain))
  {
    ThreeBytes(LITERAL3, a);
  }

  lemma ThreeBytes(s: Bytes, a: Automaton)
    requires |s| == 3 && Unbroken(s)
    ensures Leads(s, a, StepByte(StepByte(StepByte(a, s[0]), s[1]), s[2]))
  {
    var b := StepByte(StepByte(a, s[0]), s[1]);
    assert s[1..][0] == s[1] && s[1..][1..] == [s[2]] && [s[2]][1..] == "";
    assert RunBytes([s[2]], b) == RunBytes("", StepByte(b, s[2]));
    UnbrokenIsQuiet(s, a);
  }

  lemma BasicBlockPasses(ms: seq<Mark>, rest: Bytes, a: Automaton)
    requires BlockMarks(ms, 0) && a.mode == Plain
    ensures Passes(PrintItem(BasicBlock(ms)), rest, a)
  {
    var inside := a.(mode := MultiBasic(0, false));
    ThreeQuotes(a);
    BlockMarksLead(ms, 0, inside);
    ThreeQuotes(inside);
    LeadsOn(PrintMarks(ms), BASIC3, inside, inside, a);
    LeadsOn(BASIC3, PrintMarks(ms) + BASIC3, a, inside, a);
    PassesIfSame(PrintItem(BasicBlock(ms)), rest, a, a);
  }

  lemma {:induction false} BlockTextLeads(t: Bytes, ticks: nat, a: Automaton)
    requires BlockText(t, ticks) && a.mode == MultiLiteral(ticks)
    ensures Leads(t, a, a.(mode := MultiLiteral(0)))
  {
    if t != "" {
      var next := if t[0] == '\'' then ticks + 1 else 0;
      var b := a.(mode := MultiLiteral(next));
      OneInBlock(t[0], a);
      BlockTextLeads(t[1..], next, b);
      LeadsOn([t[0]], t[1..], a, b, a.(mode := MultiLiteral(0)));
      Uncons(t);
    }
  }

  lemma LiteralBlockPasses(t: Bytes, rest: Bytes, a: Automaton)
    requires BlockText(t, 0) && a.mode == Plain
    ensures Passes(PrintItem(LiteralBlock(t)), rest, a)
  {
    var inside := a.(mode := MultiLiteral(0));
    ThreeTicks(a);
    BlockTextLeads(t, 0, inside);
    ThreeTicks(inside);
    LeadsOn(t, LITERAL3, inside, inside, a);
    LeadsOn(LITERAL3, t + LITERAL3, a, inside, a);
    PassesIfSame(PrintItem(LiteralBlock(t)), rest, a, a);
  }

  // A block whose text ends in one quote before its closing delimiter is not read as closed there:
  // the first three quotes close it, and the fourth opens a string.
  lemma QuoteBeforeClosing(ms: seq<Mark>, a: Automaton)
    requires BlockMarks(ms, 0) && a.mode == Plain
    ensures RunBytes(BASIC3 + (PrintMarks(ms) + (BASIC3 + "\"")), a) == a.(mode := Quote1)
  {
    var inside := a.(mode := MultiBasic(0, false));
    ThreeQuotes(a);
    BlockMarksLead(ms, 0, inside);
    ThreeQuotes(inside);
    OneByte('"', a);
    LeadsOn(BASIC3, "\"", inside, a, a.(mode := Quote1));
    LeadsOn(PrintMarks(ms), BASIC3 + "\"", inside, inside, a.(mode := Quote1));
    LeadsOn(BASIC3, PrintMarks(ms) + (BASIC3 + "\""), a, inside, a.(mode := Quote1));
  }

  // ---------------------------------------------------------------- comments

  lemma {:induction false} CommentLeads(t: Bytes, a: Automaton)
    requires Unbroken(t) && a.mode == Comment
    ensures Leads(t, a, a)
  {
    if t != "" {
      OneByte(t[0], a);
      CommentLeads(t[1..], a);
      LeadsOn([t[0]], t[1..], a, a, a);
      Uncons(t);
    }
  }

  lemma RemarkPasses(t: Bytes, rest: Bytes, a: Automaton)
    requires Unbroken(t) && a.mode == Plain && a.square + a.curly > 0
    ensures Passes(PrintItem(Remark(t)), rest, a)
  {
    var inside := a.(mode := Comment);
    OneByte('#', a);
    CommentLeads(t, inside);
    OneByte('\n', inside);
    LeadsOn(t, "\n", inside, inside, a);
    LeadsOn("#", t + "\n", a, inside, a);
    PassesIfSame(PrintItem(Remark(t)), rest, a, a);
  }

  // ---------------------------------------------------------------- whole values

  lemma PassesOn(s: Bytes, t: Bytes, rest: Bytes, a: Automaton)
    requires Passes(s, t + rest, a) && Passes(t, rest, a)
    ensures Passes(s + t, rest, a)
  {
    Assoc(s, t, rest);
  }

  lemma BracketsPass(items: seq<Item>, rest: Bytes, a: Automaton, open: char, close: char)
    requires a.mode == Plain && (open, close) in {('[', ']'), ('{', '}')}
    requires Passes(PrintItems(items), [close] + rest, StepByte(a, open))
    ensures Passes([open] + (PrintItems(items) + [close]), rest, a)
  {
    var deeper := StepByte(a, open);
    var body := PrintItems(items) + [close];
    Assoc(PrintItems(items), [close], rest);
    Assoc([open], body, rest);
    assert ([open] + (body + rest))[1..] == body + rest;
    assert ([close] + rest)[1..] == rest;
    assert StepByte(deeper, close) == a;
  }

  // Over a value the automaton returns to where it was: every bracket and brace is closed by its own
  // closer and every string and block by its own delimiter, however deep and whatever they hold.
  lemma {:induction false} ItemPasses(item: Item, nested: bool, rest: Bytes, a: Automaton)
    requires ValidItem(item, nested) && MayPrecede(item, rest)
    requires a.mode == Plain && (nested ==> a.square + a.curly > 0)
    ensures Passes(PrintItem(item), rest, a)
    decreases item
  {
    hide Passes, Leads, Quiet, RunBytes, MayPrecede;
    match item
    case Glyph(c) => GlyphPasses(c, rest, a);
    case BasicString(ms) => BasicStringPasses(ms, rest, a);
    case LiteralString(t) => LiteralStringPasses(t, rest, a);
    case BasicBlock(ms) => BasicBlockPasses(ms, rest, a);
    case LiteralBlock(t) => LiteralBlockPasses(t, rest, a);
    case Remark(t) => RemarkPasses(t, rest, a);
    case Brackets(items) =>
      ValidBefore(items, true, "]", "]" + rest);
      ItemsPass(items, true, "]" + rest, StepByte(a, '['));
      BracketsPass(items, rest, a, '[', ']');
    case Braces(items) =>
      ValidBefore(items, true, "}", "}" + rest);
      ItemsPass(items, true, "}" + rest, StepByte(a, '{'));
      BracketsPass(items, rest, a, '{', '}');
  }

  lemma GlyphPasses(c: char, rest: Bytes, a: Automaton)
    requires PlainChar(c) && a.mode == Plain && (LineBreak(c) ==> a.square + a.curly > 0)
    ensures Passes([c], rest, a)
  {
    OneByte(c, a);
    PassesIfSame([c], rest, a, a);
  }

  // Of what follows, only whether it begins with a quote matters.
  lemma {:induction false} ValidBefore(items: seq<Item>, nested: bool, rest: Bytes, more: Bytes)
    requires ValidItems(items, nested, rest) && rest != "" && more != ""
    requires more[0] == rest[0] || (more[0] != '"' && more[0] != '\'')
    ensures ValidItems(items, nested, more)
    decreases items
  {
    if items != [] {
      ValidBefore(items[1..], nested, rest, more);
      var tail := PrintItems(items[1..]);
      assert tail != "" ==> (tail + rest)[0] == (tail + more)[0];
    }
  }

  lemma {:induction false} ItemsPass(items: seq<Item>, nested: bool, rest: Bytes, a: Automaton)
    requires ValidItems(items, nested, rest)
    requires a.mode == Plain && (nested ==> a.square + a.curly > 0)
    ensures Passes(PrintItems(items), rest, a)
    decreases items
  {
    hide Quiet, RunBytes, MayPrecede, ValidItem;
    if items == [] {
      assert "" + rest == rest;
    } else {
      ItemPasses(items[0], nested, PrintItems(items[1..]) + rest, a);
      ItemsPass(items[1..], nested, rest, a);
      PassesOn(PrintItem(items[0]), PrintItems(items[1..]), rest, a);
    }
  }
}
