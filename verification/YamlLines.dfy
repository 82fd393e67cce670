/**
  The lines of a printed document: what each is to the parser, how it comes back from its raw text, which
  lines belong to an item, and what is left of an item once the ignorable lines at its end are dropped. What
  is dropped are the last lines of a block scalar, where they look like comments.
*/
module YamlLines {
  import opened Text
  import opened Yaml
  import opened YamlPrint
  import opened YamlWords

  // -------------------------------------------------------------------------------------------
  // Printed lines
  // -------------------------------------------------------------------------------------------

  predicate GoodContent(s: string) {
    s != "" && !IsWhite(s[0]) && !IsWhite(s[|s| - 1])
  }

  lemma ContentLine(indent: nat, s: string)
    requires GoodContent(s)
    ensures Trim(LineAt(indent, s).raw) == s && TrimStart(LineAt(indent, s).raw) == s
    ensures Ignorable(LineAt(indent, s)) <==> s[0] == '#'
    ensures IsItem(LineAt(indent, s)) <==> s == "-" || "- " <= s
  {
    TrimPad(indent, s);
  }

  /** The line of a key: neither ignorable nor an item, and it reads as the key and its value's text. */
  lemma {:induction false} FieldLine(f: Field, indent: nat)
    requires WfField(f)
    ensures var l := LineAt(indent, KeyLine(f));
            !Ignorable(l) && !IsItem(l) && KeyAndValue(l) == Ok((f.key.text, ValueText(f.value)))
  {
    KeyLineReads(f);
    ContentLine(indent, KeyLine(f));
  }

  /** A dash line: what follows the dash, and where. */
  lemma DashLine(indent: nat, s: string)
    requires GoodContent(s)
    ensures var l := LineAt(indent, "- " + s);
            !Ignorable(l) && IsItem(l) && AfterDash(l) == s && ItemColumn(l) == indent + 2
  {
    var l := LineAt(indent, "- " + s);
    ContentLine(indent, "- " + s);
    assert l.raw[indent + 1..] == Spaces(1) + s;
    TrimPad(1, s);
  }

  lemma BareDashLine(indent: nat)
    ensures var l := LineAt(indent, "-"); !Ignorable(l) && IsItem(l) && AfterDash(l) == ""
  {
    ContentLine(indent, "-");
    assert LineAt(indent, "-").raw[indent + 1..] == "";
  }

  lemma BlockLineIs(indent: nat, l: string)
    requires BlockLineOk(l)
    ensures Ignorable(BlockLine(indent, l)) <==> LooksIgnorable(l)
    ensures Trim(BlockLine(indent, l).raw) == "" <==> l == ""
    ensures l != "" ==> BlockLine(indent, l).indent >= indent
  {
    TrimStartPad(indent, l);
  }

  // -------------------------------------------------------------------------------------------
  // Block scalars
  // -------------------------------------------------------------------------------------------

  /** What may follow a value at `indent`: the next key there, or anything further out. */
  predicate Follows(rest: seq<Line>, indent: nat) {
    rest != [] ==> !Ignorable(rest[0]) && (rest[0].indent < indent || (rest[0].indent == indent && !IsItem(rest[0])))
  }

  /** What may follow a sequence item at `indent`: another item there, or what may follow a value. */
  predicate FollowsItem(rest: seq<Line>, indent: nat) {
    rest != [] ==> !Ignorable(rest[0]) && rest[0].indent <= indent
  }

  lemma {:induction false} FollowsHead(rest: seq<Line>, indent: nat)
    requires FollowsItem(rest, indent) || Follows(rest, indent)
    ensures SkipIgnorable(rest) == rest
    ensures rest != [] ==> Trim(rest[0].raw) != "" && rest[0].indent <= indent
  {
  }

  predicate BlockLinesOk(lines: seq<string>) {
    forall i :: 0 <= i < |lines| ==> BlockLineOk(lines[i])
  }

  /** One printed line of a block comes off the front as its own text. */
  lemma {:induction false} BlockStep(l: string, more: seq<Line>, indent: nat, base: Option<nat>)
    requires BlockLineOk(l) && FirstFits(l, indent, base)
    ensures var b := BaseAfter(l, indent, base);
            BlockLines([BlockLine(indent + 2, l)] + more, indent, base)
              == ([l] + BlockLines(more, indent, b).0, BlockLines(more, indent, b).1)
  {
    var line := BlockLine(indent + 2, l);
    BlockLineIs(indent + 2, l);
    assert ([line] + more)[1..] == more;
    if l != "" {
      if base == None { TrimStartId(l); }
      assert line.raw[indent + 2..] == l;
    }
  }

  lemma {:induction false} PrintBlockStep(lines: seq<string>, indent: nat, rest: seq<Line>)
    requires lines != []
    ensures PrintBlock(lines, indent) + rest == [BlockLine(indent, lines[0])] + (PrintBlock(lines[1..], indent) + rest)
  {
  }

  /** What may follow a block ends it. */
  lemma {:induction false} BlockEnds(rest: seq<Line>, indent: nat, base: Option<nat>)
    requires Follows(rest, indent) || FollowsItem(rest, indent)
    ensures BlockLines(rest, indent, base) == ([], rest)
  {
    FollowsHead(rest, indent);
  }

  /** The column a block is read with, once its first line has been. */
  function BaseAfter(l: string, indent: nat, base: Option<nat>): Option<nat> {
    if base.Some? || l == "" then base else Some(indent + 2)
  }

  predicate FirstFits(l: string, indent: nat, base: Option<nat>) {
    base == Some(indent + 2) || (base == None && (l != "" ==> !IsWhite(l[0])))
  }

  predicate BaseFits(lines: seq<string>, indent: nat, base: Option<nat>) {
    base == Some(indent + 2) || (base == None && StartsFlush(lines))
  }

  lemma BaseStillFits(lines: seq<string>, indent: nat, base: Option<nat>)
    requires lines != [] && BlockLinesOk(lines) && BaseFits(lines, indent, base)
    ensures BlockLineOk(lines[0]) && BlockLinesOk(lines[1..])
    ensures BaseFits(lines[1..], indent, BaseAfter(lines[0], indent, base))
    ensures FirstFits(lines[0], indent, base)
  {
  }

  lemma {:induction false} BlockReads(lines: seq<string>, rest: seq<Line>, indent: nat, base: Option<nat>)
    requires BlockLinesOk(lines) && (Follows(rest, indent) || FollowsItem(rest, indent))
    requires BaseFits(lines, indent, base)
    ensures BlockLines(PrintBlock(lines, indent + 2) + rest, indent, base) == (lines, rest)
  {
    if lines == [] {
      assert PrintBlock(lines, indent + 2) + rest == rest;
      BlockEnds(rest, indent, base);
    } else {
      BaseStillFits(lines, indent, base);
      BlockReads(lines[1..], rest, indent, BaseAfter(lines[0], indent, base));
      BlockFirst(lines, rest, indent, base);
    }
  }

  lemma {:induction false} BlockFirst(lines: seq<string>, rest: seq<Line>, indent: nat, base: Option<nat>)
    requires lines != [] && BlockLineOk(lines[0]) && FirstFits(lines[0], indent, base)
    requires BlockLines(PrintBlock(lines[1..], indent + 2) + rest, indent, BaseAfter(lines[0], indent, base))
             == (lines[1..], rest)
    ensures BlockLines(PrintBlock(lines, indent + 2) + rest, indent, base) == (lines, rest)
  {
    PrintBlockStep(lines, indent + 2, rest);
    BlockStep(lines[0], PrintBlock(lines[1..], indent + 2) + rest, indent, base);
    assert [lines[0]] + lines[1..] == lines;
  }

  lemma {:induction false} BlockTextReads(header: string, lines: seq<string>)
    requires BlockOk(header, lines)
    ensures BlockText(header[0] == '>', lines) == Join(lines, Separator(header))
  {
    assert DropBlank(lines) == lines;
  }

  // -------------------------------------------------------------------------------------------
  // The lines of an item
  // -------------------------------------------------------------------------------------------

  /** A line that belongs to an item with content at `column`, and that comes back from its text. */
  predicate DeepLine(l: Line, column: nat) {
    (Ignorable(l) || l.indent >= column) && ReadsBack(l)
  }

  predicate Deep(ls: seq<Line>, column: nat) {
    forall i :: 0 <= i < |ls| ==> DeepLine(ls[i], column)
  }

  predicate ReadsBack(l: Line) {
    ReadLine(l.raw) == Ok(l) && '\n' !in l.raw && (l.raw != "" ==> l.raw[|l.raw| - 1] != '\r')
  }

  lemma {:induction false} TrimStartCharPad(n: nat, s: string)
    ensures TrimStartChar(Spaces(n) + s, ' ') == TrimStartChar(s, ' ')
  {
    if n == 0 {
      assert Spaces(0) + s == s;
    } else {
      TrimStartCharPad(n - 1, s);
      assert (Spaces(n) + s)[1..] == Spaces(n - 1) + s;
    }
  }

  lemma ContentReadsBack(indent: nat, s: string)
    requires GoodContent(s) && '\n' !in s
    ensures ReadsBack(LineAt(indent, s))
  {
    TrimPad(indent, s);
    TrimStartCharPad(indent, s);
    PaddedEnds(indent, s);
    ReadsAs(LineAt(indent, s), s);
  }

  lemma PaddedEnds(indent: nat, s: string)
    requires GoodContent(s) && '\n' !in s
    ensures var raw := Spaces(indent) + s; raw[|raw| - 1] == s[|s| - 1] && '\n' !in raw && raw[0] != '\t'
  {
  }

  lemma {:induction false} ReadsAs(l: Line, s: string)
    requires GoodContent(s) && l.raw != "" && '\n' !in l.raw && l.raw[|l.raw| - 1] == s[|s| - 1] && l.raw[0] != '\t'
    requires TrimStart(l.raw) == s && Trim(l.raw) == s && TrimStartChar(l.raw, ' ') == TrimStartChar(s, ' ')
    requires |l.raw| == l.indent + |s|
    ensures ReadsBack(l)
  {
    assert TrimStartChar(s, ' ') == s;
    assert TrimEndChar(l.raw, '\r') == l.raw;
  }

  lemma BlockReadsBack(indent: nat, l: string)
    requires BlockLineOk(l)
    ensures ReadsBack(BlockLine(indent, l))
  {
    if l != "" {
      TrimStartPad(indent, l);
      TrimStartCharPad(indent, l);
    }
  }

  lemma {:induction false} FlowIsOneLine(words: seq<Word>)
    requires forall i :: 0 <= i < |words| ==> FlowWordOk(words[i])
    ensures '\n' !in FlowInner(words)
  {
    if words != [] {
      WordEnds(words[0]);
      FlowIsOneLine(words[1..]);
    }
  }

  lemma {:induction false} KeyLineIsOneLine(f: Field)
    requires WfField(f)
    ensures '\n' !in KeyLine(f)
  {
    WordEnds(f.key);
    match f.value
    case Inline(w) => WordEnds(w);
    case Block(header, _) => HeaderIsQuiet(header);
    case Flow(words) => FlowIsOneLine(words);
    case _ =>
  }

  lemma {:induction false} DeepBlock(lines: seq<string>, indent: nat)
    requires BlockLinesOk(lines)
    ensures Deep(PrintBlock(lines, indent), indent)
  {
    if lines != [] {
      BlockLineIs(indent, lines[0]);
      BlockReadsBack(indent, lines[0]);
      DeepBlock(lines[1..], indent);
    }
  }

  lemma {:induction false} DeepFields(fields: seq<Field>, indent: nat)
    requires WfFields(fields)
    ensures Deep(PrintFields(fields, indent), indent)
    ensures fields != [] ==> Deep(PrintAfter(fields, indent), indent)
    decreases fields
  {
    if fields != [] {
      DeepKey("", fields[0], indent);
      DeepUnder(fields[0], indent);
      DeepFields(fields[1..], indent);
      DeepBoth(PrintUnder(fields[0], indent), PrintFields(fields[1..], indent), indent);
      DeepBoth([LineAt(indent, KeyLine(fields[0]))], PrintAfter(fields, indent), indent);
    }
  }

  lemma DeepBoth(a: seq<Line>, b: seq<Line>, column: nat)
    requires Deep(a, column) && Deep(b, column)
    ensures Deep(a + b, column)
  {
  }

  /** The line of a key, with or without a dash in front. */
  lemma {:induction false} DeepKey(dash: string, f: Field, indent: nat)
    requires WfField(f) && (dash == "" || dash == "- ")
    ensures Deep([LineAt(indent, dash + KeyLine(f))], indent)
    ensures dash == "" ==> dash + KeyLine(f) == KeyLine(f)
  {
    KeyLineReads(f);
    KeyLineIsOneLine(f);
    DeepDash(dash, KeyLine(f), indent);
  }

  lemma DeepDash(dash: string, s: string, indent: nat)
    requires GoodContent(s) && '\n' !in s && (dash == "" || dash == "- ")
    ensures Deep([LineAt(indent, dash + s)], indent)
    ensures dash == "" ==> dash + s == s
  {
    ContentReadsBack(indent, dash + s);
  }

  lemma {:induction false} DeepUnder(f: Field, indent: nat)
    requires WfField(f)
    ensures Deep(PrintUnder(f, indent), indent)
    decreases f
  {
    DeepBelow(f.value, indent);
  }

  lemma {:induction false} DeepBelow(d: Doc, indent: nat)
    requires WfValue(d)
    ensures Deep(PrintBelow(d, indent), indent)
    decreases d
  {
    match d
    case Block(_, lines) => DeepBlock(lines, indent + 2);
    case Mapping(fields) => DeepFields(fields, indent + 2);
    case Sequence(flush, items) => DeepItems(items, if flush then indent else indent + 2);
    case _ =>
  }

  lemma {:induction false} DeepItems(items: seq<Doc>, indent: nat)
    requires WfItems(items)
    ensures Deep(PrintItems(items, indent), indent)
    decreases items
  {
    if items != [] {
      DeepItem(items[0], indent);
      DeepItems(items[1..], indent);
    }
  }

  lemma {:induction false} DeepItem(d: Doc, indent: nat)
    requires WfItem(d)
    ensures Deep(PrintItem(d, indent), indent)
    decreases d
  {
    match d
    case Inline(w) =>
      WordEnds(w);
      ContentReadsBack(indent, "- " + WordText(w));
    case Mapping(fields) =>
      DeepKey("- ", fields[0], indent);
      DeepFields(fields, indent + 2);
    case Sequence(_, items) =>
      ContentReadsBack(indent, "-");
      DeepItems(items, indent + 2);
  }

  lemma {:induction false} ExtentOf(ls: seq<Line>, rest: seq<Line>, column: nat)
    requires Deep(ls, column) && (rest != [] ==> !Ignorable(rest[0]) && rest[0].indent < column)
    ensures ItemExtent(ls + rest, column) == |ls|
  {
    if ls == [] {
      assert ls + rest == rest;
    } else {
      assert (ls + rest)[1..] == ls[1..] + rest;
      assert (ls + rest)[0] == ls[0];
      ExtentOf(ls[1..], rest, column);
    }
  }

  // -------------------------------------------------------------------------------------------
  // What is left of an item once the ignorable lines at its end are dropped
  // -------------------------------------------------------------------------------------------

  function Settle(d: Doc): Doc {
    match d
    case Block(header, lines) => Block(header, DropComments(lines))
    case Mapping(fields) => Mapping(SettleFields(fields))
    case Sequence(flush, items) => Sequence(flush, SettleItems(items))
    case _ => d
  }

  function SettleField(f: Field): Field {
    Field(f.key, Settle(f.value))
  }

  function SettleFields(fields: seq<Field>): (r: seq<Field>)
    ensures |r| == |fields|
  {
    if |fields| == 0 then []
    else if |fields| == 1 then [SettleField(fields[0])]
    else [fields[0]] + SettleFields(fields[1..])
  }

  function SettleItems(items: seq<Doc>): (r: seq<Doc>)
    ensures |r| == |items|
  {
    if |items| == 0 then []
    else if |items| == 1 then [Settle(items[0])]
    else [items[0]] + SettleItems(items[1..])
  }

  lemma {:induction false} DropAppend(a: seq<Line>, b: seq<Line>)
    ensures DropIgnorable(a + b) == if DropIgnorable(b) == [] then DropIgnorable(a) else a + DropIgnorable(b)
  {
    if b == [] {
      assert a + b == a;
    } else if Ignorable(b[|b| - 1]) {
      assert (a + b)[..|a + b| - 1] == a + b[..|b| - 1];
      DropAppend(a, b[..|b| - 1]);
    }
  }

  lemma {:induction false} DropAfterHead(l: Line, ls: seq<Line>)
    requires !Ignorable(l)
    ensures DropIgnorable([l] + ls) == [l] + DropIgnorable(ls)
  {
    DropAppend([l], ls);
    assert [l] + [] == [l];
  }

  lemma {:induction false} DropBlock(lines: seq<string>, indent: nat)
    requires BlockLinesOk(lines)
    ensures DropIgnorable(PrintBlock(lines, indent)) == PrintBlock(DropComments(lines), indent)
    decreases |lines|
  {
    if lines != [] {
      var init, last := lines[..|lines| - 1], lines[|lines| - 1];
      PrintBlockAppend(init, last, indent);
      assert init + [last] == lines;
      BlockLineIs(indent, last);
      var printed := PrintBlock(lines, indent);
      assert printed[..|printed| - 1] == PrintBlock(init, indent);
      DropBlock(init, indent);
    }
  }

  lemma {:induction false} PrintBlockAppend(lines: seq<string>, last: string, indent: nat)
    ensures PrintBlock(lines + [last], indent) == PrintBlock(lines, indent) + [BlockLine(indent, last)]
  {
    if lines == [] {
      assert lines + [last] == [last];
    } else {
      PrintBlockAppend(lines[1..], last, indent);
      assert (lines + [last])[1..] == lines[1..] + [last];
    }
  }

  lemma {:induction false} SettleKeepsKeyLine(fields: seq<Field>)
    requires fields != []
    ensures KeyLine(SettleFields(fields)[0]) == KeyLine(fields[0])
  {
    assert ValueText(Settle(fields[0].value)) == ValueText(fields[0].value);
  }

  lemma {:induction false} DropFields(fields: seq<Field>, indent: nat)
    requires fields != [] && WfFields(fields)
    ensures DropIgnorable(PrintFields(fields, indent)) == PrintFields(SettleFields(fields), indent)
    ensures DropIgnorable(PrintAfter(fields, indent)) == PrintAfter(SettleFields(fields), indent)
    decreases fields
  {
    FieldLine(fields[0], indent);
    if |fields| == 1 {
      DropUnder(fields[0], indent);
      DropLastField(fields, indent);
    } else {
      DropFields(fields[1..], indent);
      DropFirstField(fields, indent);
    }
    DropKeyed(fields, indent);
  }

  lemma {:induction false} DropLastField(fields: seq<Field>, indent: nat)
    requires |fields| == 1 && DropIgnorable(PrintUnder(fields[0], indent)) == PrintUnder(SettleField(fields[0]), indent)
    ensures DropIgnorable(PrintAfter(fields, indent)) == PrintAfter(SettleFields(fields), indent)
  {
    var settled := SettleFields(fields);
    assert PrintAfter(fields, indent) == PrintUnder(fields[0], indent);
    assert PrintAfter(settled, indent) == PrintUnder(settled[0], indent);
  }

  lemma {:induction false} DropFirstField(fields: seq<Field>, indent: nat)
    requires |fields| > 1
    requires DropIgnorable(PrintFields(fields[1..], indent)) == PrintFields(SettleFields(fields[1..]), indent)
    ensures DropIgnorable(PrintAfter(fields, indent)) == PrintAfter(SettleFields(fields), indent)
  {
    assert SettleFields(fields)[1..] == SettleFields(fields[1..]);
    DropAppend(PrintUnder(fields[0], indent), PrintFields(fields[1..], indent));
  }

  lemma {:induction false} DropKeyed(fields: seq<Field>, indent: nat)
    requires fields != [] && !Ignorable(LineAt(indent, KeyLine(fields[0])))
    requires DropIgnorable(PrintAfter(fields, indent)) == PrintAfter(SettleFields(fields), indent)
    ensures DropIgnorable(PrintFields(fields, indent)) == PrintFields(SettleFields(fields), indent)
  {
    SettleKeepsKeyLine(fields);
    DropAfterHead(LineAt(indent, KeyLine(fields[0])), PrintAfter(fields, indent));
  }

  lemma {:induction false} DropUnder(f: Field, indent: nat)
    requires WfField(f)
    ensures DropIgnorable(PrintUnder(f, indent)) == PrintUnder(SettleField(f), indent)
    decreases f
  {
    DropBelow(f.value, indent);
  }

  lemma {:induction false} DropBelow(d: Doc, indent: nat)
    requires WfValue(d)
    ensures DropIgnorable(PrintBelow(d, indent)) == PrintBelow(Settle(d), indent)
    decreases d
  {
    match d
    case Block(_, lines) => DropBlock(lines, indent + 2);
    case Mapping(fields) => DropFields(fields, indent + 2);
    case Sequence(flush, items) => DropItems(items, if flush then indent else indent + 2);
    case _ =>
  }

  lemma {:induction false} DropItems(items: seq<Doc>, indent: nat)
    requires items != [] && WfItems(items)
    ensures DropIgnorable(PrintItems(items, indent)) == PrintItems(SettleItems(items), indent) != []
    decreases items
  {
    var settled := SettleItems(items);
    if |items| == 1 {
      DropItem(items[0], indent);
      assert PrintItems(items, indent) == PrintItem(items[0], indent);
      assert PrintItems(settled, indent) == PrintItem(settled[0], indent);
    } else {
      DropItems(items[1..], indent);
      assert settled[1..] == SettleItems(items[1..]);
      DropAppend(PrintItem(items[0], indent), PrintItems(items[1..], indent));
    }
  }

  lemma {:induction false} DropItem(d: Doc, indent: nat)
    requires WfItem(d)
    ensures DropIgnorable(PrintItem(d, indent)) == PrintItem(Settle(d), indent) != []
    decreases d
  {
    match d
    case Inline(w) =>
      WordEnds(w);
      DashLine(indent, WordText(w));
    case Mapping(fields) =>
      DropFields(fields, indent + 2);
      DropMappingItem(fields, indent);
    case Sequence(_, items) =>
      DropItems(items, indent + 2);
      BareDashLine(indent);
      DropAfterHead(LineAt(indent, "-"), PrintItems(items, indent + 2));
  }

  lemma {:induction false} DropMappingItem(fields: seq<Field>, indent: nat)
    requires fields != [] && WfFields(fields)
    requires DropIgnorable(PrintAfter(fields, indent + 2)) == PrintAfter(SettleFields(fields), indent + 2)
    ensures DropIgnorable(PrintItem(Mapping(fields), indent)) == PrintItem(Mapping(SettleFields(fields)), indent)
  {
    KeyLineReads(fields[0]);
    DashLine(indent, KeyLine(fields[0]));
    SettleKeepsKeyLine(fields);
    DropAfterHead(LineAt(indent, "- " + KeyLine(fields[0])), PrintAfter(fields, indent + 2));
  }

  // Settling keeps a document well formed and of the same size.

  function Size(d: Doc): nat {
    match d
    case Mapping(fields) => 1 + FieldsSize(fields)
    case Sequence(_, items) => 1 + ItemsSize(items)
    case _ => 1
  }

  function FieldsSize(fields: seq<Field>): nat {
    if fields == [] then 0 else FieldSize(fields[0]) + FieldsSize(fields[1..])
  }

  function FieldSize(f: Field): nat {
    Size(f.value)
  }

  function ItemsSize(items: seq<Doc>): nat {
    if items == [] then 0 else Size(items[0]) + ItemsSize(items[1..])
  }

  lemma {:induction false} DropCommentsOk(lines: seq<string>)
    requires BlockLinesOk(lines) && StartsFlush(lines)
    ensures BlockLinesOk(DropComments(lines)) && StartsFlush(DropComments(lines))
    ensures var r := DropComments(lines); r != [] ==> !LooksIgnorable(r[|r| - 1])
  {
    if lines != [] && LooksIgnorable(lines[|lines| - 1]) {
      StartsFlushInit(lines);
      DropCommentsOk(lines[..|lines| - 1]);
    }
  }

  lemma {:induction false} StartsFlushInit(lines: seq<string>)
    requires lines != [] && StartsFlush(lines)
    ensures StartsFlush(lines[..|lines| - 1])
  {
    if |lines| > 1 && lines[0] == "" {
      StartsFlushInit(lines[1..]);
      assert lines[..|lines| - 1][1..] == lines[1..][..|lines[1..]| - 1];
    }
  }

  lemma {:induction false} SettleOk(d: Doc)
    ensures WfValue(d) ==> WfValue(Settle(d))
    ensures WfItem(d) ==> WfItem(Settle(d))
    ensures Size(Settle(d)) == Size(d)
    decreases d
  {
    match d
    case Block(header, lines) =>
      if BlockOk(header, lines) {
        DropCommentsOk(lines);
        assert LooksIgnorable("");
      }
    case Mapping(fields) => SettleFieldsOk(fields);
    case Sequence(_, items) => SettleItemsOk(items);
    case _ =>
  }

  lemma {:induction false} SettleFieldOk(f: Field)
    ensures WfField(f) ==> WfField(SettleField(f))
    ensures FieldSize(SettleField(f)) == FieldSize(f)
    decreases f
  {
    SettleOk(f.value);
  }

  lemma {:induction false} SettleFieldsAt(fields: seq<Field>, i: nat)
    requires i < |fields|
    ensures SettleFields(fields)[i] == if i == |fields| - 1 then SettleField(fields[i]) else fields[i]
  {
    if i > 0 {
      SettleFieldsAt(fields[1..], i - 1);
    }
  }

  lemma {:induction false} SettleFieldsOk(fields: seq<Field>)
    ensures WfFields(fields) ==> WfFields(SettleFields(fields))
    ensures FieldsSize(SettleFields(fields)) == FieldsSize(fields)
    decreases fields, 1
  {
    SettleFieldsSize(fields);
    var settled := SettleFields(fields);
    forall i | 0 <= i < |fields|
      ensures settled[i].key == fields[i].key && (WfField(fields[i]) ==> WfField(settled[i]))
    {
      SettleFieldsAt(fields, i);
      SettleFieldOk(fields[i]);
    }
    if WfFields(fields) {
      SameKeys(fields, settled);
    }
  }

  lemma SameKeys(fields: seq<Field>, settled: seq<Field>)
    requires DistinctKeys(fields) && |settled| == |fields|
    requires forall i :: 0 <= i < |fields| ==> settled[i].key == fields[i].key
    ensures DistinctKeys(settled)
  {
  }

  lemma {:induction false} SettleFieldsSize(fields: seq<Field>)
    ensures FieldsSize(SettleFields(fields)) == FieldsSize(fields)
    decreases fields, 0
  {
    if |fields| == 1 {
      SettleFieldOk(fields[0]);
    } else if |fields| > 1 {
      SettleFieldsSize(fields[1..]);
      assert SettleFields(fields)[1..] == SettleFields(fields[1..]);
    }
  }

  lemma {:induction false} SettleItemsOk(items: seq<Doc>)
    ensures WfItems(items) ==> WfItems(SettleItems(items))
    ensures ItemsSize(SettleItems(items)) == ItemsSize(items)
    decreases items
  {
    if |items| == 1 {
      SettleOk(items[0]);
    } else if |items| > 1 {
      SettleItemsOk(items[1..]);
      assert SettleItems(items)[1..] == SettleItems(items[1..]);
    }
  }

  // Reading a settled document needs no more lines dropped.

  lemma {:induction false} DropCommentsTwice(lines: seq<string>)
    ensures DropComments(DropComments(lines)) == DropComments(lines)
  {
    if lines != [] && LooksIgnorable(lines[|lines| - 1]) {
      DropCommentsTwice(lines[..|lines| - 1]);
    }
  }

  lemma {:induction false} ReadSettled(d: Doc, tail: bool)
    ensures Read(Settle(d), tail) == Read(d, true)
    decreases d
  {
    match d
    case Block(_, lines) => DropCommentsTwice(lines);
    case Mapping(fields) => ReadSettledFields(fields, tail);
    case Sequence(_, items) => ReadSettledItems(items);
    case _ =>
  }

  lemma {:induction false} ReadSettledField(f: Field, tail: bool)
    ensures ReadField(SettleField(f), tail) == ReadField(f, true)
    decreases f
  {
    ReadSettled(f.value, tail);
  }

  lemma {:induction false} ReadSettledFields(fields: seq<Field>, tail: bool)
    ensures ReadFields(SettleFields(fields), tail) == ReadFields(fields, true)
    decreases fields
  {
    if |fields| == 1 {
      ReadSettledField(fields[0], tail);
    } else if |fields| > 1 {
      ReadSettledFields(fields[1..], tail);
      assert SettleFields(fields)[1..] == SettleFields(fields[1..]);
    }
  }

  lemma {:induction false} ReadSettledItems(items: seq<Doc>)
    ensures ReadItems(SettleItems(items)) == ReadItems(items)
    decreases items
  {
    if |items| == 1 {
      ReadSettled(items[0], true);
    } else if |items| > 1 {
      ReadSettledItems(items[1..]);
      assert SettleItems(items)[1..] == SettleItems(items[1..]);
    }
  }
}
