/**
  Printing a document and parsing the lines gives the tree that `YamlPrint.Read` says: one lemma for each
  kind of value, each for whatever lines may follow it, by induction on the document. `YamlTheorems` draws
  the conclusion for whole texts.
*/
module YamlRoundTrip {
  import opened Text
  import opened Yaml
  import opened YamlPrint
  import opened YamlWords
  import opened YamlLines

  // -------------------------------------------------------------------------------------------
  // One entry, one item
  // -------------------------------------------------------------------------------------------

  lemma {:induction false} MapStep(l: Line, ls: seq<Line>, more: seq<Line>, indent: nat, entries: seq<(string, Yaml)>,
                                   key: string, value: string, node: Yaml)
    requires !Ignorable(l) && l.indent == indent && !IsItem(l) && KeyAndValue(l) == Ok((key, value))
    requires !HasKey(entries, key) && ValueSpec(ls, indent, value) == Parsed(node, more)
    ensures MapSpec([l] + ls, indent, entries) == MapSpec(more, indent, entries + [(key, node)])
  {
    var lines := [l] + ls;
    assert lines[1..] == ls;
    assert SkipIgnorable(lines) == lines;
    assert EntrySpec(lines, indent, entries) == Entry(key, node, more);
  }

  lemma {:induction false} MapEnds(rest: seq<Line>, indent: nat, entries: seq<(string, Yaml)>)
    requires rest == [] || (!Ignorable(rest[0]) && rest[0].indent < indent)
    ensures MapSpec(rest, indent, entries) == Parsed(Map(entries), rest)
  {
  }

  lemma {:induction false} SeqEnds(rest: seq<Line>, indent: nat, items: seq<Yaml>)
    requires Follows(rest, indent)
    ensures SeqSpec(rest, indent, items) == Parsed(Seq(items), rest)
  {
    FollowsHead(rest, indent);
  }

  /** A sequence carries on at its next line that is not ignorable. */
  lemma {:induction false} SeqStep(l: Line, ls: seq<Line>, after: seq<Line>, more: seq<Line>, indent: nat,
                                   items: seq<Yaml>, node: Yaml)
    requires !Ignorable(l) && l.indent == indent && IsItem(l)
    requires ItemSpec([l] + ls, indent) == Parsed(node, after)
    requires SkipIgnorable(after) == SkipIgnorable(more)
    ensures SeqSpec([l] + ls, indent, items) == SeqSpec(more, indent, items + [node])
  {
    var lines := [l] + ls;
    assert SkipIgnorable(lines) == lines;
    assert SeqSpec(lines, indent, items) == SeqSpec(after, indent, items + [node]);
    SeqSkips(after, more, indent, items + [node]);
  }

  lemma {:induction false} SeqSkips(a: seq<Line>, b: seq<Line>, indent: nat, items: seq<Yaml>)
    requires SkipIgnorable(a) == SkipIgnorable(b)
    ensures SeqSpec(a, indent, items) == SeqSpec(b, indent, items)
  {
  }

  /** A block of lines below a key, or below a bare dash. */
  lemma {:induction false} ChildIsNode(l: Line, ls: seq<Line>, indent: nat)
    requires !Ignorable(l) && l.indent > indent
    ensures var p := if IsItem(l) then SeqSpec([l] + ls, l.indent, []) else MapSpec([l] + ls, l.indent, []);
            ChildSpec([l] + ls, indent) == p
  {
    var lines := [l] + ls;
    assert SkipIgnorable(lines) == lines;
    assert NodeSpec(lines, l.indent)
      == if IsItem(l) then SeqSpec(lines, l.indent, []) else MapSpec(lines, l.indent, []);
  }

  lemma {:induction false} ChildIsFlush(l: Line, ls: seq<Line>, indent: nat)
    requires !Ignorable(l) && l.indent == indent && IsItem(l)
    ensures ChildSpec([l] + ls, indent) == SeqSpec([l] + ls, indent, [])
  {
    var lines := [l] + ls;
    assert SkipIgnorable(lines) == lines;
  }

  /** The lines of an item with content `s` and, below it, `ls`. */
  lemma {:induction false} ItemLinesAre(indent: nat, s: string, ls: seq<Line>, rest: seq<Line>)
    requires GoodContent(s) && Deep(ls, indent + 2) && FollowsItem(rest, indent)
    ensures ItemLines([LineAt(indent, "- " + s)] + (ls + rest)) == DropIgnorable([LineAt(indent + 2, s)] + ls)
  {
    var lines := [LineAt(indent, "- " + s)] + (ls + rest);
    DashLine(indent, s);
    ExtentOf(ls, rest, indent + 2);
    assert lines[1..] == ls + rest;
    assert lines[1..][..|ls|] == ls;
  }

  /** An item that begins with a key is the mapping of its own lines. */
  lemma {:induction false} MappingItem(l: Line, ls: seq<Line>, indent: nat, item: seq<Line>, node: Yaml)
    requires AfterDash(l) != "" && SplitKey(StripComment(AfterDash(l))).Ok?
    requires ItemLines([l] + ls) == item && MapSpec(item, ItemColumn(l), []) == Parsed(node, [])
    ensures 0 < |item| <= |ls| + 1 && ItemSpec([l] + ls, indent) == Parsed(node, ls[|item| - 1..])
  {
    ItemKeepsDashLine([l] + ls);
    assert ([l] + ls)[|item|..] == ls[|item| - 1..];
  }

  /** An item that is one word. */
  lemma {:induction false} WordItem(indent: nat, w: Word, rest: seq<Line>)
    requires ItemWordOk(w) && FollowsItem(rest, indent)
    ensures ItemSpec([LineAt(indent, "- " + WordText(w))] + rest, indent) == Parsed(Scalar(w.text), rest)
  {
    var t := WordText(w);
    WordEnds(w);
    DashLine(indent, t);
    ItemWordReads(w);
    ContentLine(indent + 2, t);
    ItemLinesAre(indent, t, [], rest);
    assert [] + rest == rest;
    assert [LineAt(indent + 2, t)] + [] == [LineAt(indent + 2, t)];
    assert ([LineAt(indent, "- " + t)] + rest)[1..] == rest;
  }

  lemma {:induction false} BareItem(indent: nat, ls: seq<Line>)
    ensures ItemSpec([LineAt(indent, "-")] + ls, indent) == ChildSpec(ls, indent)
  {
    BareDashLine(indent);
    assert ([LineAt(indent, "-")] + ls)[1..] == ls;
  }

  lemma {:induction false} SkipDropped(ls: seq<Line>, rest: seq<Line>)
    ensures SkipIgnorable(ls[|DropIgnorable(ls)|..] + rest) == SkipIgnorable(rest)
    decreases |ls|
  {
    if ls == [] || !Ignorable(ls[|ls| - 1]) {
      assert ls[|ls|..] + rest == rest;
    } else {
      var init, last := ls[..|ls| - 1], ls[|ls| - 1];
      SkipDropped(init, [last] + rest);
      SkipOne(last, rest);
      MoveLast(ls, |DropIgnorable(init)|, rest);
    }
  }

  lemma {:induction false} SkipOne(l: Line, ls: seq<Line>)
    requires Ignorable(l)
    ensures SkipIgnorable([l] + ls) == SkipIgnorable(ls)
  {
    assert ([l] + ls)[1..] == ls;
  }

  lemma MoveLast(ls: seq<Line>, k: nat, rest: seq<Line>)
    requires k < |ls|
    ensures ls[..|ls| - 1][k..] + ([ls[|ls| - 1]] + rest) == ls[k..] + rest
  {
  }

  lemma {:induction false} DropIsPrefix(ls: seq<Line>)
    ensures DropIgnorable(ls) == ls[..|DropIgnorable(ls)|]
  {
    if ls != [] && Ignorable(ls[|ls| - 1]) {
      DropIsPrefix(ls[..|ls| - 1]);
    } else {
      assert ls[..|ls|] == ls;
    }
  }

  // -------------------------------------------------------------------------------------------
  // Whole documents
  // -------------------------------------------------------------------------------------------

  predicate NewKeys(entries: seq<(string, Yaml)>, fields: seq<Field>) {
    forall i :: 0 <= i < |fields| ==> !HasKey(entries, fields[i].key.text)
  }

  lemma NewKeysStep(entries: seq<(string, Yaml)>, fields: seq<Field>, node: Yaml)
    requires fields != [] && NewKeys(entries, fields) && DistinctKeys(fields)
    ensures NewKeys(entries + [(fields[0].key.text, node)], fields[1..])
  {
    var more := entries + [(fields[0].key.text, node)];
    forall i | 0 <= i < |fields| - 1
      ensures !HasKey(more, fields[1..][i].key.text)
    {
      assert !HasKey(entries, fields[i + 1].key.text);
      assert fields[0].key.text != fields[i + 1].key.text;
    }
  }

  lemma {:induction false} FollowsFields(fields: seq<Field>, rest: seq<Line>, indent: nat)
    requires WfFields(fields) && Follows(rest, indent)
    ensures Follows(PrintFields(fields, indent) + rest, indent)
  {
    if fields == [] {
      assert PrintFields(fields, indent) + rest == rest;
    } else {
      FieldLine(fields[0], indent);
    }
  }

  /** The printed fields of a mapping are read as its entries, whatever was read before them. */
  lemma {:induction false} FieldsParse(fields: seq<Field>, indent: nat, rest: seq<Line>, entries: seq<(string, Yaml)>)
    requires WfFields(fields) && Follows(rest, indent) && NewKeys(entries, fields)
    ensures MapSpec(PrintFields(fields, indent) + rest, indent, entries)
         == MapSpec(rest, indent, entries + ReadFields(fields, false))
    decreases FieldsSize(fields), |fields|, 0
  {
    if fields == [] {
      assert PrintFields(fields, indent) + rest == rest;
      assert entries + [] == entries;
    } else {
      var f := fields[0];
      var more := PrintFields(fields[1..], indent) + rest;
      WfTail(fields);
      FollowsFields(fields[1..], rest, indent);
      assert FieldsSize(fields) == Size(f.value) + FieldsSize(fields[1..]);
      ValueParse(f.value, indent, more);
      NewKeysStep(entries, fields, Read(f.value, false));
      FieldsParse(fields[1..], indent, rest, entries + [ReadField(f, false)]);
      FieldsJoin(fields, indent, rest, entries);
    }
  }

  lemma {:induction false} WfTail(fields: seq<Field>)
    requires fields != [] && WfFields(fields)
    ensures WfField(fields[0]) && WfFields(fields[1..]) && DistinctKeys(fields)
  {
  }

  /** The first field, then the others. */
  lemma {:induction false} FieldsJoin(fields: seq<Field>, indent: nat, rest: seq<Line>, entries: seq<(string, Yaml)>)
    requires fields != [] && WfField(fields[0]) && NewKeys(entries, fields)
    requires var f, more := fields[0], PrintFields(fields[1..], indent) + rest;
             && ValueSpec(PrintBelow(f.value, indent) + more, indent, ValueText(f.value))
                == Parsed(Read(f.value, false), more)
             && MapSpec(more, indent, entries + [ReadField(f, false)])
                == MapSpec(rest, indent, entries + [ReadField(f, false)] + ReadFields(fields[1..], false))
    ensures MapSpec(PrintFields(fields, indent) + rest, indent, entries)
         == MapSpec(rest, indent, entries + ReadFields(fields, false))
  {
    FieldsStep(fields, indent, PrintFields(fields[1..], indent) + rest, entries);
    PrintFieldsStep(fields, indent, rest);
    ReadFieldsStep(entries, fields);
  }

  lemma {:induction false} FieldsStep(fields: seq<Field>, indent: nat, more: seq<Line>, entries: seq<(string, Yaml)>)
    requires fields != [] && WfField(fields[0]) && NewKeys(entries, fields)
    requires var v := fields[0].value;
             ValueSpec(PrintBelow(v, indent) + more, indent, ValueText(v)) == Parsed(Read(v, false), more)
    ensures MapSpec([LineAt(indent, KeyLine(fields[0]))] + (PrintUnder(fields[0], indent) + more), indent, entries)
         == MapSpec(more, indent, entries + [ReadField(fields[0], false)])
  {
    var f := fields[0];
    FieldLine(f, indent);
    MapStep(LineAt(indent, KeyLine(f)), PrintUnder(f, indent) + more, more, indent, entries,
            f.key.text, ValueText(f.value), Read(f.value, false));
  }

  lemma {:induction false} PrintFieldsStep(fields: seq<Field>, indent: nat, rest: seq<Line>)
    requires fields != []
    ensures PrintFields(fields, indent) + rest
         == [LineAt(indent, KeyLine(fields[0]))]
           + (PrintUnder(fields[0], indent) + (PrintFields(fields[1..], indent) + rest))
  {
    PrintFieldsHead(fields, indent, rest);
    Reassociate(PrintUnder(fields[0], indent), PrintFields(fields[1..], indent), rest);
  }

  lemma {:induction false} ReadFieldsStep(entries: seq<(string, Yaml)>, fields: seq<Field>)
    requires fields != []
    ensures entries + [ReadField(fields[0], false)] + ReadFields(fields[1..], false)
            == entries + ReadFields(fields, false)
  {
  }

  /** A printed value is read back, and nothing after it is touched. */
  lemma {:induction false} ValueParse(d: Doc, indent: nat, rest: seq<Line>)
    requires WfValue(d) && Follows(rest, indent)
    ensures ValueSpec(PrintBelow(d, indent) + rest, indent, ValueText(d)) == Parsed(Read(d, false), rest)
    decreases Size(d), 0, 0
  {
    match d
    case Inline(w) =>
      assert PrintBelow(d, indent) + rest == rest;
      InlineParse(w, indent, rest);
    case Absent =>
      assert PrintBelow(d, indent) + rest == rest;
      FollowsHead(rest, indent);
    case Block(header, lines) =>
      BlockParse(header, lines, indent, rest);
    case Flow(words) =>
      assert PrintBelow(d, indent) + rest == rest;
      FlowParse(words, indent, rest);
    case Mapping(fields) =>
      MappingBelow(fields, indent, rest);
    case Sequence(flush, items) =>
      SequenceParse(items, if flush then indent else indent + 2, rest);
      SequenceBelow(flush, items, indent, rest);
  }

  lemma {:induction false} BlockParse(header: string, lines: seq<string>, indent: nat, rest: seq<Line>)
    requires BlockOk(header, lines) && Follows(rest, indent)
    ensures ValueSpec(PrintBlock(lines, indent + 2) + rest, indent, header)
         == Parsed(Scalar(Join(lines, Separator(header))), rest)
  {
    BlockReads(lines, rest, indent, None);
    BlockTextReads(header, lines);
    HeaderTrims(header);
    BlockValue(PrintBlock(lines, indent + 2) + rest, indent, header);
  }

  lemma {:induction false} BlockValue(ls: seq<Line>, indent: nat, header: string)
    requires BlockIndicator(header).Some?
    ensures var (lines, rest) := BlockLines(ls, indent, None);
            ValueSpec(ls, indent, header) == Parsed(Scalar(BlockText(BlockIndicator(header).value, lines)), rest)
  {
  }

  lemma {:induction false} FlowParse(words: seq<Word>, indent: nat, rest: seq<Line>)
    requires forall i :: 0 <= i < |words| ==> FlowWordOk(words[i])
    ensures ValueSpec(rest, indent, FlowText(words)) == Parsed(Seq(WordItems(words)), rest)
  {
    FlowSeqReads(words);
    FlowIsNoBlock(words);
  }

  lemma {:induction false} MappingBelow(fields: seq<Field>, indent: nat, rest: seq<Line>)
    requires fields != [] && WfFields(fields) && Follows(rest, indent)
    ensures ChildSpec(PrintFields(fields, indent + 2) + rest, indent) == Parsed(Map(ReadFields(fields, false)), rest)
    decreases FieldsSize(fields), |fields|, 2
  {
    FieldsParse(fields, indent + 2, rest, []);
    NothingBefore(ReadFields(fields, false));
    MapEnds(rest, indent + 2, ReadFields(fields, false));
    MappingChild(fields, indent, rest);
  }

  lemma NothingBefore<T>(xs: seq<T>)
    ensures [] + xs == xs
  {
  }

  lemma MappingChild(fields: seq<Field>, indent: nat, rest: seq<Line>)
    requires fields != [] && WfField(fields[0])
    ensures var ls := PrintFields(fields, indent + 2) + rest; ChildSpec(ls, indent) == MapSpec(ls, indent + 2, [])
  {
    FieldLine(fields[0], indent + 2);
    PrintFieldsHead(fields, indent + 2, rest);
    ChildIsNode(LineAt(indent + 2, KeyLine(fields[0])), PrintAfter(fields, indent + 2) + rest, indent);
  }

  lemma {:induction false} PrintFieldsHead(fields: seq<Field>, indent: nat, rest: seq<Line>)
    requires fields != []
    ensures PrintFields(fields, indent) + rest
            == [LineAt(indent, KeyLine(fields[0]))] + (PrintAfter(fields, indent) + rest)
  {
    Reassociate([LineAt(indent, KeyLine(fields[0]))], PrintAfter(fields, indent), rest);
  }

  lemma {:induction false} InlineParse(w: Word, indent: nat, rest: seq<Line>)
    requires ValueWordOk(w)
    ensures ValueSpec(rest, indent, WordText(w)) == Parsed(Scalar(w.text), rest)
  {
    WordEnds(w);
  }

  lemma FlowIsNoBlock(words: seq<Word>)
    ensures BlockIndicator(FlowText(words)).None? && FlowText(words)[0] == '['
  {
    var t := FlowText(words);
    TrimStartId(t);
    TrimEndId(t);
  }

  lemma {:induction false} ItemHead(d: Doc, indent: nat)
    requires WfItem(d)
    ensures PrintItem(d, indent) != []
    ensures var l := PrintItem(d, indent)[0]; !Ignorable(l) && IsItem(l) && l.indent == indent
  {
    match d
    case Inline(w) =>
      WordEnds(w);
      DashLine(indent, WordText(w));
    case Mapping(fields) =>
      KeyLineReads(fields[0]);
      DashLine(indent, KeyLine(fields[0]));
    case Sequence(_, items) =>
      BareDashLine(indent);
  }

  /** A whole printed sequence, followed by something that is not part of it. */
  lemma {:induction false} SequenceParse(items: seq<Doc>, column: nat, rest: seq<Line>)
    requires WfItems(items) && Follows(rest, column)
    ensures SeqSpec(PrintItems(items, column) + rest, column, []) == Parsed(Seq(ReadItems(items)), rest)
    decreases ItemsSize(items), |items|, 2
  {
    ItemsParse(items, column, rest, []);
    assert [] + ReadItems(items) == ReadItems(items);
    SeqEnds(rest, column, ReadItems(items));
  }

  /** The value of a key, or of a bare dash, that is a sequence. */
  lemma SequenceBelow(flush: bool, items: seq<Doc>, indent: nat, rest: seq<Line>)
    requires items != [] && WfItems(items)
    ensures var column := if flush then indent else indent + 2;
            var ls := PrintItems(items, column) + rest;
            ChildSpec(ls, indent) == SeqSpec(ls, column, [])
  {
    var column := if flush then indent else indent + 2;
    var ls := PrintItems(items, column) + rest;
    ItemHead(items[0], column);
    assert ls == [ls[0]] + ls[1..];
    if flush { ChildIsFlush(ls[0], ls[1..], indent); } else { ChildIsNode(ls[0], ls[1..], indent); }
  }

  lemma {:induction false} FollowsItems(items: seq<Doc>, rest: seq<Line>, indent: nat)
    requires WfItems(items) && FollowsItem(rest, indent)
    ensures FollowsItem(PrintItems(items, indent) + rest, indent)
  {
    if items == [] {
      assert PrintItems(items, indent) + rest == rest;
    } else {
      ItemHead(items[0], indent);
    }
  }

  /** The printed items of a sequence are read one by one, whatever was read before them. */
  lemma {:induction false} ItemsParse(items: seq<Doc>, indent: nat, rest: seq<Line>, before: seq<Yaml>)
    requires WfItems(items) && FollowsItem(rest, indent)
    ensures SeqSpec(PrintItems(items, indent) + rest, indent, before)
         == SeqSpec(rest, indent, before + ReadItems(items))
    decreases ItemsSize(items), |items|, 1
  {
    if items == [] {
      assert PrintItems(items, indent) + rest == rest;
      assert before + [] == before;
    } else {
      var d := items[0];
      var more := PrintItems(items[1..], indent) + rest;
      FollowsItems(items[1..], rest, indent);
      assert ItemsSize(items) == Size(d) + ItemsSize(items[1..]);
      var after := ItemParse(d, indent, more);
      ItemsStep(d, indent, more, after, before);
      ItemsParse(items[1..], indent, rest, before + [Read(d, true)]);
      PrintItemsStep(items, indent, rest, before);
    }
  }

  lemma {:induction false} PrintItemsStep(items: seq<Doc>, indent: nat, rest: seq<Line>, before: seq<Yaml>)
    requires items != []
    ensures PrintItems(items, indent) + rest == PrintItem(items[0], indent) + (PrintItems(items[1..], indent) + rest)
    ensures before + [Read(items[0], true)] + ReadItems(items[1..]) == before + ReadItems(items)
  {
  }

  lemma {:induction false} ItemsStep(d: Doc, indent: nat, more: seq<Line>, after: seq<Line>, before: seq<Yaml>)
    requires WfItem(d) && ItemSpec(PrintItem(d, indent) + more, indent) == Parsed(Read(d, true), after)
    requires SkipIgnorable(after) == SkipIgnorable(more)
    ensures SeqSpec(PrintItem(d, indent) + more, indent, before) == SeqSpec(more, indent, before + [Read(d, true)])
  {
    ItemHead(d, indent);
    var ls := PrintItem(d, indent) + more;
    assert ls == [ls[0]] + ls[1..];
    SeqStep(ls[0], ls[1..], after, more, indent, before, Read(d, true));
  }

  /** A printed item is read back, up to the ignorable lines at its end. */
  lemma ItemParse(d: Doc, indent: nat, rest: seq<Line>) returns (after: seq<Line>)
    requires WfItem(d) && FollowsItem(rest, indent)
    ensures ItemSpec(PrintItem(d, indent) + rest, indent) == Parsed(Read(d, true), after)
    ensures SkipIgnorable(after) == SkipIgnorable(rest)
    decreases Size(d), 0, 0
  {
    match d
    case Inline(w) =>
      WordItem(indent, w, rest);
      after := rest;
    case Mapping(fields) =>
      after := MappingParse(fields, indent, rest);
    case Sequence(flush, items) =>
      SequenceParse(items, indent + 2, rest);
      SequenceItem(flush, items, indent, rest);
      after := rest;
  }

  lemma {:induction false} SequenceItem(flush: bool, items: seq<Doc>, indent: nat, rest: seq<Line>)
    requires items != [] && WfItems(items)
    ensures ItemSpec(PrintItem(Sequence(flush, items), indent) + rest, indent)
         == SeqSpec(PrintItems(items, indent + 2) + rest, indent + 2, [])
  {
    SequenceBelow(false, items, indent, rest);
    BareItem(indent, PrintItems(items, indent + 2) + rest);
    Reassociate([LineAt(indent, "-")], PrintItems(items, indent + 2), rest);
  }

  lemma MappingParse(fields: seq<Field>, indent: nat, rest: seq<Line>) returns (after: seq<Line>)
    requires fields != [] && WfFields(fields) && FollowsItem(rest, indent)
    ensures ItemSpec(PrintItem(Mapping(fields), indent) + rest, indent) == Parsed(Map(ReadFields(fields, true)), after)
    ensures SkipIgnorable(after) == SkipIgnorable(rest)
    decreases FieldsSize(fields), |fields|, 2
  {
    SettledParse(fields, indent + 2);
    after := MappingItemParse(fields, indent, rest);
  }

  lemma MappingItemParse(fields: seq<Field>, indent: nat, rest: seq<Line>) returns (after: seq<Line>)
    requires fields != [] && WfFields(fields) && FollowsItem(rest, indent)
    requires MapSpec(PrintFields(SettleFields(fields), indent + 2), indent + 2, [])
             == Parsed(Map(ReadFields(fields, true)), [])
    ensures ItemSpec(PrintItem(Mapping(fields), indent) + rest, indent) == Parsed(Map(ReadFields(fields, true)), after)
    ensures SkipIgnorable(after) == SkipIgnorable(rest)
  {
    var s, ls := KeyLine(fields[0]), PrintAfter(fields, indent + 2);
    var item := PrintFields(SettleFields(fields), indent + 2);
    KeyLineReads(fields[0]);
    DashLine(indent, s);
    DeepFields(fields, indent + 2);
    DropFields(fields, indent + 2);
    ItemLinesAre(indent, s, ls, rest);
    MappingItem(LineAt(indent, "- " + s), ls + rest, indent, item, Map(ReadFields(fields, true)));
    PrintMappingItem(fields, indent, rest);
    after := (ls + rest)[|item| - 1..];
    SkipAfterItem(LineAt(indent + 2, s), ls, rest);
  }

  lemma {:induction false} PrintMappingItem(fields: seq<Field>, indent: nat, rest: seq<Line>)
    requires fields != []
    ensures PrintItem(Mapping(fields), indent) + rest
         == [LineAt(indent, "- " + KeyLine(fields[0]))] + (PrintAfter(fields, indent + 2) + rest)
    ensures PrintFields(fields, indent + 2) == [LineAt(indent + 2, KeyLine(fields[0]))] + PrintAfter(fields, indent + 2)
  {
    Reassociate([LineAt(indent, "- " + KeyLine(fields[0]))], PrintAfter(fields, indent + 2), rest);
  }

  /** Past the lines an item keeps there are only ignorable ones before what follows the item. */
  lemma {:induction false} SkipAfterItem(l: Line, ls: seq<Line>, rest: seq<Line>)
    requires 0 < |DropIgnorable([l] + ls)| <= |ls| + 1
    ensures SkipIgnorable((ls + rest)[|DropIgnorable([l] + ls)| - 1..]) == SkipIgnorable(rest)
  {
    SkipDropped([l] + ls, rest);
    AfterItem(l, ls, |DropIgnorable([l] + ls)|, rest);
  }

  lemma Reassociate(a: seq<Line>, b: seq<Line>, c: seq<Line>)
    ensures a + b + c == a + (b + c)
  {
  }

  lemma AfterItem(l: Line, ls: seq<Line>, n: nat, rest: seq<Line>)
    requires 0 < n <= |ls| + 1
    ensures (ls + rest)[n - 1..] == ([l] + ls)[n..] + rest
  {
  }

  /** The lines an item keeps are read as its mapping, the comment-like lines at its end being gone. */
  lemma {:induction false} SettledParse(fields: seq<Field>, indent: nat)
    requires WfFields(fields)
    ensures MapSpec(PrintFields(SettleFields(fields), indent), indent, []) == Parsed(Map(ReadFields(fields, true)), [])
    decreases FieldsSize(fields), |fields|, 1
  {
    var settled := SettleFields(fields);
    SettleFieldsOk(fields);
    FieldsParse(settled, indent, [], []);
    ReadSettledFields(fields, false);
    assert PrintFields(settled, indent) + [] == PrintFields(settled, indent);
    assert [] + ReadFields(settled, false) == ReadFields(fields, true);
    MapEnds([], indent, ReadFields(fields, true));
  }
}
