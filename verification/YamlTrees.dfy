/** The parser on trees: every well-formed tree can be written and read back, and no line of an item is left unread. */
module YamlTrees {
  import opened Text
  import opened Yaml
  import opened YamlPrint
  import opened YamlWords
  import opened YamlLines
  import opened YamlRoundTrip
  import opened YamlTheorems

  // -------------------------------------------------------------------------------------------
  // Canonical block style
  // -------------------------------------------------------------------------------------------

  /** The three ways to write a text on one line. */
  function Written(t: string, i: int): Word {
    if i == 0 then Plain(t) else if i == 1 then Quoted('"', t) else Quoted('\'', t)
  }

  /** A text that can stand behind a key's colon on the key's own line. */
  predicate ValueLine(t: string) {
    ValueWordOk(Written(t, 0)) || ValueWordOk(Written(t, 1)) || ValueWordOk(Written(t, 2))
  }

  function ValueWord(t: string): Word {
    Written(t, if ValueWordOk(Written(t, 0)) then 0 else if ValueWordOk(Written(t, 1)) then 1 else 2)
  }

  /** A text that can stand behind a dash. */
  predicate ItemLine(t: string) {
    ItemWordOk(Written(t, 0)) || ItemWordOk(Written(t, 1)) || ItemWordOk(Written(t, 2))
  }

  function ItemWord(t: string): Word {
    Written(t, if ItemWordOk(Written(t, 0)) then 0 else if ItemWordOk(Written(t, 1)) then 1 else 2)
  }

  /** A text that can be a key. */
  predicate KeyText(t: string) {
    KeyOk(Written(t, 0)) || KeyOk(Written(t, 1)) || KeyOk(Written(t, 2))
  }

  function KeyWord(t: string): Word {
    Written(t, if KeyOk(Written(t, 0)) then 0 else if KeyOk(Written(t, 1)) then 1 else 2)
  }

  function SplitNewlines(t: string): (ls: seq<string>)
    ensures ls != []
  {
    var n := LineLength(t);
    if n == |t| then [t] else [t[..n]] + SplitNewlines(t[n + 1..])
  }

  predicate DistinctEntries(entries: seq<(string, Yaml)>) {
    forall i, j :: 0 <= i < j < |entries| ==> entries[i].0 != entries[j].0
  }

  /** A tree that can stand below a key. */
  predicate WellFormed(y: Yaml) {
    match y
    case Scalar(t) => ValueLine(t) || BlockOk("|", SplitNewlines(t))
    case Seq(items) => WellFormedItems(items)
    case Map(entries) => entries != [] && WellFormedEntries(entries)
  }

  /** A tree that can stand behind a dash. */
  predicate WellFormedItem(y: Yaml) {
    match y
    case Scalar(t) => ItemLine(t)
    case Seq(items) => items != [] && WellFormedItems(items)
    case Map(entries) => entries != [] && WellFormedEntries(entries)
  }

  predicate WellFormedItems(items: seq<Yaml>) {
    forall i :: 0 <= i < |items| ==> WellFormedItem(items[i])
  }

  predicate WellFormedEntries(entries: seq<(string, Yaml)>) {
    DistinctEntries(entries) && forall i :: 0 <= i < |entries| ==> WellFormedEntry(entries[i])
  }

  predicate WellFormedEntry(e: (string, Yaml)) {
    KeyText(e.0) && WellFormed(e.1)
  }

  function Style(y: Yaml): Doc {
    match y
    case Scalar(t) => if ValueLine(t) then Inline(ValueWord(t)) else Block("|", SplitNewlines(t))
    case Seq(items) => if items == [] then Flow([]) else Sequence(false, StyleItems(items))
    case Map(entries) => Mapping(StyleFields(entries))
  }

  function StyleItem(y: Yaml): Doc {
    match y
    case Scalar(t) => Inline(ItemWord(t))
    case Seq(items) => Sequence(false, StyleItems(items))
    case Map(entries) => Mapping(StyleFields(entries))
  }

  function StyleItems(items: seq<Yaml>): (r: seq<Doc>)
    ensures |r| == |items|
  {
    if items == [] then [] else [StyleItem(items[0])] + StyleItems(items[1..])
  }

  function StyleFields(entries: seq<(string, Yaml)>): (r: seq<Field>)
    ensures |r| == |entries|
  {
    if entries == [] then [] else [StyleField(entries[0])] + StyleFields(entries[1..])
  }

  function StyleField(e: (string, Yaml)): Field {
    Field(KeyWord(e.0), Style(e.1))
  }

  /** Text that the parser can meet in one piece on a line, without a comment. */
  predicate LineText(s: string) {
    s != "" && !IsWhite(s[0]) && !IsWhite(s[|s| - 1]) && '\n' !in s && CodeLength(s, None, true) == |s|
  }

  lemma WrittenAs(s: string)
    requires LineText(s)
    ensures exists i | 0 <= i < 3 :: WordOk(Written(Unquote(s), i)) && WordText(Written(Unquote(s), i)) == s
  {
    TrimStartId(s);
    TrimEndId(s);
    var t := Unquote(s);
    if t == s {
      assert WordText(Written(t, 0)) == s;
    } else {
      var i := if s[0] == '"' then 1 else 2;
      assert s == [s[0]] + t + [s[0]];
      assert WordText(Written(t, i)) == s;
    }
  }

  /** The parser reads the line text `s` behind a key as the scalar `t`. */
  predicate ValueReads(s: string, t: string) {
    LineText(s) && BlockIndicator(s).None? && ValueSpec([], 0, s) == Parsed(Scalar(t), [])
  }

  lemma ValueReadsIff(s: string, t: string)
    ensures ValueReads(s, t)
       <==> LineText(s) && BlockIndicator(s).None? && s[0] != '[' && s[0] != '{' && Unquote(s) == t
  {
  }

  /** The texts a tree may have for the scalars behind its keys are all that the parser reads from one line. */
  lemma ValueLineIff(t: string)
    ensures ValueLine(t) <==> exists s: string :: ValueReads(s, t)
  {
    if ValueLine(t) {
      ValueReadsIff(WordText(ValueWord(t)), t);
    }
    if s: string :| ValueReads(s, t) {
      ValueReadsIff(s, t);
      WrittenAs(s);
    }
  }

  /** The parser reads the line text `s` behind a dash as the scalar `t`. */
  predicate ItemReads(s: string, t: string) {
    LineText(s) && ItemSpec([LineAt(0, "- " + s)], 0) == Parsed(Scalar(t), [])
  }

  lemma ItemReadsIff(s: string, t: string)
    ensures ItemReads(s, t) <==> LineText(s) && SplitKey(s).Err? && Unquote(s) == t
  {
    if LineText(s) {
      DashLine(0, s);
      OneLineItem(s);
      MapIsMap(ItemLines([LineAt(0, "- " + s)]), 2, []);
    }
  }

  /** The item list of a dash line by itself. */
  lemma OneLineItem(s: string)
    requires LineText(s)
    ensures |ItemLines([LineAt(0, "- " + s)])| == 1
  {
    ContentLine(2, s);
    ItemLinesAre(0, s, [], []);
    assert [LineAt(0, "- " + s)] + ([] + []) == [LineAt(0, "- " + s)];
    assert [LineAt(2, s)] + [] == [LineAt(2, s)];
  }

  lemma {:induction false} MapIsMap(ls: seq<Line>, indent: nat, entries: seq<(string, Yaml)>)
    ensures MapSpec(ls, indent, entries).Parsed? ==> MapSpec(ls, indent, entries).node.Map?
    decreases |ls|
  {
    var next := SkipIgnorable(ls);
    if next != [] && next[0].indent == indent && !IsItem(next[0]) && EntrySpec(next, indent, entries).Entry? {
      var e := EntrySpec(next, indent, entries);
      MapIsMap(e.rest, indent, entries + [(e.key, e.node)]);
    }
  }

  /** The texts a tree may have for the scalars behind its dashes are all that the parser reads there. */
  lemma ItemLineIff(t: string)
    ensures ItemLine(t) <==> exists s: string :: ItemReads(s, t)
  {
    if ItemLine(t) {
      ItemReadsIff(WordText(ItemWord(t)), t);
    }
    if s: string :| ItemReads(s, t) {
      ItemReadsIff(s, t);
      WrittenAs(s);
    }
  }

  /** The parser reads the line text `s`, a colon behind it, as the key `t`. */
  predicate KeyReads(s: string, t: string) {
    LineText(s) && MapSpec([LineAt(0, s + ":")], 0, []) == Parsed(Map([(t, Scalar(""))]), [])
  }

  lemma {:induction false} KeyReadsIff(s: string, t: string)
    ensures KeyReads(s, t) <==>
            LineText(s) && !("- " <= s) && KeyLength(s + ":", None) == |s| && Unquote(s) == t != ""
  {
    if LineText(s) {
      KeyLineKind(s);
      KeyLineSplits(s);
      KeyOfLine(LineAt(0, s + ":"), t);
    }
  }

  lemma KeyLineKind(s: string)
    requires LineText(s)
    ensures var l := LineAt(0, s + ":"); !Ignorable(l) && Trim(l.raw) == s + ":" && (IsItem(l) <==> "- " <= s)
  {
    ContentLine(0, s + ":");
  }

  /** How a line text with a colon behind it splits. */
  lemma {:induction false} KeyLineSplits(s: string)
    requires LineText(s) && Trim(LineAt(0, s + ":").raw) == s + ":"
    ensures var l, n := LineAt(0, s + ":"), KeyLength(s + ":", None);
            && (n == |s| ==> KeyAndValue(l) == if Unquote(s) == "" then Err(EmptyKey) else Ok((Unquote(s), "")))
            && (n != |s| && KeyAndValue(l).Ok? ==> EndsInColon(KeyAndValue(l).value.1))
  {
    CodeScan(s, ":", None, true);
    assert ":"[1..] == "";
    assert StripComment(s + ":") == s + ":";
    ColonSplits(s);
  }

  lemma ColonSplits(s: string)
    requires s != "" && !IsWhite(s[0]) && !IsWhite(s[|s| - 1])
    ensures var c := s + ":";
            && (KeyLength(c, None) == |s| ==>
                  SplitKey(c) == if Unquote(s) == "" then Err(EmptyKey) else Ok((Unquote(s), "")))
            && (KeyLength(c, None) != |s| && SplitKey(c).Ok? ==> EndsInColon(SplitKey(c).value.1))
  {
    var c := s + ":";
    var n := KeyLength(c, None);
    TrimStartId(s);
    TrimEndId(s);
    if n == |s| {
      assert c[..n] == s && c[n + 1..] == "";
    } else if n < |s| {
      TrimmedEnd(c[n + 1..]);
    }
  }

  predicate EndsInColon(s: string) { s != "" && s[|s| - 1] == ':' && Trim(s) == s }

  lemma {:induction false} TrimmedEnd(s: string)
    requires s != "" && s[|s| - 1] == ':'
    ensures EndsInColon(Trim(s))
  {
    TrimEndId(s);
    if IsWhite(s[0]) {
      TrimmedEnd(s[1..]);
    } else {
      TrimStartId(s);
    }
  }

  /** A value that ends in a colon is not the empty scalar. */
  lemma {:induction false} ColonIsSomething(value: string)
    requires EndsInColon(value)
    ensures var p := ValueSpec([], 0, value); p.Parsed? ==> p.node != Scalar("")
  {
    if BlockIndicator(value).Some? { NoColonInHeader(value[1..], false, false); }
  }

  lemma {:induction false} NoColonInHeader(s: string, seenChomp: bool, seenIndent: bool)
    requires IndicatorsOk(s, seenChomp, seenIndent)
    ensures ':' !in s
  {
    if s != "" {
      var chomp := (s[0] == '-' || s[0] == '+') && !seenChomp;
      NoColonInHeader(s[1..], seenChomp || chomp, seenIndent || !chomp);
    }
  }

  /** What a mapping reads from one line. */
  lemma MapOfLine(l: Line)
    requires !Ignorable(l) && l.indent == 0
    ensures var p, kv := MapSpec([l], 0, []), KeyAndValue(l);
            if IsItem(l) || kv.Err? || ValueSpec([], 0, kv.value.1).Refused? then p.Refused?
            else p == Parsed(Map([(kv.value.0, ValueSpec([], 0, kv.value.1).node)]), [])
  {
    assert [l][1..] == [];
    if !IsItem(l) && KeyAndValue(l).Ok? && ValueSpec([], 0, KeyAndValue(l).value.1).Parsed? {
      var kv, v := KeyAndValue(l).value, ValueSpec([], 0, KeyAndValue(l).value.1);
      MapStep(l, [], v.rest, 0, [], kv.0, kv.1, v.node);
      assert [l] + [] == [l] && [] + [(kv.0, v.node)] == [(kv.0, v.node)];
      MapEnds(v.rest, 0, [(kv.0, v.node)]);
    }
  }

  lemma KeyOfLine(l: Line, t: string)
    requires !Ignorable(l) && l.indent == 0
    requires KeyAndValue(l).Ok? ==> KeyAndValue(l).value.1 == "" || EndsInColon(KeyAndValue(l).value.1)
    ensures MapSpec([l], 0, []) == Parsed(Map([(t, Scalar(""))]), []) <==> !IsItem(l) && KeyAndValue(l) == Ok((t, ""))
  {
    MapOfLine(l);
    if KeyAndValue(l).Ok? {
      var v := KeyAndValue(l).value.1;
      if v == "" { NoValue(); } else { ColonIsSomething(v); }
    }
    OnlyEntry();
  }

  lemma NoValue()
    ensures ValueSpec([], 0, "") == Parsed(Scalar(""), [])
  {
  }

  lemma OnlyEntry()
    ensures forall k: string, n: Yaml, t: string, m: Yaml :: Map([(k, n)]) == Map([(t, m)]) ==> k == t && n == m
  {
    forall k: string, n: Yaml, t: string, m: Yaml | Map([(k, n)]) == Map([(t, m)]) ensures k == t && n == m {
      assert [(k, n)][0] == [(t, m)][0];
    }
  }

  /** The texts a tree may have for its keys are all that the parser reads as keys. */
  lemma KeyTextIff(t: string)
    ensures KeyText(t) <==> exists s: string :: KeyReads(s, t)
  {
    if KeyText(t) {
      KeyReadsIff(WordText(KeyWord(t)), t);
    }
    if s: string :| KeyReads(s, t) {
      KeyReadsIff(s, t);
      WrittenAs(s);
    }
  }

  lemma {:induction false} JoinSplit(t: string)
    ensures Join(SplitNewlines(t), "\n") == t
  {
    var n := LineLength(t);
    if n < |t| {
      JoinSplit(t[n + 1..]);
      JoinFirst(t[..n], SplitNewlines(t[n + 1..]), "\n");
      CutAtNewline(t, n);
    }
  }

  lemma CutAtNewline(t: string, n: nat)
    requires n < |t| && t[n] == '\n'
    ensures t[..n] + "\n" + t[n + 1..] == t
  {
  }

  lemma {:induction false} JoinFirst(l: string, ls: seq<string>, sep: string)
    requires ls != []
    ensures Join([l] + ls, sep) == l + sep + Join(ls, sep)
  {
    assert ([l] + ls)[1..] == ls;
  }

  lemma {:induction false} LiteralStyle(t: string)
    requires BlockOk("|", SplitNewlines(t))
    ensures Denote(Block("|", SplitNewlines(t))) == Scalar(t)
  {
    JoinSplit(t);
    PlainWordTrims("|");
    assert BlockIndicator("|") == Some(false);
  }

  /** The style of a well-formed tree is a document that stands for it. */
  lemma {:induction false} StyleStands(y: Yaml)
    ensures WellFormed(y) ==> WfValue(Style(y)) && Denote(Style(y)) == y
    ensures WellFormedItem(y) ==> WfItem(StyleItem(y)) && Denote(StyleItem(y)) == y
    decreases y
  {
    match y
    case Scalar(t) => ScalarStands(t);
    case Seq(items) => ItemsStand(items);
    case Map(entries) => FieldsStand(entries);
  }

  lemma ScalarStands(t: string)
    ensures WellFormed(Scalar(t)) ==> WfValue(Style(Scalar(t))) && Denote(Style(Scalar(t))) == Scalar(t)
    ensures WellFormedItem(Scalar(t)) ==> WfItem(StyleItem(Scalar(t))) && Denote(StyleItem(Scalar(t))) == Scalar(t)
  {
    if BlockOk("|", SplitNewlines(t)) {
      LiteralStyle(t);
    }
  }

  lemma {:induction false} ItemsStand(items: seq<Yaml>)
    ensures WellFormedItems(items) ==> WfItems(StyleItems(items)) && DenoteItems(StyleItems(items)) == items
    decreases items
  {
    if items != [] && WellFormedItems(items) {
      StyleStands(items[0]);
      ItemsStand(items[1..]);
      ItemsStandStep(items);
    }
  }

  lemma {:induction false} ItemsStandStep(items: seq<Yaml>)
    requires items != [] && WfItem(StyleItem(items[0])) && Denote(StyleItem(items[0])) == items[0]
    requires WfItems(StyleItems(items[1..])) && DenoteItems(StyleItems(items[1..])) == items[1..]
    ensures WfItems(StyleItems(items)) && DenoteItems(StyleItems(items)) == items
  {
  }

  lemma {:induction false} FieldStands(e: (string, Yaml))
    requires WellFormedEntry(e)
    ensures WfField(StyleField(e)) && DenoteField(StyleField(e)) == e && StyleField(e).key.text == e.0
    decreases e
  {
    StyleStands(e.1);
  }

  lemma {:induction false} FieldsStand(entries: seq<(string, Yaml)>)
    ensures WellFormedEntries(entries) ==>
            WfFields(StyleFields(entries)) && DenoteFields(StyleFields(entries)) == entries
    decreases entries
  {
    if entries != [] && WellFormedEntries(entries) {
      FieldStands(entries[0]);
      WellFormedTail(entries);
      FieldsStand(entries[1..]);
      StyledKeys(entries);
      StyleFirst(entries);
      FieldsStandStep(StyleField(entries[0]), StyleFields(entries[1..]), entries[0], entries[1..]);
    }
  }

  lemma {:induction false} WellFormedTail(entries: seq<(string, Yaml)>)
    requires entries != [] && WellFormedEntries(entries)
    ensures WellFormedEntries(entries[1..])
  {
  }

  lemma {:induction false} FieldsStandStep(f: Field, fields: seq<Field>, e: (string, Yaml),
                                           entries: seq<(string, Yaml)>)
    requires WfField(f) && DenoteField(f) == e && WfFields(fields) && DenoteFields(fields) == entries
    requires DistinctKeys([f] + fields)
    ensures WfFields([f] + fields) && DenoteFields([f] + fields) == [e] + entries
  {
    assert ([f] + fields)[1..] == fields;
  }

  lemma {:induction false} StyleFirst(entries: seq<(string, Yaml)>)
    requires entries != []
    ensures StyleFields(entries) == [StyleField(entries[0])] + StyleFields(entries[1..])
    ensures entries == [entries[0]] + entries[1..]
  {
  }

  lemma {:induction false} StyledKeyAt(entries: seq<(string, Yaml)>, i: nat)
    requires i < |entries|
    ensures StyleFields(entries)[i].key.text == entries[i].0
  {
    if i > 0 { StyledKeyAt(entries[1..], i - 1); }
  }

  lemma {:induction false} StyledKeys(entries: seq<(string, Yaml)>)
    requires DistinctEntries(entries)
    ensures DistinctKeys(StyleFields(entries))
  {
    forall i | 0 <= i < |entries| ensures StyleFields(entries)[i].key.text == entries[i].0 {
      StyledKeyAt(entries, i);
    }
  }

  /** Any well-formed tree, at any nesting of mappings and sequences, is read back from its canonical
      text, exactly when no item of it ends in a literal block whose last line looks like a comment. */
  lemma {:induction false} TreeRoundTrip(y: Yaml)
    requires WellFormed(y) && !y.Scalar? && y != Seq([])
    ensures ParseSpec(Print(Style(y))) == Ok(y) <==> !LosesLines(Style(y))
  {
    StyleStands(y);
    RoundTrip(Style(y));
  }

  // -------------------------------------------------------------------------------------------
  // What every successful parse guarantees
  // -------------------------------------------------------------------------------------------

  /** Every mapping in the tree has distinct keys, none of them empty. */
  predicate KeysOk(y: Yaml) {
    match y
    case Scalar(_) => true
    case Seq(items) => forall i :: 0 <= i < |items| ==> KeysOk(items[i])
    case Map(entries) => EntriesOk(entries)
  }

  predicate EntriesOk(entries: seq<(string, Yaml)>) {
    && DistinctEntries(entries)
    && forall i :: 0 <= i < |entries| ==> EntryOk(entries[i])
  }

  predicate EntryOk(e: (string, Yaml)) {
    e.0 != "" && KeysOk(e.1)
  }

  predicate ItemsOk(items: seq<Yaml>) {
    forall i :: 0 <= i < |items| ==> KeysOk(items[i])
  }

  predicate Suffix(r: seq<Line>, ls: seq<Line>) {
    |r| <= |ls| && r == ls[|ls| - |r|..]
  }

  /** A parse stops at a line of its own input, and its tree's keys are in order. */
  predicate Sound(p: Parsed, ls: seq<Line>) {
    p.Parsed? ==> Suffix(p.rest, ls) && KeysOk(p.node)
  }

  lemma SuffixTrans(a: seq<Line>, b: seq<Line>, c: seq<Line>)
    requires Suffix(a, b) && Suffix(b, c)
    ensures Suffix(a, c)
  {
  }

  lemma SoundFromSuffix(p: Parsed, b: seq<Line>, c: seq<Line>)
    requires Sound(p, b) && Suffix(b, c)
    ensures Sound(p, c)
  {
    if p.Parsed? { SuffixTrans(p.rest, b, c); }
  }

  lemma {:induction false} SkipSuffix(ls: seq<Line>)
    ensures Suffix(SkipIgnorable(ls), ls)
  {
    if ls != [] && Ignorable(ls[0]) {
      SkipSuffix(ls[1..]);
      SuffixTrans(SkipIgnorable(ls), ls[1..], ls);
    } else {
      assert ls[0..] == ls;
    }
  }

  lemma {:induction false} BlockSuffix(ls: seq<Line>, indent: nat, base: Option<nat>)
    ensures Suffix(BlockLines(ls, indent, base).1, ls)
  {
    if ls != [] {
      if Trim(ls[0].raw) == "" {
        BlockSuffix(ls[1..], indent, base);
        SuffixTrans(BlockLines(ls[1..], indent, base).1, ls[1..], ls);
      } else if ls[0].indent > indent {
        var b := if base.Some? then base.value else ls[0].indent;
        BlockSuffix(ls[1..], indent, Some(b));
        SuffixTrans(BlockLines(ls[1..], indent, Some(b)).1, ls[1..], ls);
      } else {
        assert ls[0..] == ls;
      }
    }
  }

  lemma {:induction false} FlowItemsOk(parts: seq<string>)
    ensures ItemsOk(FlowItems(parts))
  {
    if parts != [] {
      FlowItemsOk(parts[1..]);
    }
  }

  lemma {:induction false} NodeSound(ls: seq<Line>, indent: nat)
    ensures Sound(NodeSpec(ls, indent), ls)
    decreases |ls|, 4
  {
    var next := SkipIgnorable(ls);
    SkipSuffix(ls);
    if next != [] {
      SeqSound(next, indent, []);
      MapSound(next, indent, []);
      var p := NodeSpec(ls, indent);
      if p.Parsed? { SuffixTrans(p.rest, next, ls); }
    }
  }

  lemma {:induction false} MapSound(ls: seq<Line>, indent: nat, entries: seq<(string, Yaml)>)
    requires EntriesOk(entries)
    ensures Sound(MapSpec(ls, indent, entries), ls)
    decreases |ls|, 1
  {
    var next := SkipIgnorable(ls);
    SkipSuffix(ls);
    if next != [] && next[0].indent == indent && !IsItem(next[0]) {
      EntrySound(next, indent, entries);
      match EntrySpec(next, indent, entries)
      case BadEntry(_) =>
      case Entry(key, node, rest) =>
        MapSound(rest, indent, entries + [(key, node)]);
        var p := MapSpec(rest, indent, entries + [(key, node)]);
        if p.Parsed? {
          SuffixTrans(p.rest, rest, next);
          SuffixTrans(p.rest, next, ls);
        }
    }
  }

  lemma {:induction false} EntrySound(ls: seq<Line>, indent: nat, entries: seq<(string, Yaml)>)
    requires ls != [] && EntriesOk(entries)
    ensures match EntrySpec(ls, indent, entries)
            case BadEntry(_) => true
            case Entry(key, node, rest) => Suffix(rest, ls) && EntriesOk(entries + [(key, node)])
    decreases |ls|, 0
  {
    match EntrySpec(ls, indent, entries)
    case BadEntry(_) =>
    case Entry(key, node, rest) =>
      var value := KeyAndValue(ls[0]).value.1;
      ValueSound(ls[1..], indent, value);
      EntryIs(ls, indent, entries, value);
      SuffixTrans(rest, ls[1..], ls);
      OneMoreEntry(entries, key, node);
  }

  /** What an accepted entry is made of. */
  lemma {:induction false} EntryIs(ls: seq<Line>, indent: nat, entries: seq<(string, Yaml)>, value: string)
    requires ls != [] && EntrySpec(ls, indent, entries).Entry? && KeyAndValue(ls[0]).value.1 == value
    ensures var e := EntrySpec(ls, indent, entries);
            && e.key == KeyAndValue(ls[0]).value.0 != "" && !HasKey(entries, e.key)
            && ValueSpec(ls[1..], indent, value) == Parsed(e.node, e.rest)
  {
  }

  lemma {:induction false} OneMoreEntry(entries: seq<(string, Yaml)>, key: string, node: Yaml)
    requires EntriesOk(entries) && key != "" && !HasKey(entries, key) && KeysOk(node)
    ensures EntriesOk(entries + [(key, node)])
  {
    assert EntryOk((key, node));
  }

  lemma {:induction false} ValueSound(ls: seq<Line>, indent: nat, value: string)
    ensures Sound(ValueSpec(ls, indent, value), ls)
    decreases |ls|, 6
  {
    BlockSuffix(ls, indent, None);
    ChildSound(ls, indent);
    assert ls[0..] == ls;
    if value != "" && value[0] == '[' && FlowSeq(value).Ok? {
      var t := Trim(value);
      FlowItemsOk(Split(t[1..|t| - 1], ','));
    }
  }

  lemma {:induction false} ChildSound(ls: seq<Line>, indent: nat)
    ensures Sound(ChildSpec(ls, indent), ls)
    decreases |ls|, 5
  {
    var next := SkipIgnorable(ls);
    SkipSuffix(ls);
    assert ls[0..] == ls;
    if next != [] {
      NodeSound(next, next[0].indent);
      SeqSound(next, indent, []);
      SoundFromSuffix(NodeSpec(next, next[0].indent), next, ls);
      SoundFromSuffix(SeqSpec(next, indent, []), next, ls);
    }
  }

  lemma {:induction false} SeqSound(ls: seq<Line>, indent: nat, items: seq<Yaml>)
    requires ItemsOk(items)
    ensures Sound(SeqSpec(ls, indent, items), ls)
    decreases |ls|, 3
  {
    var next := SkipIgnorable(ls);
    SkipSuffix(ls);
    if next != [] && next[0].indent == indent && IsItem(next[0]) {
      ItemSound(next, indent);
      match ItemSpec(next, indent)
      case Refused(_) =>
      case Parsed(node, rest) =>
        SeqSound(rest, indent, items + [node]);
        var p := SeqSpec(rest, indent, items + [node]);
        SoundFromSuffix(p, rest, next);
        SoundFromSuffix(p, next, ls);
    }
  }

  lemma {:induction false} ItemSound(ls: seq<Line>, indent: nat)
    requires ls != []
    ensures Sound(ItemSpec(ls, indent), ls)
    decreases |ls|, 2
  {
    var content := AfterDash(ls[0]);
    if content == "" {
      ChildSound(ls[1..], indent);
      SoundFromSuffix(ChildSpec(ls[1..], indent), ls[1..], ls);
    } else {
      MapSound(ItemLines(ls), ItemColumn(ls[0]), []);
    }
  }

  /** Every tree the parser returns has distinct, non-empty keys in all its mappings. */
  lemma ParsedKeys(text: string)
    ensures ParseSpec(text).Ok? ==> KeysOk(ParseSpec(text).value)
  {
    match ReadLines(Lines(text))
    case Err(_) =>
    case Ok(ls) => NodeSound(AfterMarker(ls), 0);
  }

  // No line is lost.

  /** Lines among which a mapping at `column` never ends early. */
  predicate Within(ls: seq<Line>, column: nat) {
    forall i :: 0 <= i < |ls| ==> Ignorable(ls[i]) || ls[i].indent >= column
  }

  /** A mapping read from lines that are all its own is refused or reaches their end. */
  lemma {:induction false} MapReadsAll(ls: seq<Line>, column: nat, entries: seq<(string, Yaml)>)
    requires Within(ls, column) && EntriesOk(entries)
    ensures var p := MapSpec(ls, column, entries); p.Parsed? ==> p.rest == []
    decreases |ls|
  {
    var next := SkipIgnorable(ls);
    SkipSuffix(ls);
    if next != [] {
      assert next[0] == ls[|ls| - |next|];
      if next[0].indent == column && !IsItem(next[0]) {
        EntrySound(next, column, entries);
        match EntrySpec(next, column, entries)
        case BadEntry(_) =>
        case Entry(key, node, rest) =>
          SuffixTrans(rest, next, ls);
          SuffixWithin(rest, ls, column);
          MapReadsAll(rest, column, entries + [(key, node)]);
      }
    }
  }

  lemma SuffixWithin(r: seq<Line>, ls: seq<Line>, column: nat)
    requires Suffix(r, ls) && Within(ls, column)
    ensures Within(r, column)
  {
  }

  lemma {:induction false} ExtentWithin(ls: seq<Line>, column: nat)
    ensures Within(ls[..ItemExtent(ls, column)], column)
  {
    if ls != [] && (Ignorable(ls[0]) || ls[0].indent >= column) {
      ExtentWithin(ls[1..], column);
      var n := ItemExtent(ls, column);
      assert ls[..n] == [ls[0]] + ls[1..][..n - 1];
    }
  }

  lemma {:induction false} DropWithin(ls: seq<Line>, column: nat)
    requires Within(ls, column)
    ensures Within(DropIgnorable(ls), column)
  {
    if ls != [] && Ignorable(ls[|ls| - 1]) {
      DropWithin(ls[..|ls| - 1], column);
    }
  }

  /** The parser forgets the cursor it used inside an item: when the item's mapping is accepted, that
      cursor had reached the end of the item's lines. */
  lemma ItemIsReadWhole(ls: seq<Line>)
    requires ls != []
    ensures var p := MapSpec(ItemLines(ls), ItemColumn(ls[0]), []); p.Parsed? ==> p.rest == []
  {
    var column := ItemColumn(ls[0]);
    var first := Line(column, Spaces(column) + AfterDash(ls[0]));
    ExtentWithin(ls[1..], column);
    DropWithin([first] + ls[1..][..ItemExtent(ls[1..], column)], column);
    MapReadsAll(ItemLines(ls), column, []);
  }
}
