/** What the parser of xtask/src/release_workflow.rs guarantees for whole texts. */
module YamlTheorems {
  import opened Text
  import opened Yaml
  import opened YamlPrint
  import opened YamlWords
  import opened YamlLines
  import opened YamlRoundTrip

  // -------------------------------------------------------------------------------------------
  // Parsing a printed document
  // -------------------------------------------------------------------------------------------

  lemma {:induction false} RawLinesRead(ls: seq<Line>)
    requires forall i :: 0 <= i < |ls| ==> ReadsBack(ls[i])
    ensures ReadLines(RawLines(ls)) == Ok(ls)
    ensures |RawLines(ls)| == |ls| && forall i :: 0 <= i < |ls| ==> RawLines(ls)[i] == ls[i].raw
  {
    if ls != [] {
      RawLinesRead(ls[1..]);
      assert [ls[0]] + ls[1..] == ls;
      assert RawLines(ls)[1..] == RawLines(ls[1..]);
    }
  }

  lemma {:induction false} TextReadsBack(ls: seq<Line>)
    requires Deep(ls, 0)
    ensures ReadLines(Lines(Unlines(RawLines(ls)))) == Ok(ls)
  {
    assert forall i :: 0 <= i < |ls| ==> DeepLine(ls[i], 0);
    RawLinesRead(ls);
    var raws := RawLines(ls);
    forall l | l in raws
      ensures '\n' !in l && (l == "" || l[|l| - 1] != '\r')
    {
      var i :| 0 <= i < |raws| && raws[i] == l;
      assert ReadsBack(ls[i]);
    }
    LinesOfUnlines(raws);
  }

  /** A document's first line is neither ignorable nor a `---` marker. */
  lemma NoMarker(d: Doc)
    requires WfDocument(d)
    ensures AfterMarker(PrintDocument(d)) == PrintDocument(d) != []
    ensures !Ignorable(PrintDocument(d)[0]) && (IsItem(PrintDocument(d)[0]) <==> d.Sequence?)
  {
    match d
    case Mapping(fields) =>
      FirstKey(fields);
      NotMarked(PrintFields(fields, 0));
    case Sequence(_, items) =>
      FirstItem(items);
      NotMarked(PrintItems(items, 0));
  }

  lemma NotMarked(ls: seq<Line>)
    requires ls != [] && !Ignorable(ls[0]) && Trim(ls[0].raw) != "---"
    ensures AfterMarker(ls) == ls
  {
  }

  lemma {:induction false} FirstKey(fields: seq<Field>)
    requires fields != [] && WfFields(fields)
    ensures var ls := PrintFields(fields, 0);
            ls != [] && !Ignorable(ls[0]) && !IsItem(ls[0]) && Trim(ls[0].raw) != "---"
  {
    FieldLine(fields[0], 0);
    KeyIsNoMarker(fields[0]);
  }

  lemma {:induction false} FirstItem(items: seq<Doc>)
    requires items != [] && WfItems(items)
    ensures var ls := PrintItems(items, 0); ls != [] && !Ignorable(ls[0]) && IsItem(ls[0]) && Trim(ls[0].raw) != "---"
  {
    ItemHead(items[0], 0);
    FirstIsNoMarker(items[0]);
  }

  lemma {:induction false} KeyIsNoMarker(f: Field)
    requires WfField(f)
    ensures Trim(LineAt(0, KeyLine(f)).raw) != "---"
  {
    KeyLineReads(f);
    ContentLine(0, KeyLine(f));
    assert KeyLine(f)[|WordText(f.key)|] == ':';
    NotTheMarker(KeyLine(f), |WordText(f.key)|);
  }

  lemma NotTheMarker(s: string, i: nat)
    requires i < |s| && s[i] != '-'
    ensures s != "---"
  {
  }

  lemma {:induction false} FirstIsNoMarker(d: Doc)
    requires WfItem(d)
    ensures PrintItem(d, 0) != [] && Trim(PrintItem(d, 0)[0].raw) != "---"
  {
    match d
    case Inline(w) =>
      WordEnds(w);
      DashIsNoMarker(WordText(w));
    case Mapping(fields) =>
      KeyLineReads(fields[0]);
      DashIsNoMarker(KeyLine(fields[0]));
    case Sequence(_, items) =>
      ContentLine(0, "-");
  }

  lemma DashIsNoMarker(s: string)
    requires GoodContent(s)
    ensures Trim(LineAt(0, "- " + s).raw) != "---"
  {
    ContentLine(0, "- " + s);
    NotTheMarker("- " + s, 1);
  }

  /** Parsing what was printed gives the tree that `Read` says: every layout, every nesting. */
  lemma {:induction false} ParsePrinted(d: Doc)
    requires WfDocument(d)
    ensures ParseSpec(Print(d)) == Ok(Read(d, false))
  {
    var ls := PrintDocument(d);
    match d {
      case Mapping(fields) => DeepFields(fields, 0);
      case Sequence(_, items) => DeepItems(items, 0);
    }
    TextReadsBack(ls);
    NoMarker(d);
    NodeOfDocument(d);
  }

  lemma {:induction false} NodeOfDocument(d: Doc)
    requires WfDocument(d)
    ensures NodeSpec(PrintDocument(d), 0) == Parsed(Read(d, false), [])
  {
    var ls := PrintDocument(d);
    NoMarker(d);
    assert ls + [] == ls;
    match d
    case Mapping(fields) =>
      FieldsParse(fields, 0, [], []);
      assert [] + ReadFields(fields, false) == ReadFields(fields, false);
      MapEnds([], 0, ReadFields(fields, false));
    case Sequence(_, items) =>
      SequenceParse(items, 0, []);
  }

  // -------------------------------------------------------------------------------------------
  // When that is the document's own tree
  // -------------------------------------------------------------------------------------------

  lemma {:induction false} JoinGrows(lines: seq<string>, sep: string, k: nat)
    requires k < |lines| && lines[|lines| - 1] != ""
    ensures |Join(lines[..k], sep)| < |Join(lines, sep)|
  {
    if |lines| > 1 {
      if k == 0 {
        JoinGrows(lines[1..], sep, 0);
      } else {
        JoinGrows(lines[1..], sep, k - 1);
        assert lines[..k][1..] == lines[1..][..k - 1];
      }
    }
  }

  lemma {:induction false} DropCommentsIsPrefix(lines: seq<string>)
    ensures DropComments(lines) == lines[..|DropComments(lines)|]
  {
    if lines != [] && LooksIgnorable(lines[|lines| - 1]) {
      DropCommentsIsPrefix(lines[..|lines| - 1]);
    } else {
      assert lines[..|lines|] == lines;
    }
  }

  lemma {:induction false} ReadBlockIff(header: string, lines: seq<string>, tail: bool)
    requires BlockOk(header, lines)
    ensures var d := Block(header, lines); Read(d, tail) == Denote(d) <==> !(tail && EndsInComment(d))
  {
    if tail && lines != [] && LooksIgnorable(lines[|lines| - 1]) {
      DropCommentsIsPrefix(lines);
      JoinGrows(lines, Separator(header), |DropComments(lines)|);
    }
  }

  /** The parser's tree is the document's own exactly when no block scalar loses lines. */
  lemma {:induction false} ReadIff(d: Doc, tail: bool)
    requires WfValue(d) || WfItem(d)
    ensures Read(d, tail) == Denote(d) <==> !LosesLines(d) && !(tail && EndsInComment(d))
    decreases d
  {
    match d
    case Block(header, lines) => ReadBlockIff(header, lines, tail);
    case Mapping(fields) => ReadFieldsIff(fields, tail);
    case Sequence(_, items) => ReadItemsIff(items);
    case _ =>
  }

  lemma {:induction false} ReadFieldIff(f: Field, tail: bool)
    requires WfField(f)
    ensures ReadField(f, tail) == DenoteField(f) <==> !FieldLosesLines(f) && !(tail && FieldEndsInComment(f))
    decreases f
  {
    ReadIff(f.value, tail);
  }

  predicate AnyFieldLoses(fields: seq<Field>) {
    exists i :: 0 <= i < |fields| && FieldLosesLines(fields[i])
  }

  lemma {:induction false} ReadFieldsIff(fields: seq<Field>, tail: bool)
    requires WfFields(fields)
    ensures ReadFields(fields, tail) == DenoteFields(fields)
       <==> !AnyFieldLoses(fields) && !(tail && fields != [] && FieldEndsInComment(fields[|fields| - 1]))
    decreases fields
  {
    if fields != [] {
      ReadFieldIff(fields[0], tail && |fields| == 1);
      assert WfFields(fields[1..]);
      ReadFieldsIff(fields[1..], tail);
      AnyFieldStep(fields);
      ReadFieldsStep(fields, tail);
    }
  }

  lemma {:induction false} ReadFieldsStep(fields: seq<Field>, tail: bool)
    requires fields != []
    ensures ReadFields(fields, tail) == DenoteFields(fields) <==>
            ReadField(fields[0], tail && |fields| == 1) == DenoteField(fields[0])
              && ReadFields(fields[1..], tail) == DenoteFields(fields[1..])
  {
    SameHeads(ReadField(fields[0], tail && |fields| == 1), DenoteField(fields[0]),
              ReadFields(fields[1..], tail), DenoteFields(fields[1..]));
  }

  lemma SameHeads<T>(a: T, b: T, xs: seq<T>, ys: seq<T>)
    ensures [a] + xs == [b] + ys <==> a == b && xs == ys
  {
    assert ([a] + xs)[0] == a && ([b] + ys)[0] == b;
    assert ([a] + xs)[1..] == xs && ([b] + ys)[1..] == ys;
  }

  lemma AnyFieldStep(fields: seq<Field>)
    requires fields != []
    ensures AnyFieldLoses(fields) <==> FieldLosesLines(fields[0]) || AnyFieldLoses(fields[1..])
  {
    assert forall i :: 0 < i < |fields| ==> fields[i] == fields[1..][i - 1];
  }

  predicate AnyItemLoses(items: seq<Doc>) {
    exists i :: 0 <= i < |items| && (EndsInComment(items[i]) || LosesLines(items[i]))
  }

  lemma AnyItemStep(items: seq<Doc>)
    requires items != []
    ensures AnyItemLoses(items) <==> EndsInComment(items[0]) || LosesLines(items[0]) || AnyItemLoses(items[1..])
  {
    assert forall i :: 0 < i < |items| ==> items[i] == items[1..][i - 1];
  }

  lemma {:induction false} ReadItemsIff(items: seq<Doc>)
    requires WfItems(items)
    ensures ReadItems(items) == DenoteItems(items) <==> !AnyItemLoses(items)
    decreases items
  {
    if items != [] {
      ReadIff(items[0], true);
      ReadItemsIff(items[1..]);
      AnyItemStep(items);
      SameHeads(Read(items[0], true), Denote(items[0]), ReadItems(items[1..]), DenoteItems(items[1..]));
    }
  }

  /** The round trip, with the exact condition for it. */
  lemma {:induction false} RoundTrip(d: Doc)
    requires WfDocument(d)
    ensures ParseSpec(Print(d)) == Ok(Denote(d)) <==> !LosesLines(d)
  {
    ParsePrinted(d);
    ReadIff(d, false);
  }

  /** A literal block that ends a step of a workflow loses its final shell comment. */
  lemma CommentAtEndOfItemIsLost()
    ensures var d := Sequence(false, [CommentedStep()]);
            WfDocument(d) && Denote(d) == Seq([Map([("run", Scalar("make\n# done"))])])
            && ParseSpec(Print(d)) == Ok(Seq([Map([("run", Scalar("make"))])]))
  {
    var d := Sequence(false, [CommentedStep()]);
    CommentedStepOk();
    OneItem(CommentedStep());
    ParsePrinted(d);
  }

  lemma {:induction false} OneItem(d: Doc)
    requires WfItem(d)
    ensures WfDocument(Sequence(false, [d])) && Denote(Sequence(false, [d])) == Seq([Denote(d)])
    ensures Read(Sequence(false, [d]), false) == Seq([Read(d, true)])
  {
    assert WfItems([d]);
    assert ReadItems([d]) == [Read(d, true)];
    assert DenoteItems([d]) == [Denote(d)];
  }

  function CommentedBlock(): Doc {
    Block("|", ["make", "# done"])
  }

  function CommentedStep(): Doc {
    Mapping([Field(Plain("run"), CommentedBlock())])
  }

  lemma CommentedStepOk()
    ensures WfItem(CommentedStep())
    ensures Denote(CommentedStep()) == Map([("run", Scalar("make\n# done"))])
    ensures Read(CommentedStep(), true) == Map([("run", Scalar("make"))])
  {
    CommentedBlockOk();
    RunIsAKey();
    OneField(Field(Plain("run"), CommentedBlock()));
  }

  lemma RunIsAKey()
    ensures KeyOk(Plain("run"))
  {
    assert Calm("run");
    CalmIsOk("run");
  }

  lemma {:induction false} OneField(f: Field)
    requires WfField(f)
    ensures WfItem(Mapping([f])) && Denote(Mapping([f])) == Map([(f.key.text, Denote(f.value))])
    ensures Read(Mapping([f]), true) == Map([(f.key.text, Read(f.value, true))])
  {
    assert WfFields([f]);
    assert DenoteFields([f]) == [DenoteField(f)];
    assert ReadFields([f], true) == [ReadField(f, true)];
  }

  lemma CommentedBlockOk()
    ensures WfValue(CommentedBlock())
    ensures Denote(CommentedBlock()) == Scalar("make\n# done")
    ensures Read(CommentedBlock(), true) == Scalar("make")
  {
    var lines := ["make", "# done"];
    PlainWordTrims("make");
    PlainWordTrims("# done");
    BarHeader();
    assert BlockLineOk(lines[0]) && BlockLineOk(lines[1]);
    TwoLines("make", "# done");
  }

  lemma BarHeader()
    ensures Trim("|") == "|" && BlockIndicator("|") == Some(false)
  {
    PlainWordTrims("|");
  }

  lemma {:induction false} TwoLines(a: string, b: string)
    requires !LooksIgnorable(a) && LooksIgnorable(b)
    ensures DropComments([a, b]) == [a] && Join([a, b], "\n") == a + "\n" + b && Join([a], "\n") == a
  {
    assert [a, b][..1] == [a] && [a, b][1..] == [b];
    assert DropComments([a]) == [a];
  }

  lemma PlainWordTrims(s: string)
    requires GoodContent(s)
    ensures Trim(s) == s
  {
    TrimStartId(s);
    TrimEndId(s);
  }
}
