/** The cursor-driven parser of xtask/src/release_workflow.rs, proved to compute the functions of `Yaml`. */
module YamlParser {
  import opened Text
  import opened Yaml

  type Outcome = Result<Yaml, Error>

  /** A call that ended with `r` and the lines `rest` still to be read did what `p` says. A refusal ends
      the whole parse, so where it leaves the cursor is nobody's business. */
  ghost predicate Agrees(r: Outcome, rest: seq<Line>, p: Parsed) {
    match p
    case Parsed(node, after) => r == Ok(node) && rest == after
    case Refused(e) => r == Err(e)
  }

  // Scanning one line.

  method SplitAtKey(content: string) returns (r: Result<(string, string), Error>)
    ensures r == SplitKey(content)
  {
    var quote: Option<char> := None;
    var index := 0;
    while index < |content|
      invariant 0 <= index <= |content|
      invariant quote == QuoteAfter(content[..index])
      invariant index + KeyLength(content[index..], quote) == KeyLength(content, None)
    {
      var byte := content[index];
      assert content[..index + 1][..index] == content[..index];
      assert content[index..][1..] == content[index + 1..];
      match quote {
        case Some(open) =>
          if byte == open { quote := None; }
        case None =>
          if byte == '"' || byte == '\'' {
            quote := Some(byte);
          } else if byte == ':' && (index + 1 == |content| || content[index + 1] == ' ') {
            var key := Unquote(Trim(content[..index]));
            if key == "" {
              return Err(EmptyKey);
            }
            return Ok((key, Trim(content[index + 1..])));
          }
      }
      index := index + 1;
    }
    return Err(NotAnEntry);
  }

  method WithoutComment(content: string) returns (r: string)
    ensures r == StripComment(content)
  {
    var quote: Option<char> := None;
    var index := 0;
    while index < |content|
      invariant 0 <= index <= |content|
      invariant quote == QuoteAfter(content[..index])
      invariant index + CodeLength(content[index..], quote, index == 0 || content[index - 1] == ' ')
             == CodeLength(content, None, true)
    {
      var byte := content[index];
      assert content[..index + 1][..index] == content[..index];
      assert content[index..][1..] == content[index + 1..];
      match quote {
        case Some(open) =>
          if byte == open { quote := None; }
        case None =>
          if byte == '"' || byte == '\'' {
            quote := Some(byte);
          } else if byte == '#' && (index == 0 || content[index - 1] == ' ') {
            return TrimEnd(content[..index]);
          }
      }
      index := index + 1;
    }
    return content;
  }

  /** The loop over the bytes after `|` or `>`. */
  method ReadBlockIndicator(text: string) returns (r: Option<bool>)
    ensures r == BlockIndicator(text)
  {
    var rest := Trim(text);
    if rest == "" || (rest[0] != '>' && rest[0] != '|') {
      return None;
    }
    var suffix := rest[1..];
    var seenChomp, seenIndent := false, false;
    for i := 0 to |suffix|
      invariant IndicatorsOk(suffix[i..], seenChomp, seenIndent) == IndicatorsOk(suffix, false, false)
    {
      assert suffix[i..][1..] == suffix[i + 1..];
      if (suffix[i] == '-' || suffix[i] == '+') && !seenChomp {
        seenChomp := true;
      } else if '1' <= suffix[i] <= '9' && !seenIndent {
        seenIndent := true;
      } else {
        return None;
      }
    }
    return Some(rest[0] == '>');
  }

  // Reading lines.

  method SkipLines(lines: seq<Line>, from: nat) returns (cursor: nat)
    requires from <= |lines|
    ensures from <= cursor <= |lines|
    ensures lines[cursor..] == SkipIgnorable(lines[from..])
  {
    cursor := from;
    while cursor < |lines| && Ignorable(lines[cursor])
      invariant from <= cursor <= |lines|
      invariant SkipIgnorable(lines[cursor..]) == SkipIgnorable(lines[from..])
    {
      assert lines[cursor..][1..] == lines[cursor + 1..];
      cursor := cursor + 1;
    }
  }

  method ParseNode(lines: seq<Line>, from: nat, indent: nat) returns (r: Outcome, cursor: nat)
    requires from <= |lines|
    ensures from <= cursor <= |lines|
    ensures Agrees(r, lines[cursor..], NodeSpec(lines[from..], indent))
    decreases |lines| - from, 4
  {
    cursor := SkipLines(lines, from);
    if cursor >= |lines| {
      return Ok(Scalar("")), cursor;
    }
    if IsItem(lines[cursor]) {
      SkipTwice(lines[cursor..]);
      r, cursor := ParseSeq(lines, cursor, indent);
    } else {
      r, cursor := ParseMap(lines, cursor, indent);
    }
  }

  lemma {:induction false} SkipTwice(ls: seq<Line>)
    ensures SkipIgnorable(SkipIgnorable(ls)) == SkipIgnorable(ls)
  {
  }

  method ParseMap(lines: seq<Line>, from: nat, indent: nat) returns (r: Outcome, cursor: nat)
    requires from <= |lines|
    ensures from <= cursor <= |lines|
    ensures Agrees(r, lines[cursor..], MapSpec(lines[from..], indent, []))
    decreases |lines| - from, 1
  {
    var entries: seq<(string, Yaml)> := [];
    cursor := from;
    while true
      invariant from <= cursor <= |lines|
      invariant MapSpec(lines[cursor..], indent, entries) == MapSpec(lines[from..], indent, [])
      decreases |lines| - cursor
    {
      cursor := SkipLines(lines, cursor);
      if cursor >= |lines| {
        return Ok(Map(entries)), cursor;
      }
      var line := lines[cursor];
      if line.indent < indent {
        return Ok(Map(entries)), cursor;
      }
      if line.indent > indent {
        return Err(UnexpectedIndent), cursor;
      }
      if IsItem(line) {
        return Err(ItemInMapping), cursor;
      }
      var entry;
      entry, cursor := ParseEntry(lines, cursor, indent, entries);
      if entry.Err? {
        return Err(entry.error), cursor;
      }
      entries := entries + [entry.value];
    }
  }

  /** The part of the mapping loop that reads the entry at `from`. */
  method ParseEntry(lines: seq<Line>, from: nat, indent: nat, entries: seq<(string, Yaml)>)
    returns (r: Result<(string, Yaml), Error>, cursor: nat)
    requires from < |lines|
    ensures from <= cursor <= |lines| && (r.Ok? ==> from < cursor)
    ensures match EntrySpec(lines[from..], indent, entries)
            case Entry(key, node, rest) => r == Ok((key, node)) && rest == lines[cursor..]
            case BadEntry(e) => r == Err(e)
    decreases |lines| - from, 0
  {
    cursor := from;
    var content := WithoutComment(Trim(lines[from].raw));
    var split := SplitAtKey(content);
    if split.Err? {
      return Err(split.error), cursor;
    }
    var (key, value) := split.value;
    if HasKey(entries, key) {
      return Err(DuplicateKey), cursor;
    }
    assert lines[from..][1..] == lines[from + 1..];
    var node;
    node, cursor := ParseValue(lines, from + 1, indent, value);
    r := if node.Err? then Err(node.error) else Ok((key, node.value));
  }

  /** The part of the mapping loop that reads the value of a key. */
  method ParseValue(lines: seq<Line>, from: nat, indent: nat, value: string) returns (r: Outcome, cursor: nat)
    requires from <= |lines|
    ensures from <= cursor <= |lines|
    ensures Agrees(r, lines[cursor..], ValueSpec(lines[from..], indent, value))
    decreases |lines| - from, 6
  {
    cursor := from;
    var fold := ReadBlockIndicator(value);
    if fold.Some? {
      var text;
      text, cursor := ParseBlockScalar(lines, cursor, indent, fold.value);
      r := Ok(text);
    } else if value == "" {
      r, cursor := ParseChild(lines, cursor, indent);
    } else if value[0] == '[' {
      r := FlowSeq(value);
    } else if value[0] == '{' {
      r := Err(FlowMapping);
    } else {
      r := Ok(Scalar(Unquote(value)));
    }
  }

  method ParseChild(lines: seq<Line>, from: nat, indent: nat) returns (r: Outcome, cursor: nat)
    requires from <= |lines|
    ensures from <= cursor <= |lines|
    ensures Agrees(r, lines[cursor..], ChildSpec(lines[from..], indent))
    decreases |lines| - from, 5
  {
    cursor := from;
    var lookahead := SkipLines(lines, cursor);
    if lookahead >= |lines| {
      return Ok(Scalar("")), cursor;
    }
    var next := lines[lookahead];
    if next.indent > indent {
      r, cursor := ParseNode(lines, lookahead, next.indent);
    } else if next.indent == indent && IsItem(next) {
      r, cursor := ParseSeq(lines, lookahead, indent);
    } else {
      r := Ok(Scalar(""));
    }
  }

  method ParseBlockScalar(lines: seq<Line>, from: nat, indent: nat, fold: bool) returns (r: Yaml, cursor: nat)
    requires from <= |lines|
    ensures from <= cursor <= |lines|
    ensures var (texts, rest) := BlockLines(lines[from..], indent, None);
            r == Scalar(BlockText(fold, texts)) && lines[cursor..] == rest
  {
    var collected: seq<string> := [];
    var base: Option<nat> := None;
    cursor := from;
    while cursor < |lines|
      invariant from <= cursor <= |lines|
      invariant BlockLines(lines[from..], indent, None).0 == collected + BlockLines(lines[cursor..], indent, base).0
      invariant BlockLines(lines[from..], indent, None).1 == BlockLines(lines[cursor..], indent, base).1
      decreases |lines| - cursor
    {
      var line := lines[cursor];
      assert lines[cursor..][1..] == lines[cursor + 1..];
      BlockStep(lines[cursor..], indent, base, collected);
      if Trim(line.raw) == "" {
        collected := collected + [""];
        cursor := cursor + 1;
      } else {
        if line.indent <= indent {
          break;
        }
        if base == None {
          base := Some(line.indent);
        }
        collected := collected + [Dedent(line, base.value)];
        cursor := cursor + 1;
      }
    }
    assert collected + [] == collected;
    collected := WithoutBlankEnd(collected);
    r := Scalar(Join(collected, if fold then " " else "\n"));
  }

  /** What the first line adds to a block scalar, and what the rest is then read with. */
  lemma BlockStep(ls: seq<Line>, indent: nat, base: Option<nat>, collected: seq<string>)
    requires ls != []
    ensures var more, b := ls[1..], Some(if base.Some? then base.value else ls[0].indent);
            if Trim(ls[0].raw) == "" then
              && collected + BlockLines(ls, indent, base).0 == collected + [""] + BlockLines(more, indent, base).0
              && BlockLines(ls, indent, base).1 == BlockLines(more, indent, base).1
            else if ls[0].indent <= indent then BlockLines(ls, indent, base) == ([], ls)
            else
              && collected + BlockLines(ls, indent, base).0
                 == collected + [Dedent(ls[0], b.value)] + BlockLines(more, indent, b).0
              && BlockLines(ls, indent, base).1 == BlockLines(more, indent, b).1
  {
  }

  method WithoutBlankEnd(all: seq<string>) returns (collected: seq<string>)
    ensures collected == DropBlank(all)
  {
    collected := all;
    while |collected| > 0 && collected[|collected| - 1] == ""
      invariant DropBlank(collected) == DropBlank(all)
    {
      collected := collected[..|collected| - 1];
    }
  }

  method ParseSeq(lines: seq<Line>, from: nat, indent: nat) returns (r: Outcome, cursor: nat)
    requires from <= |lines|
    ensures from <= cursor <= |lines|
    ensures Agrees(r, lines[cursor..], SeqSpec(lines[from..], indent, []))
    decreases |lines| - from, 3
  {
    var items: seq<Yaml> := [];
    cursor := from;
    while true
      invariant from <= cursor <= |lines|
      invariant SeqSpec(lines[cursor..], indent, items) == SeqSpec(lines[from..], indent, [])
      decreases |lines| - cursor
    {
      cursor := SkipLines(lines, cursor);
      if cursor >= |lines| {
        return Ok(Seq(items)), cursor;
      }
      var line := lines[cursor];
      if line.indent < indent || !IsItem(line) {
        return Ok(Seq(items)), cursor;
      }
      if line.indent > indent {
        return Err(UnexpectedItemIndent), cursor;
      }
      var node;
      node, cursor := ParseItem(lines, cursor, indent);
      if node.Err? {
        return Err(node.error), cursor;
      }
      items := items + [node.value];
    }
  }

  /** The first of its two inner loops: the lines that belong to the item, its own first line re-indented. */
  method CollectExtent(lines: seq<Line>, from: nat, first: Line, column: nat) returns (item: seq<Line>, cursor: nat)
    requires from < |lines|
    ensures Gathered(lines, from + 1, first, column, item, cursor)
    ensures cursor < |lines| ==> !Ignorable(lines[cursor]) && lines[cursor].indent < column
  {
    item, cursor := [first], from + 1;
    GatheredNone(lines, from + 1, first, column);
    while cursor < |lines| && (Ignorable(lines[cursor]) || lines[cursor].indent >= column)
      invariant Gathered(lines, from + 1, first, column, item, cursor)
    {
      GatheredOne(lines, from + 1, first, column, item, cursor);
      item := item + [lines[cursor]];
      cursor := cursor + 1;
    }
  }

  /** The lines from `start` up to the cursor are gathered, and those that follow them are still to come. */
  predicate Gathered(lines: seq<Line>, start: nat, first: Line, column: nat, item: seq<Line>, cursor: nat)
  {
    && start <= cursor <= |lines| && item == [first] + lines[start..cursor]
    && cursor - start + ItemExtent(lines[cursor..], column) == ItemExtent(lines[start..], column)
  }

  lemma {:induction false} GatheredNone(lines: seq<Line>, start: nat, first: Line, column: nat)
    requires start <= |lines|
    ensures Gathered(lines, start, first, column, [first], start)
  {
  }

  lemma {:induction false} GatheredOne(lines: seq<Line>, start: nat, first: Line, column: nat, item: seq<Line>,
                                       cursor: nat)
    requires cursor < |lines| && (Ignorable(lines[cursor]) || lines[cursor].indent >= column)
    requires Gathered(lines, start, first, column, item, cursor)
    ensures Gathered(lines, start, first, column, item + [lines[cursor]], cursor + 1)
  {
    ExtentStep(lines, cursor, column);
    OneLineMore(first, lines, start, cursor);
  }

  lemma {:induction false} GatheredAll(lines: seq<Line>, start: nat, first: Line, column: nat, item: seq<Line>,
                                       cursor: nat)
    requires cursor < |lines| ==> !Ignorable(lines[cursor]) && lines[cursor].indent < column
    requires Gathered(lines, start, first, column, item, cursor)
    ensures start <= cursor + 1 == start + |item| <= |lines| + 1
    ensures item == [first] + lines[start..][..ItemExtent(lines[start..], column)]
  {
    ExtentEnds(lines, cursor, column);
    FirstOfTail(lines, start, cursor);
  }

  lemma {:induction false} ExtentStep(lines: seq<Line>, cursor: nat, column: nat)
    requires cursor < |lines| && (Ignorable(lines[cursor]) || lines[cursor].indent >= column)
    ensures ItemExtent(lines[cursor..], column) == 1 + ItemExtent(lines[cursor + 1..], column)
  {
    assert lines[cursor..][1..] == lines[cursor + 1..];
  }

  lemma {:induction false} ExtentEnds(lines: seq<Line>, cursor: nat, column: nat)
    requires cursor <= |lines| && (cursor < |lines| ==> !Ignorable(lines[cursor]) && lines[cursor].indent < column)
    ensures ItemExtent(lines[cursor..], column) == 0
  {
  }

  lemma OneLineMore(first: Line, lines: seq<Line>, a: nat, b: nat)
    requires a <= b < |lines|
    ensures [first] + lines[a..b] + [lines[b]] == [first] + lines[a..b + 1]
  {
  }

  lemma FirstOfTail(lines: seq<Line>, a: nat, b: nat)
    requires a <= b <= |lines|
    ensures lines[a..b] == lines[a..][..b - a]
  {
  }

  /** The part of the sequence loop that gathers the lines of the item at `from`. */
  method CollectItem(lines: seq<Line>, from: nat) returns (item: seq<Line>, cursor: nat)
    requires from < |lines|
    ensures item == ItemLines(lines[from..])
    ensures cursor == from + |item| <= |lines|
  {
    var column := ItemColumn(lines[from]);
    assert lines[from..][1..] == lines[from + 1..];
    var first := Line(column, Spaces(column) + AfterDash(lines[from]));
    item, cursor := CollectExtent(lines, from, first, column);
    GatheredAll(lines, from + 1, first, column, item, cursor);
    ghost var all := item;
    while |item| > 0 && Ignorable(item[|item| - 1])
      invariant DropIgnorable(item) == DropIgnorable(all)
      invariant cursor == from + |item| <= |lines|
    {
      item := item[..|item| - 1];
      cursor := cursor - 1;
    }
  }

  /** The body of the sequence loop for the item at `from`. */
  method ParseItem(lines: seq<Line>, from: nat, indent: nat) returns (r: Outcome, cursor: nat)
    requires from < |lines|
    ensures from <= cursor <= |lines| && (r.Ok? ==> from < cursor)
    ensures Agrees(r, lines[cursor..], ItemSpec(lines[from..], indent))
    decreases |lines| - from, 2
  {
    var content := AfterDash(lines[from]);
    assert lines[from..][1..] == lines[from + 1..];
    if content == "" {
      r, cursor := ParseChild(lines, from + 1, indent);
      return;
    }
    var item;
    item, cursor := CollectItem(lines, from);
    var stripped := WithoutComment(content);
    var split := SplitAtKey(stripped);
    if split.Ok? {
      ItemKeepsDashLine(lines[from..]);
      assert item[0..] == item;
      var itemCursor;
      r, itemCursor := ParseMap(item, 0, ItemColumn(lines[from]));
      assert lines[from..][|item|..] == lines[cursor..];
    } else if |item| == 1 {
      r := Ok(Scalar(Unquote(stripped)));
    } else {
      r := Err(NeitherScalarNorMapping);
    }
  }

  // The document.

  method NumberLines(texts: seq<string>) returns (r: Result<seq<Line>, Error>)
    ensures r == ReadLines(texts)
  {
    var lines: seq<Line> := [];
    for i := 0 to |texts|
      invariant |lines| == i
      invariant match ReadLines(texts[i..])
                case Ok(more) => ReadLines(texts).Ok? && ReadLines(texts).value == lines + more
                case Err(e) => ReadLines(texts) == Err(e)
    {
      assert texts[i..][1..] == texts[i + 1..];
      var line := ReadLine(texts[i]);
      if line.Err? {
        return Err(line.error);
      }
      ghost var more := ReadLines(texts[i + 1..]);
      assert more.Ok? ==> lines + ([line.value] + more.value) == (lines + [line.value]) + more.value;
      lines := lines + [line.value];
    }
    assert lines + [] == lines;
    return Ok(lines);
  }

  method Parse(text: string) returns (r: Outcome)
    ensures r == ParseSpec(text)
  {
    var read := NumberLines(Lines(text));
    if read.Err? {
      return Err(read.error);
    }
    var lines := read.value;
    assert lines[0..] == lines;
    var cursor := SkipLines(lines, 0);
    if cursor < |lines| && Trim(lines[cursor].raw) == "---" {
      assert lines[cursor..][1..] == lines[cursor + 1..];
      cursor := cursor + 1;
    }
    assert lines[cursor..] == AfterMarker(lines);
    r, cursor := ParseNode(lines, cursor, 0);
    if r.Err? {
      return;
    }
    cursor := SkipLines(lines, cursor);
    if cursor < |lines| {
      return Err(TrailingContent);
    }
  }
}
