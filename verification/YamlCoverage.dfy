/** Which lines a parse reads as content, and that none is passed over or read twice. */
module YamlCoverage {
  import opened Text
  import opened Yaml
  import opened YamlTrees

  // -------------------------------------------------------------------------------------------
  // What is read
  // -------------------------------------------------------------------------------------------

  /** The positions from `at` up to, but not including, `end`. */
  function Range(at: nat, end: nat): (r: seq<nat>)
    requires at <= end
    ensures |r| == end - at && forall i :: 0 <= i < |r| ==> r[i] == at + i
  {
    seq(end - at, i requires 0 <= i => at + i)
  }

  /** The positions of the key lines, dash lines and block-scalar lines that a successful `NodeSpec` reads,
      the last of `ls` being just before position `end`; likewise for the functions below it. */
  function NodeReads(ls: seq<Line>, indent: nat, end: nat): seq<nat>
    requires |ls| <= end
    decreases |ls|, 4
  {
    var next := SkipIgnorable(ls);
    if next == [] then []
    else if IsItem(next[0]) then SeqReads(next, indent, [], end)
    else MapReads(next, indent, [], end)
  }

  function MapReads(ls: seq<Line>, indent: nat, entries: seq<(string, Yaml)>, end: nat): seq<nat>
    requires |ls| <= end
    decreases |ls|, 0, 1
  {
    var next := SkipIgnorable(ls);
    if next == [] || next[0].indent != indent || IsItem(next[0]) then []
    else
      match EntrySpec(next, indent, entries)
      case BadEntry(_) => []
      case Entry(key, node, rest) =>
        EntryReads(next, indent, end) + MapReads(rest, indent, entries + [(key, node)], end)
  }

  /** The key's own line, then the lines of its value. */
  function EntryReads(ls: seq<Line>, indent: nat, end: nat): seq<nat>
    requires 0 < |ls| <= end
    decreases |ls|, 0, 0
  {
    match KeyAndValue(ls[0])
    case Err(_) => []
    case Ok((_, value)) => [end - |ls|] + ValueReads(ls[1..], indent, value, end)
  }

  function ValueReads(ls: seq<Line>, indent: nat, value: string, end: nat): seq<nat>
    requires |ls| <= end
    decreases |ls|, 6
  {
    if BlockIndicator(value).Some? then Range(end - |ls|, end - |BlockLines(ls, indent, None).1|)
    else if value == "" then ChildReads(ls, indent, end)
    else []
  }

  function ChildReads(ls: seq<Line>, indent: nat, end: nat): seq<nat>
    requires |ls| <= end
    decreases |ls|, 5
  {
    var next := SkipIgnorable(ls);
    if next == [] then []
    else if next[0].indent > indent then NodeReads(next, next[0].indent, end)
    else if next[0].indent == indent && IsItem(next[0]) then SeqReads(next, indent, [], end)
    else []
  }

  function SeqReads(ls: seq<Line>, indent: nat, items: seq<Yaml>, end: nat): seq<nat>
    requires |ls| <= end
    decreases |ls|, 3
  {
    var next := SkipIgnorable(ls);
    if next == [] || next[0].indent != indent || !IsItem(next[0]) then []
    else
      match ItemSpec(next, indent)
      case Refused(_) => []
      case Parsed(node, rest) => ItemReads(next, indent, end) + SeqReads(rest, indent, items + [node], end)
  }

  /** Line `k` of an item's own list is line `k` from its dash line on. */
  function ItemReads(ls: seq<Line>, indent: nat, end: nat): seq<nat>
    requires 0 < |ls| <= end
    decreases |ls|, 2
  {
    var content := AfterDash(ls[0]);
    if content == "" then [end - |ls|] + ChildReads(ls[1..], indent, end)
    else if SplitKey(StripComment(content)).Ok? then OwnReads(ls, OwnEnd(ls, end))
    else [end - |ls|]
  }

  /** The position just behind an item's own lines. */
  function OwnEnd(ls: seq<Line>, end: nat): nat
    requires 0 < |ls| <= end
  {
    end - |ls| + |ItemLines(ls)|
  }

  function OwnReads(ls: seq<Line>, own: nat): seq<nat>
    requires ls != [] && |ItemLines(ls)| <= own
    decreases |ls|, 1, 0
  {
    MapReads(ItemLines(ls), ItemColumn(ls[0]), [], own)
  }

  // -------------------------------------------------------------------------------------------
  // Each line once
  // -------------------------------------------------------------------------------------------

  predicate Increasing(ps: seq<nat>) {
    forall i, j :: 0 <= i < j < |ps| ==> ps[i] < ps[j]
  }

  /** The positions are in order, each once, among those of the lines of `ls` that are not in its last `left`,
      and leave out none of these but ignorable ones. */
  predicate Covers(ps: seq<nat>, ls: seq<Line>, left: nat, end: nat)
    requires |ls| <= end
  {
    && left <= |ls| && Increasing(ps)
    && (forall i :: 0 <= i < |ps| ==> end - |ls| <= ps[i] < end - left)
    && forall j: nat :: j < |ls| - left && !Ignorable(ls[j]) ==> end - |ls| + j in ps
  }

  lemma CoversBoth(a: seq<nat>, b: seq<nat>, ls: seq<Line>, rest: seq<Line>, left: nat, end: nat)
    requires |ls| <= end && Suffix(rest, ls) && Covers(a, ls, |rest|, end) && Covers(b, rest, left, end)
    ensures Covers(a + b, ls, left, end)
  {
    var m := |ls| - |rest|;
    forall j: nat | j < |ls| - left && !Ignorable(ls[j]) ensures end - |ls| + j in a + b {
      if j >= m {
        assert rest[j - m] == ls[j];
        assert end - |rest| + (j - m) in b;
      }
    }
  }

  lemma {:induction false} SkippedAreIgnorable(ls: seq<Line>)
    ensures forall j :: 0 <= j < |ls| - |SkipIgnorable(ls)| ==> Ignorable(ls[j])
  {
    if ls != [] && Ignorable(ls[0]) {
      SkippedAreIgnorable(ls[1..]);
      assert forall j :: 0 < j < |ls| ==> ls[j] == ls[1..][j - 1];
    }
  }

  /** A parse that succeeds reads each line it consumes exactly once, ignorable ones aside. */
  predicate ReadsAll(p: Parsed, ls: seq<Line>, ps: seq<nat>, end: nat)
    requires |ls| <= end
  {
    p.Parsed? ==> Covers(ps, ls, |p.rest|, end)
  }

  predicate MapReadsAll(ls: seq<Line>, indent: nat, entries: seq<(string, Yaml)>, end: nat)
    requires |ls| <= end
  {
    ReadsAll(MapSpec(ls, indent, entries), ls, MapReads(ls, indent, entries, end), end)
  }

  predicate ItemReadsAll(ls: seq<Line>, indent: nat, end: nat)
    requires 0 < |ls| <= end
  {
    ReadsAll(ItemSpec(ls, indent), ls, ItemReads(ls, indent, end), end)
  }

  /** What reads all behind skipped lines reads all. */
  lemma {:induction false} ReadsBehind(p: Parsed, ps: seq<nat>, ls: seq<Line>, end: nat)
    requires |ls| <= end && ReadsAll(p, SkipIgnorable(ls), ps, end)
    ensures ReadsAll(p, ls, ps, end)
  {
    var next := SkipIgnorable(ls);
    SkippedAreIgnorable(ls);
    SkipSuffix(ls);
    if p.Parsed? {
      CoversBoth([], ps, ls, next, |p.rest|, end);
      assert [] + ps == ps;
    }
  }

  /** An entry or an item, then the rest of its mapping or sequence. */
  lemma {:induction false} ReadsNext(a: seq<nat>, b: seq<nat>, p: Parsed, ls: seq<Line>, rest: seq<Line>, end: nat)
    requires |ls| <= end && Suffix(rest, SkipIgnorable(ls)) && Covers(a, SkipIgnorable(ls), |rest|, end)
    requires ReadsAll(p, rest, b, end)
    ensures ReadsAll(p, ls, a + b, end)
  {
    if p.Parsed? { CoversBoth(a, b, SkipIgnorable(ls), rest, |p.rest|, end); }
    ReadsBehind(p, a + b, ls, end);
  }

  /** A line read by itself, then what its value reads. */
  lemma ReadsFirst(ls: seq<Line>, ps: seq<nat>, left: nat, end: nat)
    requires 0 < |ls| <= end && Covers(ps, ls[1..], left, end)
    ensures Covers([end - |ls|] + ps, ls, left, end)
  {
    CoversBoth([end - |ls|], ps, ls, ls[1..], left, end);
  }

  lemma CoversNone(ls: seq<Line>, end: nat)
    requires |ls| <= end
    ensures Covers([], ls, |ls|, end)
  {
  }

  lemma {:induction false} NodeCovers(ls: seq<Line>, indent: nat, end: nat)
    requires |ls| <= end
    ensures ReadsAll(NodeSpec(ls, indent), ls, NodeReads(ls, indent, end), end)
    decreases |ls|, 4
  {
    var next := SkipIgnorable(ls);
    if next == [] {
      CoversNone(next, end);
    } else if IsItem(next[0]) {
      SeqCovers(next, indent, [], end);
    } else {
      MapCovers(next, indent, [], end);
    }
    ReadsBehind(NodeSpec(ls, indent), NodeReads(ls, indent, end), ls, end);
  }

  lemma {:induction false} MapCovers(ls: seq<Line>, indent: nat, entries: seq<(string, Yaml)>, end: nat)
    requires |ls| <= end && EntriesOk(entries)
    ensures MapReadsAll(ls, indent, entries, end)
    decreases |ls|, 0, 2
  {
    var next := SkipIgnorable(ls);
    if next == [] || next[0].indent < indent {
      CoversNone(next, end);
      ReadsBehind(Parsed(Map(entries), next), [], ls, end);
    } else if next[0].indent == indent && !IsItem(next[0]) && EntrySpec(next, indent, entries).Entry? {
      var e := EntrySpec(next, indent, entries);
      var more := entries + [(e.key, e.node)];
      EntrySound(next, indent, entries);
      EntryCovers(next, indent, entries, end);
      MapCovers(e.rest, indent, more, end);
      ReadsNext(EntryReads(next, indent, end), MapReads(e.rest, indent, more, end), MapSpec(e.rest, indent, more), ls,
                e.rest, end);
    }
  }

  lemma {:induction false} EntryCovers(ls: seq<Line>, indent: nat, entries: seq<(string, Yaml)>, end: nat)
    requires 0 < |ls| <= end
    ensures match EntrySpec(ls, indent, entries)
            case BadEntry(_) => true
            case Entry(_, _, rest) => Covers(EntryReads(ls, indent, end), ls, |rest|, end)
    decreases |ls|, 0, 1
  {
    match EntrySpec(ls, indent, entries)
    case BadEntry(_) =>
    case Entry(key, node, rest) =>
      var value := KeyAndValue(ls[0]).value.1;
      EntryIs(ls, indent, entries, value);
      ValueCovers(ls[1..], indent, value, end);
      ReadsFirst(ls, ValueReads(ls[1..], indent, value, end), |rest|, end);
  }

  lemma {:induction false} ValueCovers(ls: seq<Line>, indent: nat, value: string, end: nat)
    requires |ls| <= end
    ensures ReadsAll(ValueSpec(ls, indent, value), ls, ValueReads(ls, indent, value, end), end)
    decreases |ls|, 6
  {
    if BlockIndicator(value).Some? {
      RangeCovers(ls, |BlockLines(ls, indent, None).1|, end);
    } else if value == "" {
      ChildCovers(ls, indent, end);
    } else {
      CoversNone(ls, end);
    }
  }

  lemma RangeCovers(ls: seq<Line>, left: nat, end: nat)
    requires left <= |ls| <= end
    ensures Covers(Range(end - |ls|, end - left), ls, left, end)
  {
    var ps := Range(end - |ls|, end - left);
    forall j: nat | j < |ls| - left && !Ignorable(ls[j]) ensures end - |ls| + j in ps {
      assert ps[j] == end - |ls| + j;
    }
  }

  lemma {:induction false} ChildCovers(ls: seq<Line>, indent: nat, end: nat)
    requires |ls| <= end
    ensures ReadsAll(ChildSpec(ls, indent), ls, ChildReads(ls, indent, end), end)
    decreases |ls|, 5
  {
    var next := SkipIgnorable(ls);
    if next != [] && next[0].indent > indent {
      NodeCovers(next, next[0].indent, end);
      ReadsBehind(NodeSpec(next, next[0].indent), NodeReads(next, next[0].indent, end), ls, end);
    } else if next != [] && next[0].indent == indent && IsItem(next[0]) {
      SeqCovers(next, indent, [], end);
      ReadsBehind(SeqSpec(next, indent, []), SeqReads(next, indent, [], end), ls, end);
    } else {
      CoversNone(ls, end);
    }
  }

  lemma {:induction false} SeqCovers(ls: seq<Line>, indent: nat, items: seq<Yaml>, end: nat)
    requires |ls| <= end && ItemsOk(items)
    ensures ReadsAll(SeqSpec(ls, indent, items), ls, SeqReads(ls, indent, items, end), end)
    decreases |ls|, 3
  {
    var next := SkipIgnorable(ls);
    if next == [] || next[0].indent < indent || !IsItem(next[0]) {
      CoversNone(next, end);
      ReadsBehind(Parsed(Seq(items), next), [], ls, end);
    } else if next[0].indent == indent && ItemSpec(next, indent).Parsed? {
      var item := ItemSpec(next, indent);
      var more := items + [item.node];
      ItemSound(next, indent);
      ItemCovers(next, indent, end);
      SeqCovers(item.rest, indent, more, end);
      ReadsNext(ItemReads(next, indent, end), SeqReads(item.rest, indent, more, end), SeqSpec(item.rest, indent, more),
                ls, item.rest, end);
    }
  }

  lemma {:induction false} ItemCovers(ls: seq<Line>, indent: nat, end: nat)
    requires 0 < |ls| <= end
    ensures ItemReadsAll(ls, indent, end)
    decreases |ls|, 2, 1
  {
    if AfterDash(ls[0]) == "" {
      BareItemCovers(ls, indent, end);
    } else if SplitKey(StripComment(AfterDash(ls[0]))).Ok? {
      MappingItemCovers(ls, indent, end);
    } else {
      WordItemCovers(ls, indent, end);
    }
  }

  lemma {:induction false} BareItemCovers(ls: seq<Line>, indent: nat, end: nat)
    requires 0 < |ls| <= end && AfterDash(ls[0]) == ""
    ensures ItemReadsAll(ls, indent, end)
    decreases |ls|, 2, 0
  {
    ChildCovers(ls[1..], indent, end);
    var p := ChildSpec(ls[1..], indent);
    if p.Parsed? { ReadsFirst(ls, ChildReads(ls[1..], indent, end), |p.rest|, end); }
  }

  lemma {:induction false} WordItemCovers(ls: seq<Line>, indent: nat, end: nat)
    requires 0 < |ls| <= end && AfterDash(ls[0]) != "" && SplitKey(StripComment(AfterDash(ls[0]))).Err?
    ensures ItemReadsAll(ls, indent, end)
  {
    CoversNone(ls[1..], end);
    ReadsFirst(ls, [], |ls| - 1, end);
    assert [end - |ls|] + [] == [end - |ls|];
  }

  lemma {:induction false} MappingItemCovers(ls: seq<Line>, indent: nat, end: nat)
    requires 0 < |ls| <= end && SplitKey(StripComment(AfterDash(ls[0]))).Ok?
    ensures ItemReadsAll(ls, indent, end)
    decreases |ls|, 2, 0
  {
    MappingItemFrom(ls, indent, end, OwnEnd(ls, end));
  }

  /** `own` is the position just behind the item's own lines. */
  lemma {:induction false} MappingItemFrom(ls: seq<Line>, indent: nat, end: nat, own: nat)
    requires 0 < |ls| <= end && SplitKey(StripComment(AfterDash(ls[0]))).Ok? && own == OwnEnd(ls, end)
    ensures ItemReadsAll(ls, indent, end)
    decreases |ls|, 1, 2
  {
    OwnLinesCover(ls, own);
    MappingItemIs(ls, indent, end, own);
  }

  /** The mapping read from the item's own list reads all of it. */
  predicate OwnReadsAll(ls: seq<Line>, end: nat)
    requires ls != [] && |ItemLines(ls)| <= end
  {
    MapReadsAll(ItemLines(ls), ItemColumn(ls[0]), [], end)
  }

  lemma {:induction false} OwnLinesCover(ls: seq<Line>, end: nat)
    requires ls != [] && |ItemLines(ls)| <= end
    ensures OwnReadsAll(ls, end)
    decreases |ls|, 1, 1
  {
    InnerCovers(ItemLines(ls), ItemColumn(ls[0]), |ls|, end);
  }

  lemma {:induction false} InnerCovers(item: seq<Line>, column: nat, most: nat, end: nat)
    requires |item| <= most && |item| <= end
    ensures MapReadsAll(item, column, [], end)
    decreases most, 1, 0
  {
    NoEntries();
    MapCovers(item, column, [], end);
  }

  lemma NoEntries()
    ensures EntriesOk([])
  {
  }

  /** The mapping in an item, read from the item's own list. */
  function Inner(ls: seq<Line>): Parsed
    requires ls != []
  {
    MapSpec(ItemLines(ls), ItemColumn(ls[0]), [])
  }

  lemma {:induction false} MappingItemIs(ls: seq<Line>, indent: nat, end: nat, own: nat)
    requires 0 < |ls| <= end && SplitKey(StripComment(AfterDash(ls[0]))).Ok? && own == OwnEnd(ls, end)
    requires OwnReadsAll(ls, own)
    ensures ItemReadsAll(ls, indent, end)
  {
    MappingItemReads(ls, indent, end, own);
    MappingItemLeaves(ls, indent);
    ItemIsReadWhole(ls);
    ReadsItem(Inner(ls), ItemSpec(ls, indent), ItemReads(ls, indent, end), ls, end, own);
  }

  lemma {:induction false} MappingItemLeaves(ls: seq<Line>, indent: nat)
    requires ls != [] && SplitKey(StripComment(AfterDash(ls[0]))).Ok?
    ensures var p := ItemSpec(ls, indent); p.Parsed? ==> Inner(ls).Parsed? && |p.rest| == |ls| - |ItemLines(ls)|
  {
    assert AfterDash(ls[0]) != "";
  }

  lemma {:induction false} ReadsItem(inner: Parsed, outer: Parsed, ps: seq<nat>, ls: seq<Line>, end: nat, own: nat)
    requires 0 < |ls| <= end && SplitKey(StripComment(AfterDash(ls[0]))).Ok? && own == OwnEnd(ls, end)
    requires ReadsAll(inner, ItemLines(ls), ps, own) && (inner.Parsed? ==> inner.rest == [])
    requires outer.Parsed? ==> inner.Parsed? && |outer.rest| == |ls| - |ItemLines(ls)|
    ensures ReadsAll(outer, ls, ps, end)
  {
    ItemLinesFollow(ls);
    if outer.Parsed? { CoversItem(ps, ItemLines(ls), ls, end, own); }
  }

  lemma {:induction false} MappingItemReads(ls: seq<Line>, indent: nat, end: nat, own: nat)
    requires 0 < |ls| <= end && SplitKey(StripComment(AfterDash(ls[0]))).Ok? && own == OwnEnd(ls, end)
    ensures ItemReads(ls, indent, end) == OwnReads(ls, own)
  {
    assert AfterDash(ls[0]) != "";
  }

  /** An item's own list holds, behind the dash line, the lines that follow the dash line. */
  predicate ItemOf(item: seq<Line>, ls: seq<Line>) {
    0 < |item| <= |ls| && !Ignorable(item[0]) && forall k :: 0 < k < |item| ==> item[k] == ls[k]
  }

  lemma {:induction false} ItemLinesFollow(ls: seq<Line>)
    requires ls != [] && SplitKey(StripComment(AfterDash(ls[0]))).Ok?
    ensures ItemOf(ItemLines(ls), ls)
  {
    var column := ItemColumn(ls[0]);
    var n := ItemExtent(ls[1..], column);
    var first := Line(column, Spaces(column) + AfterDash(ls[0]));
    ItemKeepsDashLine(ls);
    DropIsPrefix([first] + ls[1..][..n]);
    BehindFirst(first, ls, n);
  }

  lemma BehindFirst(first: Line, ls: seq<Line>, n: nat)
    requires ls != [] && n <= |ls| - 1
    ensures var all := [first] + ls[1..][..n]; |all| == n + 1 && forall k :: 0 < k < |all| ==> all[k] == ls[k]
  {
  }

  lemma {:induction false} DropIsPrefix(ls: seq<Line>)
    ensures DropIgnorable(ls) <= ls
  {
    if ls != [] && Ignorable(ls[|ls| - 1]) {
      DropIsPrefix(ls[..|ls| - 1]);
    }
  }

  lemma CoversItem(ps: seq<nat>, item: seq<Line>, ls: seq<Line>, end: nat, own: nat)
    requires ItemOf(item, ls) && |ls| <= end && own == end - |ls| + |item| && Covers(ps, item, 0, own)
    ensures Covers(ps, ls, |ls| - |item|, end)
  {
    forall j: nat | j < |item| && !Ignorable(ls[j]) ensures end - |ls| + j in ps {
      assert !Ignorable(item[j]);
    }
  }

  // -------------------------------------------------------------------------------------------
  // Whole texts
  // -------------------------------------------------------------------------------------------

  /** A text that parses has all its lines read, in order and each once: all but the ignorable ones and the
      `---` that may open it. */
  lemma {:induction false} ParseReadsAll(text: string)
    requires ParseSpec(text).Ok?
    ensures ReadLines(Lines(text)).Ok?
    ensures var ls := ReadLines(Lines(text)).value;
            var ps := NodeReads(AfterMarker(ls), 0, |ls|);
            && Increasing(ps) && (forall i :: 0 <= i < |ps| ==> |ls| - |AfterMarker(ls)| <= ps[i] < |ls|)
            && forall j: nat :: j < |ls| && !Ignorable(ls[j]) ==> j in ps || IsMarker(ls, j)
  {
    var ls := ReadLines(Lines(text)).value;
    MarkerOnly(ls);
    BodyReadsAll(AfterMarker(ls), |ls|);
    EveryLine(NodeReads(AfterMarker(ls), 0, |ls|), ls, AfterMarker(ls));
  }

  /** The line at `j` is the `---` right before the body. */
  predicate IsMarker(ls: seq<Line>, j: nat)
    requires j < |ls|
  {
    j + 1 == |ls| - |AfterMarker(ls)| && Trim(ls[j].raw) == "---"
  }

  lemma {:induction false} BodyReadsAll(body: seq<Line>, end: nat)
    requires |body| <= end && NodeSpec(body, 0).Parsed? && SkipIgnorable(NodeSpec(body, 0).rest) == []
    ensures Covers(NodeReads(body, 0, end), body, 0, end)
  {
    var rest, ps := NodeSpec(body, 0).rest, NodeReads(body, 0, end);
    NodeCovers(body, 0, end);
    NodeSound(body, 0);
    SkippedAreIgnorable(rest);
    CoversBoth(ps, [], body, rest, 0, end);
    assert ps + [] == ps;
  }

  lemma {:induction false} MarkerOnly(ls: seq<Line>)
    ensures Suffix(AfterMarker(ls), ls)
    ensures forall j: nat :: j < |ls| - |AfterMarker(ls)| ==> Ignorable(ls[j]) || IsMarker(ls, j)
  {
    SkipSuffix(ls);
    SkippedAreIgnorable(ls);
  }

  lemma EveryLine(ps: seq<nat>, ls: seq<Line>, body: seq<Line>)
    requires Suffix(body, ls) && Covers(ps, body, 0, |ls|)
    ensures forall j: nat :: |ls| - |body| <= j < |ls| && !Ignorable(ls[j]) ==> j in ps
  {
    var at := |ls| - |body|;
    forall j: nat | at <= j < |ls| && !Ignorable(ls[j]) ensures j in ps {
      assert body[j - at] == ls[j];
      assert at + (j - at) in ps;
    }
  }
}
