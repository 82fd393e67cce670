/** The trace annotations of xtask/src/traceability.rs: which lines are tags, and when a file's tags are well formed. */
module Annotations {
  import opened Text
  import opened RequirementIds

  // -------------------------------------------------------------------------------------------
  // One line
  // -------------------------------------------------------------------------------------------

  const TRACE_MARKERS := ["// trace:", "# trace:"]
  const PARTIAL_MARKERS := ["// trace-partial:", "# trace-partial:"]
  const UNCOVERED_MARKERS := ["// uncovered:", "# uncovered:"]

  /** A line's tag, if any: the two spellings are numbered. */
  datatype Mark =
    | Trace(rest: string)
    | Partial(spelling: nat, rest: string)
    | Uncovered(spelling: nat, text: string)
    | NoTag

  datatype Line = Line(mark: Mark, blank: bool, comment: bool)

  /** The first marker that the text begins with, and what follows it. */
  function MatchMarker(t: string, markers: seq<string>, k: nat): Option<(nat, string)>
    requires k <= |markers|
    decreases |markers| - k
  {
    if k == |markers| then None
    else if markers[k] <= t then Some((k, t[|markers[k]|..]))
    else MatchMarker(t, markers, k + 1)
  }

  function MarkOf(t: string): Mark {
    var trace, partial, uncovered :=
      MatchMarker(t, TRACE_MARKERS, 0), MatchMarker(t, PARTIAL_MARKERS, 0), MatchMarker(t, UNCOVERED_MARKERS, 0);
    if trace.Some? then Trace(trace.value.1)
    else if partial.Some? then Partial(partial.value.0, partial.value.1)
    else if uncovered.Some? then Uncovered(uncovered.value.0, uncovered.value.1)
    else NoTag
  }

  /** A Rust comment, or a `#` comment that is no attribute. */
  predicate IsCommentLine(trimmed: string) {
    "//" <= trimmed || (trimmed != "" && trimmed[0] == '#' && !("[" <= trimmed[1..]) && !("!" <= trimmed[1..]))
  }

  function LineOf(text: string): Line {
    Line(MarkOf(TrimStart(text)), Trim(text) == "", IsCommentLine(Trim(text)))
  }

  /** The ids of a tag, or nothing when one of its tokens is no id. */
  function ParseIds(tokens: seq<string>): Option<seq<string>> {
    if tokens == [] then Some([])
    else
      var token, more := Trim(tokens[0]), ParseIds(tokens[1..]);
      if token == "" then more
      else if !IsRequirementId(token) || more.None? then None
      else Some([token] + more.value)
  }

  function TagIds(rest: string): Option<seq<string>> {
    ParseIds(Split(rest, ','))
  }

  predicate BeginsWithId(text: string, id: string) {
    id <= text && (|text| > |id| ==> !IsAlnum(text[|id|]) && text[|id|] != '-')
  }

  /** `M<n>`, with at most one lower-case letter behind it. */
  predicate IsMilestone(milestone: string) {
    exists d: nat :: d < |milestone| && IsMilestoneAt(milestone, d)
  }

  predicate IsMilestoneAt(milestone: string, d: nat)
    requires d < |milestone|
  {
    && milestone[0] == 'M' && 0 < d && AllDigits(milestone[1..d + 1])
    && (milestone[d + 1..] == "" || (|milestone[d + 1..]| == 1 && IsLower(milestone[d + 1])))
  }

  /** The milestone named by the text's trailing `; closes M<n>`. */
  function ClosingMilestone(text: string): Option<string> {
    var t := TrimEnd(text);
    match LastIndex(t, ';')
    case None => None
    case Some(at) =>
      var rest := TrimStart(t[at + 1..]);
      if !("closes" <= rest) then None
      else
        var after := rest[6..];
        if after == "" || !IsWhite(after[0]) then None
        else MilestoneLabel(TrimStart(after))
  }

  function MilestoneLabel(milestone: string): Option<string> {
    if milestone == "" || milestone[0] != 'M' then None
    else
      var digits := DigitRun(milestone, 1) - 1;
      var tail := milestone[1 + digits..];
      if digits == 0 then None
      else if tail == "" || (|tail| == 1 && IsLower(tail[0])) then Some(milestone) else None
  }

  lemma LabelIsMilestone(milestone: string)
    ensures MilestoneLabel(milestone).Some? <==> IsMilestone(milestone)
  {
    if MilestoneLabel(milestone).Some? {
      var d := DigitRun(milestone, 1) - 1;
      assert IsMilestoneAt(milestone, d);
    }
    if IsMilestone(milestone) {
      var d: nat :| d < |milestone| && IsMilestoneAt(milestone, d);
      MilestoneRun(milestone, d);
    }
  }

  lemma {:induction false} MilestoneRun(milestone: string, d: nat)
    requires d < |milestone| && IsMilestoneAt(milestone, d)
    ensures DigitRun(milestone, 1) == d + 1
  {
    var digits := milestone[1..d + 1];
    assert forall i :: 1 <= i < d + 1 ==> milestone[i] == digits[i - 1];
    DigitRunIs(milestone, 1, d + 1);
  }

  // -------------------------------------------------------------------------------------------
  // A file
  // -------------------------------------------------------------------------------------------

  datatype Annotation = Annotation(id: string, line: nat, uncovered: Option<string>)

  datatype Error = BadId(line: nat) | NotAdjacent(line: nat) | NotOneId(line: nat) | NotFollowed(line: nat)
    | OtherId(line: nat) | NoMilestone(line: nat) | Orphan(line: nat)

  /** The first line from `k` on that is not blank. */
  function Anchor(lines: seq<Line>, k: nat): (a: nat)
    requires k <= |lines|
    ensures k <= a <= |lines| && (a < |lines| ==> !lines[a].blank) && forall i :: k <= i < a ==> lines[i].blank
    decreases |lines| - k
  {
    if k == |lines| || !lines[k].blank then k else Anchor(lines, k + 1)
  }

  /** What stands behind a tag, blank lines aside, is there and is no comment. */
  predicate Adjacent(lines: seq<Line>, k: nat)
    requires k <= |lines|
  {
    var a := Anchor(lines, k);
    a < |lines| && !lines[a].comment
  }

  /** Where the `uncovered:` lines of that spelling that start at `k` end. */
  function BlockEnd(lines: seq<Line>, spelling: nat, k: nat): (e: nat)
    requires k <= |lines|
    ensures k <= e <= |lines|
    ensures forall i :: k <= i < e ==> lines[i].mark.Uncovered? && lines[i].mark.spelling == spelling
    ensures e < |lines| ==> !(lines[e].mark.Uncovered? && lines[e].mark.spelling == spelling)
    decreases |lines| - k
  {
    if k == |lines| || !(lines[k].mark.Uncovered? && lines[k].mark.spelling == spelling) then k
    else BlockEnd(lines, spelling, k + 1)
  }

  /** The trimmed texts of the `uncovered:` lines from `k` up to `e`. */
  function Parts(lines: seq<Line>, k: nat, e: nat): seq<string>
    requires k <= e <= |lines| && forall i :: k <= i < e ==> lines[i].mark.Uncovered?
  {
    if k == e then [] else Parts(lines, k, e - 1) + [Trim(lines[e - 1].mark.text)]
  }

  /** The joined field behind the partial tag on line `p`. */
  function Field(lines: seq<Line>, p: nat): string
    requires p < |lines| && lines[p].mark.Partial?
  {
    Trim(Join(Parts(lines, p + 1, BlockEnd(lines, lines[p].mark.spelling, p + 1)), " "))
  }

  predicate TraceOk(lines: seq<Line>, p: nat)
    requires p < |lines| && lines[p].mark.Trace?
  {
    TagIds(lines[p].mark.rest).Some? && Adjacent(lines, p + 1)
  }

  /** One id, an `uncovered:` block of the same spelling that names it and ends with a milestone, and an
      artifact behind the block. */
  predicate PartialOk(lines: seq<Line>, p: nat)
    requires p < |lines| && lines[p].mark.Partial?
  {
    var ids, end := TagIds(lines[p].mark.rest), BlockEnd(lines, lines[p].mark.spelling, p + 1);
    && ids.Some? && |ids.value| == 1 && end > p + 1
    && BeginsWithId(Field(lines, p), ids.value[0]) && ClosingMilestone(Field(lines, p)).Some?
    && Adjacent(lines, end)
  }

  /** The `uncovered:` line `u` belongs to the partial tag on line `p`. */
  predicate OwnedBy(lines: seq<Line>, p: nat, u: nat)
    requires u < |lines|
  {
    p < u && lines[p].mark.Partial?
    && forall i :: p < i <= u ==> lines[i].mark.Uncovered? && lines[i].mark.spelling == lines[p].mark.spelling
  }

  predicate Owned(lines: seq<Line>, u: nat)
    requires u < |lines|
  {
    exists p :: 0 <= p < u && OwnedBy(lines, p, u)
  }

  predicate LineOk(lines: seq<Line>, k: nat)
    requires k < |lines|
  {
    match lines[k].mark
    case Trace(_) => TraceOk(lines, k)
    case Partial(_, _) => PartialOk(lines, k)
    case Uncovered(_, _) => Owned(lines, k)
    case NoTag => true
  }

  /** What the tag on line `k` records. */
  function RecordsOf(lines: seq<Line>, k: nat): seq<Annotation>
    requires k < |lines|
  {
    match lines[k].mark
    case Trace(rest) => if TagIds(rest).Some? then PlainRecords(TagIds(rest).value, k + 1) else []
    case Partial(_, rest) =>
      var ids := TagIds(rest);
      if ids.Some? && |ids.value| == 1 then [Annotation(ids.value[0], k + 1, Some(Field(lines, k)))] else []
    case _ => []
  }

  function PlainRecords(ids: seq<string>, line: nat): seq<Annotation> {
    seq(|ids|, i requires 0 <= i < |ids| => Annotation(ids[i], line, None))
  }

  /** What each line records. */
  function PerLine(lines: seq<Line>): seq<seq<Annotation>> {
    seq(|lines|, k requires 0 <= k < |lines| => RecordsOf(lines, k))
  }

  function Flat(per: seq<seq<Annotation>>, n: nat): seq<Annotation>
    requires n <= |per|
  {
    if n == 0 then [] else Flat(per, n - 1) + per[n - 1]
  }

  function Records(lines: seq<Line>, n: nat): seq<Annotation>
    requires n <= |lines|
  {
    Flat(PerLine(lines), n)
  }

  predicate AllOk(lines: seq<Line>, n: nat)
    requires n <= |lines|
  {
    forall k :: 0 <= k < n ==> LineOk(lines, k)
  }

  // -------------------------------------------------------------------------------------------
  // The scan
  // -------------------------------------------------------------------------------------------

  /** A line behind one that is neither a partial tag nor an `uncovered:` line is nobody's. */
  lemma FreshLine(lines: seq<Line>, i: nat)
    requires i < |lines| && !lines[i].mark.Partial? && !lines[i].mark.Uncovered?
    ensures i + 1 < |lines| ==> !Owned(lines, i + 1)
  {
    var u := i + 1;
    if u < |lines| {
      forall p | 0 <= p < u ensures !OwnedBy(lines, p, u) {
        assert p == i || !lines[i].mark.Uncovered?;
      }
    }
  }

  /** The lines of a partial tag's block are its own, and the line behind the block is nobody's. */
  lemma {:induction false} BlockIsOwned(lines: seq<Line>, p: nat, e: nat)
    requires p < |lines| && lines[p].mark.Partial? && e == BlockEnd(lines, lines[p].mark.spelling, p + 1) && e > p + 1
    ensures forall u :: p < u < e ==> LineOk(lines, u)
    ensures e < |lines| ==> !Owned(lines, e)
  {
    forall u | p < u < e ensures LineOk(lines, u) {
      assert OwnedBy(lines, p, u);
    }
    if e < |lines| {
      forall q | 0 <= q < e ensures !OwnedBy(lines, q, e) {
        NotOwnedBehind(lines, lines[p].mark.spelling, q, e);
      }
    }
  }

  lemma NotOwnedBehind(lines: seq<Line>, spelling: nat, q: nat, e: nat)
    requires q < e < |lines| && lines[e - 1].mark.Uncovered? && lines[e - 1].mark.spelling == spelling
    requires !(lines[e].mark.Uncovered? && lines[e].mark.spelling == spelling)
    ensures !OwnedBy(lines, q, e)
  {
    assert q == e - 1 || q < e - 1;
  }

  lemma {:induction false} FlatSkips(per: seq<seq<Annotation>>, k: nat, e: nat)
    requires k <= e <= |per| && forall i :: k <= i < e ==> per[i] == []
    ensures Flat(per, e) == Flat(per, k)
  {
    if k < e { FlatSkips(per, k, e - 1); }
  }

  /** Nothing is recorded for lines that are no tags. */
  lemma NothingRecorded(lines: seq<Line>, k: nat, e: nat)
    requires k <= e <= |lines| && forall i :: k <= i < e ==> lines[i].mark.Uncovered? || lines[i].mark.NoTag?
    ensures Records(lines, e) == Records(lines, k)
  {
    forall i | k <= i < e ensures PerLine(lines)[i] == [] {
      assert lines[i].mark.Uncovered? || lines[i].mark.NoTag?;
    }
    FlatSkips(PerLine(lines), k, e);
  }

  lemma OtherStep(lines: seq<Line>, i: nat)
    requires i < |lines| && lines[i].mark.NoTag? && AllOk(lines, i)
    ensures AllOk(lines, i + 1) && (i + 1 < |lines| ==> !Owned(lines, i + 1))
    ensures Records(lines, i + 1) == Records(lines, i)
  {
    FreshLine(lines, i);
    NothingRecorded(lines, i, i + 1);
    assert LineOk(lines, i);
  }

  lemma NotAllOk(lines: seq<Line>, k: nat)
    requires k < |lines| && !LineOk(lines, k)
    ensures !AllOk(lines, |lines|)
  {
  }

  lemma TraceStep(lines: seq<Line>, i: nat)
    requires i < |lines| && lines[i].mark.Trace? && TraceOk(lines, i) && AllOk(lines, i)
    ensures AllOk(lines, i + 1) && (i + 1 < |lines| ==> !Owned(lines, i + 1))
    ensures Records(lines, i + 1) == Records(lines, i) + RecordsOf(lines, i)
  {
    FreshLine(lines, i);
    assert LineOk(lines, i);
  }

  lemma {:induction false} PartialStep(lines: seq<Line>, i: nat, end: nat)
    requires i < |lines| && lines[i].mark.Partial? && PartialOk(lines, i) && AllOk(lines, i)
    requires end == BlockEnd(lines, lines[i].mark.spelling, i + 1)
    ensures AllOk(lines, end) && (end < |lines| ==> !Owned(lines, end))
    ensures Records(lines, end) == Records(lines, i) + RecordsOf(lines, i)
  {
    assert LineOk(lines, i);
    BlockIsOwned(lines, i, end);
    NothingRecorded(lines, i + 1, end);
  }

  /** The `uncovered:` lines behind a partial tag. */
  method ReadBlock(lines: seq<Line>, spelling: nat, from: nat) returns (parts: seq<string>, j: nat)
    requires from <= |lines|
    ensures j == BlockEnd(lines, spelling, from) && parts == Parts(lines, from, j)
  {
    parts, j := [], from;
    while j < |lines| && lines[j].mark.Uncovered? && lines[j].mark.spelling == spelling
      invariant from <= j <= |lines| && BlockEnd(lines, spelling, j) == BlockEnd(lines, spelling, from)
      invariant forall i :: from <= i < j ==> lines[i].mark.Uncovered?
      invariant parts == Parts(lines, from, j)
    {
      parts := parts + [Trim(lines[j].mark.text)];
      j := j + 1;
    }
  }

  /** One plain tag: an annotation for each of its ids. */
  method ReadTrace(lines: seq<Line>, p: nat) returns (r: Result<seq<Annotation>, Error>)
    requires p < |lines| && lines[p].mark.Trace?
    ensures r.Ok? <==> TraceOk(lines, p)
    ensures r.Ok? ==> r.value == RecordsOf(lines, p)
  {
    var ids := TagIds(lines[p].mark.rest);
    if ids.None? {
      return Err(BadId(p + 1));
    }
    if !Adjacent(lines, p + 1) {
      return Err(NotAdjacent(p + 1));
    }
    r := Ok(PlainRecords(ids.value, p + 1));
  }

  /** One partial tag: its annotation and the line behind its block. */
  method ReadPartial(lines: seq<Line>, p: nat) returns (r: Result<Annotation, Error>, end: nat)
    requires p < |lines| && lines[p].mark.Partial?
    ensures r.Ok? <==> PartialOk(lines, p)
    ensures r.Ok? ==> [r.value] == RecordsOf(lines, p) && end == BlockEnd(lines, lines[p].mark.spelling, p + 1)
  {
    end := p + 1;
    var ids := TagIds(lines[p].mark.rest);
    if ids.None? {
      return Err(BadId(p + 1)), end;
    }
    if |ids.value| != 1 {
      return Err(NotOneId(p + 1)), end;
    }
    var parts;
    parts, end := ReadBlock(lines, lines[p].mark.spelling, p + 1);
    if parts == [] {
      assert end == p + 1;
      return Err(NotFollowed(p + 1)), end;
    }
    var uncovered := Trim(Join(parts, " "));
    if !BeginsWithId(uncovered, ids.value[0]) {
      return Err(OtherId(p + 1)), end;
    }
    if ClosingMilestone(uncovered).None? {
      return Err(NoMilestone(p + 1)), end;
    }
    if !Adjacent(lines, end) {
      return Err(NotAdjacent(p + 1)), end;
    }
    r := Ok(Annotation(ids.value[0], p + 1, Some(uncovered)));
  }

  /** The lines before `i` are in order and recorded, and no block of theirs goes on. */
  predicate Scanned(lines: seq<Line>, i: nat, out: seq<Annotation>) {
    && i <= |lines| && AllOk(lines, i) && out == Records(lines, i)
    && (i < |lines| ==> !Owned(lines, i))
  }

  lemma {:induction false} TraceScanned(lines: seq<Line>, i: nat, out: seq<Annotation>)
    requires i < |lines| && lines[i].mark.Trace? && TraceOk(lines, i) && Scanned(lines, i, out)
    ensures Scanned(lines, i + 1, out + RecordsOf(lines, i))
  {
    TraceStep(lines, i);
  }

  lemma {:induction false} PartialScanned(lines: seq<Line>, i: nat, end: nat, out: seq<Annotation>)
    requires i < |lines| && lines[i].mark.Partial? && PartialOk(lines, i) && Scanned(lines, i, out)
    requires end == BlockEnd(lines, lines[i].mark.spelling, i + 1)
    ensures i < end && Scanned(lines, end, out + RecordsOf(lines, i))
  {
    PartialStep(lines, i, end);
  }

  lemma {:induction false} OtherScanned(lines: seq<Line>, i: nat, out: seq<Annotation>)
    requires i < |lines| && lines[i].mark.NoTag? && Scanned(lines, i, out)
    ensures Scanned(lines, i + 1, out)
  {
    OtherStep(lines, i);
  }

  /** The scan accepts a file exactly when every tag line in it is well formed, no `uncovered:` line standing
      alone, and then records each tag in order. */
  method ScanAnnotations(lines: seq<Line>) returns (r: Result<seq<Annotation>, Error>)
    ensures r.Ok? <==> AllOk(lines, |lines|)
    ensures r.Ok? ==> r.value == Records(lines, |lines|)
  {
    var out: seq<Annotation> := [];
    var i := 0;
    while i < |lines|
      invariant Scanned(lines, i, out)
    {
      match lines[i].mark
      case Trace(_) =>
        var tags := ReadTrace(lines, i);
        if tags.Err? {
          NotAllOk(lines, i);
          return Err(tags.error);
        }
        TraceScanned(lines, i, out);
        out := out + tags.value;
        i := i + 1;
      case Partial(_, _) =>
        var tag, end := ReadPartial(lines, i);
        if tag.Err? {
          NotAllOk(lines, i);
          return Err(tag.error);
        }
        PartialScanned(lines, i, end, out);
        out := out + [tag.value];
        i := end;
      case Uncovered(_, _) =>
        NotAllOk(lines, i);
        return Err(Orphan(i + 1));
      case NoTag =>
        OtherScanned(lines, i, out);
        i := i + 1;
    }
    r := Ok(out);
  }

  /** In a file that passes, no annotation is without an artifact: behind every tag, its own block and blank
      lines aside, stands a line that is no comment; so no two tags are stacked on one artifact. */
  lemma TagsAreNotStacked(lines: seq<Line>, p: nat, q: nat)
    requires AllOk(lines, |lines|) && p < q < |lines|
    requires (forall k :: 0 <= k < |lines| ==> !lines[k].mark.NoTag? ==> lines[k].comment && !lines[k].blank)
    requires (lines[p].mark.Trace? || lines[p].mark.Partial?) && (lines[q].mark.Trace? || lines[q].mark.Partial?)
    ensures exists a :: p < a < q && !lines[a].blank && !lines[a].comment
  {
    assert LineOk(lines, p);
    var end := if lines[p].mark.Partial? then BlockEnd(lines, lines[p].mark.spelling, p + 1) else p + 1;
    assert !lines[q].mark.Uncovered?;
    ArtifactBefore(lines, end, q);
  }

  lemma ArtifactBefore(lines: seq<Line>, end: nat, q: nat)
    requires end <= q < |lines| && Adjacent(lines, end) && lines[q].comment && !lines[q].blank
    ensures exists a :: end <= a < q && !lines[a].blank && !lines[a].comment
  {
    var a := Anchor(lines, end);
    assert a <= q;
    assert end <= a < q && !lines[a].blank && !lines[a].comment;
  }

  /** Every tag line is a comment and is not blank. */
  lemma TagIsComment(text: string)
    requires !LineOf(text).mark.NoTag?
    ensures LineOf(text).comment && !LineOf(text).blank
  {
    var t := TrimStart(text);
    MarkedStart(t);
    TrimEndPrefix(t);
    var trimmed := TrimEnd(t);
    assert trimmed[0] == t[0];
    if t[0] == '/' { assert trimmed[1] == t[1]; }
  }

  lemma {:induction false} MarkerMatches(t: string, markers: seq<string>, k: nat)
    requires k <= |markers|
    ensures var r := MatchMarker(t, markers, k); r.Some? ==> exists m :: k <= m < |markers| && markers[m] <= t
    decreases |markers| - k
  {
    if k < |markers| && !(markers[k] <= t) { MarkerMatches(t, markers, k + 1); }
  }

  /** A tag line begins with two slashes or with a hash and a space. */
  predicate StartsComment(t: string) {
    |t| > 1 && ((t[0] == '/' && t[1] == '/') || (t[0] == '#' && t[1] == ' '))
  }

  lemma {:induction false} MarkersStart(t: string, markers: seq<string>)
    requires forall m :: 0 <= m < |markers| ==> StartsComment(markers[m])
    requires MatchMarker(t, markers, 0).Some?
    ensures StartsComment(t)
  {
    MarkerMatches(t, markers, 0);
    var m :| 0 <= m < |markers| && markers[m] <= t;
    assert t[0] == markers[m][0] && t[1] == markers[m][1];
  }

  lemma MarkedStart(t: string)
    requires !MarkOf(t).NoTag?
    ensures StartsComment(t)
  {
    if MatchMarker(t, TRACE_MARKERS, 0).Some? {
      MarkersStart(t, TRACE_MARKERS);
    } else if MatchMarker(t, PARTIAL_MARKERS, 0).Some? {
      MarkersStart(t, PARTIAL_MARKERS);
    } else {
      MarkersStart(t, UNCOVERED_MARKERS);
    }
  }

  lemma {:induction false} TrimEndPrefix(s: string)
    ensures TrimEnd(s) <= s
    ensures forall k :: 0 <= k < |s| && !IsWhite(s[k]) ==> k < |TrimEnd(s)|
  {
    if s != "" && IsWhite(s[|s| - 1]) { TrimEndPrefix(s[..|s| - 1]); }
  }
}
