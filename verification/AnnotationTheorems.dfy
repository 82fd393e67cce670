/** What a line of a scanned file is, and what a file that passes has recorded. */
module AnnotationTheorems {
  import opened Text
  import opened TextTheorems
  import opened RequirementIds
  import opened Annotations

  // -------------------------------------------------------------------------------------------
  // One line
  // -------------------------------------------------------------------------------------------

  /** The six markers and what each makes of a line; the rest of the line follows the marker. */
  lemma MarkIs(t: string, rest: string)
    ensures MarkOf(t) == Trace(rest) <==> t == "// trace:" + rest || t == "# trace:" + rest
    ensures MarkOf(t) == Partial(0, rest) <==> t == "// trace-partial:" + rest
    ensures MarkOf(t) == Partial(1, rest) <==> t == "# trace-partial:" + rest
    ensures MarkOf(t) == Uncovered(0, rest) <==> t == "// uncovered:" + rest
    ensures MarkOf(t) == Uncovered(1, rest) <==> t == "# uncovered:" + rest
  {
    TwoMarkers(t, TRACE_MARKERS, "// trace:", "# trace:", rest);
    TwoMarkers(t, PARTIAL_MARKERS, "// trace-partial:", "# trace-partial:", rest);
    TwoMarkers(t, UNCOVERED_MARKERS, "// uncovered:", "# uncovered:", rest);
    Apart(t, "// trace:", "// trace-partial:", 8);
    Apart(t, "# trace:", "# trace-partial:", 7);
    Apart(t, "// trace:", "// uncovered:", 3);
    Apart(t, "# trace:", "# uncovered:", 2);
    Apart(t, "// trace-partial:", "// uncovered:", 3);
    Apart(t, "# trace-partial:", "# uncovered:", 2);
    Apart(t, "// trace:", "# trace-partial:", 0);
    Apart(t, "# trace:", "// trace-partial:", 0);
    Apart(t, "// trace:", "# uncovered:", 0);
    Apart(t, "# trace:", "// uncovered:", 0);
    Apart(t, "// trace-partial:", "# uncovered:", 0);
    Apart(t, "# trace-partial:", "// uncovered:", 0);
  }

  lemma Apart(t: string, a: string, b: string, k: nat)
    requires k < |a| && k < |b| && a[k] != b[k]
    ensures !(a <= t && b <= t)
  {
    assert a <= t ==> t[k] == a[k];
    assert b <= t ==> t[k] == b[k];
  }

  lemma {:induction false} TwoMarkers(t: string, markers: seq<string>, a: string, b: string, rest: string)
    requires markers == [a, b] && a != "" && b != "" && a[0] != b[0]
    ensures MatchMarker(t, markers, 0) == Some((0, rest)) <==> t == a + rest
    ensures MatchMarker(t, markers, 0) == Some((1, rest)) <==> t == b + rest
    ensures MatchMarker(t, markers, 0).Some? <==> a <= t || b <= t
    ensures var r := MatchMarker(t, markers, 0); r.Some? ==> r.value.0 < 2
  {
    Apart(t, a, b, 0);
    assert a <= t ==> t == a + t[|a|..];
    assert b <= t ==> t == b + t[|b|..];
    assert MatchMarker(t, markers, 2) == None;
    assert (a + rest)[|a|..] == rest && (b + rest)[|b|..] == rest;
  }

  /** A comment line starts with two slashes, or with a hash that opens no attribute. */
  lemma CommentIff(t: string)
    ensures IsCommentLine(t) <==>
            || (|t| > 1 && t[0] == '/' && t[1] == '/')
            || (|t| > 0 && t[0] == '#' && (|t| > 1 ==> t[1] != '[' && t[1] != '!'))
  {
  }

  /** The tokens between commas that are not blank, trimmed, in order. */
  function Tokens(pieces: seq<string>): seq<string> {
    if pieces == [] then []
    else
      var last := Trim(pieces[|pieces| - 1]);
      Tokens(pieces[..|pieces| - 1]) + if last == "" then [] else [last]
  }

  lemma {:induction false} TokensFirst(first: string, more: seq<string>)
    ensures Tokens([first] + more) == (if Trim(first) == "" then [] else [Trim(first)]) + Tokens(more)
  {
    var all := [first] + more;
    if more == [] {
      assert all[..0] == [];
    } else {
      assert all[..|all| - 1] == [first] + more[..|more| - 1];
      TokensFirst(first, more[..|more| - 1]);
    }
  }

  /** A tag's ids are its tokens, when all of them are ids. */
  lemma {:induction false} IdsAre(pieces: seq<string>)
    ensures ParseIds(pieces) == if AllIds(Tokens(pieces)) then Some(Tokens(pieces)) else None
  {
    if pieces != [] {
      IdsAre(pieces[1..]);
      TokensFirst(pieces[0], pieces[1..]);
      assert pieces == [pieces[0]] + pieces[1..];
      FirstId(Trim(pieces[0]), Tokens(pieces[1..]));
    }
  }

  predicate AllIds(tokens: seq<string>) {
    forall i :: 0 <= i < |tokens| ==> IsRequirementId(tokens[i])
  }

  lemma FirstId(token: string, more: seq<string>)
    ensures AllIds([token] + more) <==> IsRequirementId(token) && AllIds(more)
    ensures [] + more == more
  {
    var all := [token] + more;
    assert all[0] == token && forall i :: 0 <= i < |more| ==> all[i + 1] == more[i];
  }

  /** The id stands at the start, and no longer id does. */
  lemma BeginsIff(text: string, id: string)
    ensures BeginsWithId(text, id) <==>
            id <= text && (text == id || !(IsAlnum(text[|id|]) || text[|id|] == '-'))
  {
  }

  /** `; closes M<n>` at the end of `t`, whatever white space is inside it. */
  predicate Closes(t: string, before: string, gap: string, space: string, milestone: string) {
    && t == before + ";" + gap + "closes" + space + milestone
    && AllWhite(gap) && AllWhite(space) && space != "" && IsMilestone(milestone)
  }

  ghost predicate EndsClosing(t: string, milestone: string) {
    exists before, gap, space :: Closes(t, before, gap, space, milestone)
  }

  /** A text names the milestone that its trailing clause closes, and none without one. */
  lemma {:induction false} ClosesIff(text: string, milestone: string)
    ensures ClosingMilestone(text) == Some(milestone) <==>
            EndsClosing(TrimEnd(text), milestone)
  {
    var t := TrimEnd(text);
    TrimEndId(t);
    assert ClosingMilestone(t) == ClosingMilestone(text);
    if ClosingMilestone(t) == Some(milestone) {
      ClosesFound(t, milestone);
    }
    if EndsClosing(t, milestone) {
      EndsRead(t, milestone);
    }
  }

  lemma {:induction false} EndsRead(t: string, milestone: string)
    requires EndsClosing(t, milestone)
    ensures TrimEnd(t) == t && ClosingMilestone(t) == Some(milestone)
  {
    var before, gap, space :| Closes(t, before, gap, space, milestone);
    ClosesRead(t, before, gap, space, milestone);
  }

  lemma {:induction false} ClosesFound(t: string, milestone: string)
    requires TrimEnd(t) == t && ClosingMilestone(t) == Some(milestone)
    ensures EndsClosing(t, milestone)
  {
    var before, rest, after := ClauseOf(t, milestone);
    var gap := TrimSplits(rest);
    var space := TrimSplits(after);
    Chain(before, gap, space, milestone, t, rest, after);
    SpaceFirst(after, space);
    assert Closes(t, before, gap, space, milestone);
  }

  /** What the scan for the clause goes through. */
  lemma ClauseOf(t: string, milestone: string) returns (before: string, rest: string, after: string)
    requires TrimEnd(t) == t && ClosingMilestone(t) == Some(milestone)
    ensures t == before + ";" + rest && TrimStart(rest) == "closes" + after
    ensures after != "" && IsWhite(after[0]) && TrimStart(after) == milestone && IsMilestone(milestone)
  {
    var at := LastIndex(t, ';').value;
    before, rest := t[..at], t[at + 1..];
    after := TrimStart(rest)[6..];
    LabelIsItself(TrimStart(after));
    LabelIsMilestone(milestone);
  }

  lemma {:induction false} SpaceFirst(after: string, space: string)
    requires after != "" && IsWhite(after[0]) && after == space + TrimStart(after)
    ensures space != ""
  {
  }

  lemma Chain(before: string, gap: string, space: string, milestone: string, t: string, rest: string, after: string)
    requires t == before + ";" + rest && rest == gap + ("closes" + after) && after == space + milestone
    ensures t == before + ";" + gap + "closes" + space + milestone
  {
  }

  lemma {:induction false} ClosesRead(t: string, before: string, gap: string, space: string, milestone: string)
    requires Closes(t, before, gap, space, milestone)
    ensures TrimEnd(t) == t && ClosingMilestone(t) == Some(milestone)
  {
    var d: nat :| d < |milestone| && IsMilestoneAt(milestone, d);
    var after := space + milestone;
    var rest := gap + ("closes" + after);
    MilestoneChars(milestone, d);
    assert t == before + ";" + rest;
    assert t[|t| - 1] == milestone[|milestone| - 1];
    TrimEndId(t);
    NoSemicolon(rest, gap, space, milestone);
    LastAt(t, before, rest);
    assert t[|before| + 1..] == rest;
    TrimOver(gap, "closes" + after);
    assert ("closes" + after)[6..] == after;
    TrimOver(space, milestone);
    LabelIsMilestone(milestone);
    LabelIsItself(milestone);
  }

  lemma LabelIsItself(milestone: string)
    ensures MilestoneLabel(milestone).Some? ==> MilestoneLabel(milestone) == Some(milestone)
  {
  }

  lemma MilestoneChars(milestone: string, d: nat)
    requires d < |milestone| && IsMilestoneAt(milestone, d)
    ensures forall i :: 0 <= i < |milestone| ==> IsAlnum(milestone[i])
    ensures milestone[0] == 'M' && !IsWhite(milestone[|milestone| - 1]) && ';' !in milestone
  {
    forall i | 0 <= i < |milestone| ensures IsAlnum(milestone[i]) {
      if 1 <= i < d + 1 { assert milestone[1..d + 1][i - 1] == milestone[i]; }
    }
  }

  lemma NoSemicolon(rest: string, gap: string, space: string, milestone: string)
    requires rest == gap + ("closes" + (space + milestone)) && AllWhite(gap) && AllWhite(space) && ';' !in milestone
    ensures ';' !in rest
  {
  }

  lemma {:induction false} LastAt(t: string, before: string, rest: string)
    requires t == before + ";" + rest && ';' !in rest
    ensures LastIndex(t, ';') == Some(|before|)
  {
    assert t[|before|] == ';';
    assert forall i :: |before| < i < |t| ==> t[i] == rest[i - |before| - 1];
  }

  // -------------------------------------------------------------------------------------------
  // Tags
  // -------------------------------------------------------------------------------------------

  /** Line `a` is the first behind `k` that is not blank, and it is no comment. */
  predicate ArtifactAt(lines: seq<Line>, k: nat, a: nat) {
    k <= a < |lines| && !lines[a].blank && !lines[a].comment && forall i :: k <= i < a ==> lines[i].blank
  }

  ghost predicate HasArtifact(lines: seq<Line>, k: nat) {
    exists a: nat :: ArtifactAt(lines, k, a)
  }

  /** The `uncovered:` lines of a spelling reach from `k` up to `e` and no further. */
  predicate BlockTo(lines: seq<Line>, spelling: nat, k: nat, e: nat) {
    && k <= e <= |lines|
    && (forall i :: k <= i < e ==> lines[i].mark.Uncovered? && lines[i].mark.spelling == spelling)
    && (e < |lines| ==> !(lines[e].mark.Uncovered? && lines[e].mark.spelling == spelling))
  }

  /** What the `uncovered:` lines from `k` up to `e` say, joined. */
  ghost predicate Says(lines: seq<Line>, k: nat, e: nat, field: string) {
    && k <= e <= |lines| && (forall i :: k <= i < e ==> lines[i].mark.Uncovered?)
    && exists parts: seq<string> :: AreParts(lines, k, e, parts) && field == Trim(Join(parts, " "))
  }

  /** The trimmed texts of those lines, in order. */
  predicate AreParts(lines: seq<Line>, k: nat, e: nat, parts: seq<string>)
    requires k <= e <= |lines| && forall i :: k <= i < e ==> lines[i].mark.Uncovered?
  {
    |parts| == e - k && forall i :: k <= i < e ==> parts[i - k] == Trim(lines[i].mark.text)
  }

  lemma AdjacentIff(lines: seq<Line>, k: nat)
    requires k <= |lines|
    ensures Adjacent(lines, k) <==> HasArtifact(lines, k)
  {
    if Adjacent(lines, k) {
      assert ArtifactAt(lines, k, Anchor(lines, k));
    }
    if a: nat :| ArtifactAt(lines, k, a) {
      assert Anchor(lines, k) == a;
    }
  }

  /** A plain tag is in order when its tokens are ids and an artifact follows it. */
  lemma TraceOkIff(lines: seq<Line>, p: nat)
    requires p < |lines| && lines[p].mark.Trace?
    ensures var ids := Tokens(Split(lines[p].mark.rest, ','));
            TraceOk(lines, p) <==>
              && AllIds(ids)
              && HasArtifact(lines, p + 1)
  {
    IdsAre(Split(lines[p].mark.rest, ','));
    AdjacentIff(lines, p + 1);
  }

  ghost predicate NamesMilestone(field: string) {
    exists milestone :: EndsClosing(field, milestone)
  }

  /** What a partial tag on line `p` needs: one id; a block behind it up to `e`, not empty, that says `field`, which
      names the id and ends with a milestone; and an artifact behind the block. */
  ghost predicate PartialFine(lines: seq<Line>, p: nat, e: nat, id: string, field: string)
    requires p < |lines| && lines[p].mark.Partial?
  {
    && OnlyToken(lines[p].mark.rest, id)
    && p + 1 < e && HasBlock(lines, p, e, field)
    && FieldReads(field, id)
    && HasArtifact(lines, e)
  }

  predicate OnlyToken(rest: string, id: string) {
    Tokens(Split(rest, ',')) == [id] && IsRequirementId(id)
  }

  ghost predicate HasBlock(lines: seq<Line>, p: nat, e: nat, field: string)
    requires p < |lines| && lines[p].mark.Partial?
  {
    BlockTo(lines, lines[p].mark.spelling, p + 1, e) && Says(lines, p + 1, e, field)
  }

  ghost predicate FieldReads(field: string, id: string) {
    && id <= field && (field == id || !(IsAlnum(field[|id|]) || field[|id|] == '-'))
    && NamesMilestone(field)
  }

  ghost predicate FineWith(lines: seq<Line>, p: nat, id: string, field: string)
    requires p < |lines| && lines[p].mark.Partial?
  {
    exists e: nat :: PartialFine(lines, p, e, id, field)
  }

  ghost predicate IsFine(lines: seq<Line>, p: nat)
    requires p < |lines| && lines[p].mark.Partial?
  {
    exists id, field :: FineWith(lines, p, id, field)
  }

  /** A partial tag is in order when it is so for some end of its block, some id and some field. */
  lemma PartialOkIff(lines: seq<Line>, p: nat)
    requires p < |lines| && lines[p].mark.Partial?
    ensures PartialOk(lines, p) <==> IsFine(lines, p)
  {
    if PartialOk(lines, p) {
      PartialIsFine(lines, p);
    }
    if IsFine(lines, p) {
      var id, field :| FineWith(lines, p, id, field);
      var e: nat :| PartialFine(lines, p, e, id, field);
      FineIsOk(lines, p, e, id, field);
    }
  }

  lemma FineIsOk(lines: seq<Line>, p: nat, e: nat, id: string, field: string)
    requires p < |lines| && lines[p].mark.Partial? && PartialFine(lines, p, e, id, field)
    ensures PartialOk(lines, p)
  {
    OneId(lines[p].mark.rest, id);
    BlockSays(lines, p, e, field);
    FieldReadsIff(field, id);
    AdjacentIff(lines, e);
  }

  lemma OneId(rest: string, id: string)
    ensures TagIds(rest) == Some([id]) <==> OnlyToken(rest, id)
  {
    IdsAre(Split(rest, ','));
    assert AllIds([id]) <==> IsRequirementId([id][0]);
  }

  lemma PartialIsFine(lines: seq<Line>, p: nat)
    requires p < |lines| && lines[p].mark.Partial? && PartialOk(lines, p)
    ensures IsFine(lines, p)
  {
    var e, field := BlockEnd(lines, lines[p].mark.spelling, p + 1), Field(lines, p);
    var id := TagPart(lines, p, e, field);
    ReadsFine(lines, p, e, id, field);
  }

  lemma TagPart(lines: seq<Line>, p: nat, e: nat, field: string) returns (id: string)
    requires p < |lines| && lines[p].mark.Partial? && PartialOk(lines, p)
    requires e == BlockEnd(lines, lines[p].mark.spelling, p + 1) && field == Field(lines, p)
    ensures OnlyToken(lines[p].mark.rest, id) && HasBlock(lines, p, e, field) && p + 1 < e <= |lines|
    ensures TrimEnd(field) == field && BeginsWithId(field, id) && ClosingMilestone(field).Some? && Adjacent(lines, e)
  {
    id := OnlyId(lines[p].mark.rest);
    BlockSays(lines, p, e, field);
  }

  lemma OnlyId(rest: string) returns (id: string)
    requires TagIds(rest).Some? && |TagIds(rest).value| == 1
    ensures id == TagIds(rest).value[0] && OnlyToken(rest, id)
  {
    id := TagIds(rest).value[0];
    assert TagIds(rest).value == [id];
    OneId(rest, id);
  }

  lemma {:induction false} ReadsFine(lines: seq<Line>, p: nat, e: nat, id: string, field: string)
    requires p < |lines| && lines[p].mark.Partial?
    requires OnlyToken(lines[p].mark.rest, id) && HasBlock(lines, p, e, field) && p + 1 < e <= |lines|
    requires TrimEnd(field) == field && BeginsWithId(field, id) && ClosingMilestone(field).Some? && Adjacent(lines, e)
    ensures IsFine(lines, p)
  {
    FieldReadsIff(field, id);
    AdjacentIff(lines, e);
    FineTogether(lines, p, e, id, field);
  }

  lemma FineTogether(lines: seq<Line>, p: nat, e: nat, id: string, field: string)
    requires p < |lines| && lines[p].mark.Partial?
    requires OnlyToken(lines[p].mark.rest, id) && p + 1 < e && HasBlock(lines, p, e, field)
    requires FieldReads(field, id) && HasArtifact(lines, e)
    ensures IsFine(lines, p)
  {
    assert PartialFine(lines, p, e, id, field);
    assert FineWith(lines, p, id, field);
  }

  lemma {:induction false} PartsAre(lines: seq<Line>, k: nat, e: nat)
    requires k <= e <= |lines| && forall i :: k <= i < e ==> lines[i].mark.Uncovered?
    ensures AreParts(lines, k, e, Parts(lines, k, e))
    ensures forall parts :: AreParts(lines, k, e, parts) ==> parts == Parts(lines, k, e)
    decreases e
  {
    if k < e {
      PartsAre(lines, k, e - 1);
    }
    forall parts | AreParts(lines, k, e, parts) ensures parts == Parts(lines, k, e) {
      SameParts(lines, k, e, parts, Parts(lines, k, e));
    }
  }

  lemma SameParts(lines: seq<Line>, k: nat, e: nat, a: seq<string>, b: seq<string>)
    requires k <= e <= |lines| && forall i :: k <= i < e ==> lines[i].mark.Uncovered?
    requires AreParts(lines, k, e, a) && AreParts(lines, k, e, b)
    ensures a == b
  {
    forall i | 0 <= i < |a| ensures a[i] == b[i] {
      assert lines[k + i].mark.Uncovered?;
    }
  }

  lemma {:induction false} FieldSays(lines: seq<Line>, p: nat, e: nat, field: string)
    requires p < |lines| && lines[p].mark.Partial? && BlockTo(lines, lines[p].mark.spelling, p + 1, e)
    ensures BlockEnd(lines, lines[p].mark.spelling, p + 1) == e
    ensures Says(lines, p + 1, e, field) <==> field == Field(lines, p)
  {
    var end := BlockEnd(lines, lines[p].mark.spelling, p + 1);
    assert end == e;
    PartsAre(lines, p + 1, e);
  }

  lemma {:induction false} BlockSays(lines: seq<Line>, p: nat, e: nat, field: string)
    requires p < |lines| && lines[p].mark.Partial?
    ensures HasBlock(lines, p, e, field) <==>
            e == BlockEnd(lines, lines[p].mark.spelling, p + 1) && field == Field(lines, p)
  {
    var end := BlockEnd(lines, lines[p].mark.spelling, p + 1);
    assert BlockTo(lines, lines[p].mark.spelling, p + 1, end);
    FieldSays(lines, p, end, field);
    if BlockTo(lines, lines[p].mark.spelling, p + 1, e) {
      FieldSays(lines, p, e, field);
    }
  }

  lemma {:induction false} FieldReadsIff(field: string, id: string)
    requires TrimEnd(field) == field
    ensures FieldReads(field, id) <==> BeginsWithId(field, id) && ClosingMilestone(field).Some?
  {
    BeginsIff(field, id);
    ClosesSome(field);
  }

  /** A field is trimmed, so its closing clause is at its very end. */
  lemma {:induction false} ClosesSome(field: string)
    requires TrimEnd(field) == field
    ensures ClosingMilestone(field).Some? <==> NamesMilestone(field)
  {
    if ClosingMilestone(field).Some? {
      ClosesIff(field, ClosingMilestone(field).value);
    }
    if milestone :| EndsClosing(field, milestone) {
      ClosesIff(field, milestone);
    }
  }

  // -------------------------------------------------------------------------------------------
  // What is recorded
  // -------------------------------------------------------------------------------------------

  /** What line `k` of a file that passes records: for a plain tag each of its ids, for a partial one its id with
      what is uncovered, each with the line's number; for another line nothing. */
  ghost predicate Recorded(lines: seq<Line>, k: nat, a: Annotation)
    requires k < |lines|
  {
    && a.line == k + 1
    && match lines[k].mark
       case Trace(rest) => a.uncovered == None && a.id in Tokens(Split(rest, ','))
       case Partial(_, _) => a.uncovered.Some? && FineWith(lines, k, a.id, a.uncovered.value)
       case _ => false
  }

  lemma RecordsAt(lines: seq<Line>, k: nat, a: Annotation)
    requires k < |lines| && LineOk(lines, k)
    ensures a in RecordsOf(lines, k) <==> Recorded(lines, k, a)
  {
    match lines[k].mark
    case Trace(rest) =>
      IdsAre(Split(rest, ','));
      PlainAre(TagIds(rest).value, k + 1, a);
    case Partial(spelling, rest) =>
      IdsAre(Split(rest, ','));
      PartialRecorded(lines, k, a);
    case _ =>
  }

  lemma PlainAre(ids: seq<string>, line: nat, a: Annotation)
    ensures a in PlainRecords(ids, line) <==> a.id in ids && a.line == line && a.uncovered == None
  {
    if a.id in ids && a.line == line && a.uncovered == None {
      var i :| 0 <= i < |ids| && ids[i] == a.id;
      assert PlainRecords(ids, line)[i] == a;
    }
  }

  lemma PartialRecorded(lines: seq<Line>, k: nat, a: Annotation)
    requires k < |lines| && lines[k].mark.Partial? && PartialOk(lines, k)
    ensures a in RecordsOf(lines, k) <==> Recorded(lines, k, a)
  {
    var id, field := PartialRecord(lines, k);
    OnlyOne(RecordsOf(lines, k), Annotation(id, k + 1, Some(field)), a);
    if a.line == k + 1 && a.uncovered.Some? && FineWith(lines, k, a.id, a.uncovered.value) {
      FineRecords(lines, k, a.id, a.uncovered.value);
      OnlyOne(RecordsOf(lines, k), Annotation(a.id, k + 1, Some(a.uncovered.value)), a);
    }
  }

  lemma OnlyOne<T>(xs: seq<T>, x: T, y: T)
    requires xs == [x]
    ensures y in xs <==> y == x
  {
  }

  lemma PartialRecord(lines: seq<Line>, k: nat) returns (id: string, field: string)
    requires k < |lines| && lines[k].mark.Partial? && PartialOk(lines, k)
    ensures FineWith(lines, k, id, field) && RecordsOf(lines, k) == [Annotation(id, k + 1, Some(field))]
  {
    PartialOkIff(lines, k);
    id, field :| FineWith(lines, k, id, field);
    FineRecords(lines, k, id, field);
  }

  lemma FineRecords(lines: seq<Line>, k: nat, id: string, field: string)
    requires k < |lines| && lines[k].mark.Partial? && FineWith(lines, k, id, field)
    ensures RecordsOf(lines, k) == [Annotation(id, k + 1, Some(field))]
  {
    var e: nat :| PartialFine(lines, k, e, id, field);
    OneId(lines[k].mark.rest, id);
    BlockSays(lines, k, e, field);
  }

  lemma {:induction false} FlatHas(per: seq<seq<Annotation>>, n: nat, a: Annotation)
    requires n <= |per|
    ensures a in Flat(per, n) <==> exists k :: 0 <= k < n && a in per[k]
  {
    if n > 0 {
      FlatHas(per, n - 1, a);
    }
  }

  /** Some line before `n` records it. */
  ghost predicate RecordedBefore(lines: seq<Line>, n: nat, a: Annotation)
    requires n <= |lines|
  {
    exists k :: 0 <= k < n && Recorded(lines, k, a)
  }

  lemma OkAt(lines: seq<Line>, n: nat, k: nat)
    requires k < n <= |lines| && AllOk(lines, n)
    ensures LineOk(lines, k)
  {
  }

  lemma RecordedAt(lines: seq<Line>, n: nat, k: nat, a: Annotation)
    requires k < n <= |lines| && AllOk(lines, n)
    ensures a in PerLine(lines)[k] <==> Recorded(lines, k, a)
  {
    OkAt(lines, n, k);
    RecordsAt(lines, k, a);
  }

  lemma HasBefore(lines: seq<Line>, per: seq<seq<Annotation>>, n: nat, a: Annotation)
    requires n <= |lines| == |per|
    requires forall k :: 0 <= k < n ==> (a in per[k] <==> Recorded(lines, k, a))
    ensures (exists k :: 0 <= k < n && a in per[k]) <==> RecordedBefore(lines, n, a)
  {
  }

  /** A file that passes has recorded exactly what its tags say. */
  lemma FileRecords(lines: seq<Line>, n: nat, a: Annotation)
    requires n <= |lines| && AllOk(lines, n)
    ensures a in Records(lines, n) <==> RecordedBefore(lines, n, a)
  {
    var per := PerLine(lines);
    forall k | 0 <= k < n ensures a in per[k] <==> Recorded(lines, k, a) {
      RecordedAt(lines, n, k, a);
    }
    HasBefore(lines, per, n, a);
    FlatHas(per, n, a);
  }

  /** In the order of the lines, none behind line `n`. */
  predicate InOrder(rs: seq<Annotation>, n: nat) {
    && (forall i, j :: 0 <= i < j < |rs| ==> rs[i].line <= rs[j].line)
    && forall i :: 0 <= i < |rs| ==> rs[i].line <= n
  }

  predicate AllAt(rs: seq<Annotation>, line: nat) {
    forall i :: 0 <= i < |rs| ==> rs[i].line == line
  }

  lemma {:induction false} FlatInOrder(per: seq<seq<Annotation>>, n: nat)
    requires n <= |per| && forall k: nat :: k < n ==> AllAt(per[k], k + 1)
    ensures InOrder(Flat(per, n), n)
  {
    if n > 0 {
      FlatInOrder(per, n - 1);
      assert AllAt(per[n - 1], n);
    }
  }

  lemma LineNumbers(lines: seq<Line>, k: nat)
    requires k < |lines|
    ensures AllAt(RecordsOf(lines, k), k + 1)
  {
  }

  lemma RecordsInOrder(lines: seq<Line>, n: nat)
    requires n <= |lines|
    ensures InOrder(Records(lines, n), n)
  {
    forall k: nat | k < n ensures AllAt(PerLine(lines)[k], k + 1) {
      LineNumbers(lines, k);
    }
    FlatInOrder(PerLine(lines), n);
  }
}
