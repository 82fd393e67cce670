/** What the coverage report and the rows of the test plan say, cell by cell. */
module CoverageTheorems {
  import opened Text
  import opened Coverage

  // -------------------------------------------------------------------------------------------
  // Which documents match
  // -------------------------------------------------------------------------------------------

  /** The same character, or the two cases of one letter. */
  predicate SameLetter(a: char, b: char) {
    || a == b
    || (IsUpper(a) && IsLower(b) && b as int - a as int == 'a' as int - 'A' as int)
    || (IsLower(a) && IsUpper(b) && a as int - b as int == 'a' as int - 'A' as int)
  }

  /** A document matches by declaring the id, or by a name that starts with it, in any case, and a dash. */
  lemma MatchesIff(doc: Document, id: string)
    ensures Matches(doc, id) <==>
            || id in doc.declared
            || (|id| < |doc.name| && doc.name[|id|] == '-'
                && forall i :: 0 <= i < |id| ==> SameLetter(id[i], doc.name[i]))
  {
    var n := |id|;
    if Lower(id) + "-" <= Lower(doc.name) {
      assert (Lower(id) + "-")[n] == Lower(doc.name)[n];
      forall i | 0 <= i < n ensures LowerChar(id[i]) == LowerChar(doc.name[i]) {
        assert (Lower(id) + "-")[i] == Lower(doc.name)[i];
      }
    }
    if n < |doc.name| && doc.name[n] == '-' && forall i :: 0 <= i < n ==> SameLetter(id[i], doc.name[i]) {
      assert Lower(doc.name)[..n + 1] == Lower(id) + "-";
    }
  }

  // -------------------------------------------------------------------------------------------
  // The documents named
  // -------------------------------------------------------------------------------------------

  lemma {:induction false} SomeFirstPassing(docs: seq<Document>, id: string, k: nat) returns (i: nat)
    requires k < |docs| && Passes(docs[k], id)
    ensures IsFirstPassing(docs, id, i)
  {
    i := k;
    if j: nat :| j < k && Passes(docs[j], id) { i := SomeFirstPassing(docs, id, j); }
  }

  lemma {:induction false} SomeFirstBlocking(docs: seq<Document>, id: string, k: nat) returns (i: nat)
    requires k < |docs| && Blocks(docs[k], id)
    ensures IsFirstBlocking(docs, id, i)
  {
    i := k;
    if j: nat :| j < k && Blocks(docs[j], id) { i := SomeFirstBlocking(docs, id, j); }
  }

  ghost predicate NamesFirstPassing(docs: seq<Document>, id: string, name: string) {
    exists i: nat :: IsFirstPassing(docs, id, i) && docs[i].name == name
  }

  ghost predicate NamesFirstBlocking(docs: seq<Document>, id: string, name: string, verdict: Verdict) {
    exists i: nat :: IsFirstBlocking(docs, id, i) && docs[i].name == name && docs[i].verdict == verdict
  }

  /** The report names, for a requirement that asks for a script, the first matching document that passes if
      none blocks it, and the first that blocks it, with its verdict, if one does. */
  lemma ReportNames(reqs: seq<Requirement>, docs: seq<Document>, source: Evidence, partials: Evidence, id: string)
    ensures var report := ReportOf(reqs, docs, source, partials);
      && (id in report.manualHits <==> AsksManually(reqs, id) && ManualResolves(docs, id))
      && (id in report.manualUnexecuted <==>
            AsksManually(reqs, id) && exists k :: 0 <= k < |docs| && Blocks(docs[k], id))
      && (id in report.manualHits ==> NamesFirstPassing(docs, id, report.manualHits[id]))
      && (id in report.manualUnexecuted ==>
            NamesFirstBlocking(docs, id, report.manualUnexecuted[id].0, report.manualUnexecuted[id].1))
  {
    HitsAre(reqs, docs, id);
    HitsName(reqs, docs, id);
    BlockedName(reqs, docs, id);
    if k :| 0 <= k < |docs| && Passes(docs[k], id) {
      var i := SomeFirstPassing(docs, id, k);
    }
    if k :| 0 <= k < |docs| && Blocks(docs[k], id) {
      var i := SomeFirstBlocking(docs, id, k);
    }
  }

  lemma {:induction false} HitsName(reqs: seq<Requirement>, docs: seq<Document>, id: string)
    ensures id in HitsOf(reqs, docs) ==> FirstPassing(docs, id) == Some(HitsOf(reqs, docs)[id])
  {
    if reqs != [] { HitsName(reqs[..|reqs| - 1], docs, id); }
  }

  lemma {:induction false} BlockedName(reqs: seq<Requirement>, docs: seq<Document>, id: string)
    ensures id in BlockedOf(reqs, docs) <==> AsksManually(reqs, id) && FirstBlocking(docs, id).Some?
    ensures id in BlockedOf(reqs, docs) ==> FirstBlocking(docs, id) == Some(BlockedOf(reqs, docs)[id])
  {
    if reqs != [] {
      var n := |reqs| - 1;
      BlockedName(reqs[..n], docs, id);
      AsksStep(reqs, n);
      assert reqs[..n + 1] == reqs;
    }
  }

  // -------------------------------------------------------------------------------------------
  // The codes that find no evidence
  // -------------------------------------------------------------------------------------------

  predicate IsSource(c: char) { c != 'M' && c != 'P' }

  /** The source codes of a method text are those of its parts, in order. */
  lemma {:induction false} SourceCodesJoin(a: seq<char>, b: seq<char>)
    ensures SourceCodes(a + b) == SourceCodes(a) + SourceCodes(b)
  {
    if a == [] {
      assert a + b == b;
    } else {
      assert (a + b)[1..] == a[1..] + b;
      SourceCodesJoin(a[1..], b);
    }
  }

  lemma {:induction false} SourceCodesOne(c: char)
    ensures SourceCodes([c]) == if IsSource(c) then [c] else []
  {
    assert [c][1..] == [];
    assert SourceCodes([]) == [];
  }

  /** A missing requirement is listed with the codes that find no evidence: `M` first where its script is missing,
      then the source codes where its sources are. The last requirement of an id speaks for it. */
  lemma {:induction false} MissingCodesAre(reqs: seq<Requirement>, docs: seq<Document>, source: Evidence,
                                           partials: Evidence, id: string)
    ensures var codes := ReportOf(reqs, docs, source, partials).missingCodes;
      && (id in codes <==> MissingId(reqs, docs, source, partials, id))
      && (id in codes ==>
            exists i ::
              LastMissing(reqs, docs, source, partials, id, i) && Unfound(codes[id], reqs[i], docs, source, partials))
  {
    if reqs != [] {
      var n := |reqs| - 1;
      var init := reqs[..n];
      MissingCodesAre(init, docs, source, partials, id);
      MissingStep(reqs, docs, source, partials, id);
      MissingIdStep(reqs, docs, source, partials, id);
      if reqs[n].id == id && Uncovered(reqs[n], docs, source, partials) {
        assert LastMissing(reqs, docs, source, partials, id, n);
      } else if id in CodesOf(init, docs, source, partials) {
        var i :| LastMissing(init, docs, source, partials, id, i)
                 && Unfound(CodesOf(init, docs, source, partials)[id], init[i], docs, source, partials);
        StillLast(reqs, docs, source, partials, id, i);
      }
    }
  }

  /** What the last requirement changes. */
  lemma {:induction false} MissingStep(reqs: seq<Requirement>, docs: seq<Document>, source: Evidence,
                                       partials: Evidence, id: string)
    requires reqs != []
    ensures var n, codes := |reqs| - 1, CodesOf(reqs, docs, source, partials);
      var before := CodesOf(reqs[..n], docs, source, partials);
      && (reqs[n].id == id && Uncovered(reqs[n], docs, source, partials) ==>
            id in codes && Unfound(codes[id], reqs[n], docs, source, partials))
      && (!(reqs[n].id == id && Uncovered(reqs[n], docs, source, partials)) ==>
            (id in codes <==> id in before) && (id in codes ==> codes[id] == before[id]))
  {
  }

  lemma StillLast(reqs: seq<Requirement>, docs: seq<Document>, source: Evidence, partials: Evidence, id: string, i: int)
    requires reqs != [] && LastMissing(reqs[..|reqs| - 1], docs, source, partials, id, i)
    requires !(reqs[|reqs| - 1].id == id && Uncovered(reqs[|reqs| - 1], docs, source, partials))
    ensures LastMissing(reqs, docs, source, partials, id, i) && reqs[i] == reqs[..|reqs| - 1][i]
  {
    assert forall j :: 0 <= j < |reqs| - 1 ==> reqs[..|reqs| - 1][j] == reqs[j];
  }

  predicate MissingId(reqs: seq<Requirement>, docs: seq<Document>, source: Evidence, partials: Evidence, id: string) {
    exists i :: 0 <= i < |reqs| && reqs[i].id == id && Uncovered(reqs[i], docs, source, partials)
  }

  lemma MissingIdStep(reqs: seq<Requirement>, docs: seq<Document>, source: Evidence, partials: Evidence, id: string)
    requires reqs != []
    ensures var n := |reqs| - 1;
      MissingId(reqs, docs, source, partials, id) <==>
      MissingId(reqs[..n], docs, source, partials, id)
        || (reqs[n].id == id && Uncovered(reqs[n], docs, source, partials))
  {
    assert forall j :: 0 <= j < |reqs| - 1 ==> reqs[..|reqs| - 1][j] == reqs[j];
  }

  predicate Unfound(codes: seq<char>, req: Requirement, docs: seq<Document>, source: Evidence, partials: Evidence) {
    codes == (if ManualMissing(req, docs) then ['M'] else [])
           + if SourceMissing(req, source, partials) then SourceCodes(req.verify) else []
  }

  predicate LastMissing(reqs: seq<Requirement>, docs: seq<Document>, source: Evidence, partials: Evidence, id: string,
                        i: int) {
    && 0 <= i < |reqs| && reqs[i].id == id && Uncovered(reqs[i], docs, source, partials)
    && forall j :: i < j < |reqs| && reqs[j].id == id ==> !Uncovered(reqs[j], docs, source, partials)
  }

  // -------------------------------------------------------------------------------------------
  // The cells of a row
  // -------------------------------------------------------------------------------------------

  /** A code gets a cell of its own unless it is a source code behind another. */
  predicate Rendered(codes: seq<char>, k: nat)
    requires k < |codes|
  {
    IsSource(codes[k]) ==> forall j :: 0 <= j < k ==> !IsSource(codes[j])
  }

  /** How many cells the first `k` codes get. */
  function CellsBefore(codes: seq<char>, k: nat): nat
    requires k <= |codes|
  {
    if k == 0 then 0 else CellsBefore(codes, k - 1) + if Rendered(codes, k - 1) then 1 else 0
  }

  /** What the cell of a code says, from the evidence. */
  ghost predicate CellMeans(c: Cell, code: char, id: string, docs: seq<Document>, source: Evidence,
                            partials: Evidence) {
    if code == 'P' then c == Process
    else if code == 'M' then
      if exists k :: 0 <= k < |docs| && Blocks(docs[k], id)
      then exists i: nat :: IsFirstBlocking(docs, id, i) && c == UnresolvedScript(docs[i].name, docs[i].verdict)
      else if exists k :: 0 <= k < |docs| && Matches(docs[k], id)
      then exists i: nat :: IsFirstPassing(docs, id, i) && c == ManualScript(docs[i].name)
      else c == Unresolved
    else if id in partials then
      c.Partial? && c.texts == partials[id] && (if id in source then c.beside == Some(source[id]) else c.beside == None)
    else if id in source then c == Source(source[id])
    else c == Unresolved
  }

  /** The rows of the plan: one cell for each code in the order they are stated, the source codes sharing the cell of
      the first; and what every cell says, named documents included. */
  lemma {:induction false} RowMeans(reqs: seq<Requirement>, docs: seq<Document>, source: Evidence, partials: Evidence,
                                    req: Requirement, k: nat)
    requires req in reqs && k < |req.verify|
    ensures var cells := Cells(req.verify, req.id, ReportOf(reqs, docs, source, partials), false);
      && |cells| == CellsBefore(req.verify, |req.verify|)
      && (Rendered(req.verify, k) ==>
            var n := CellsBefore(req.verify, k);
            n < |cells| && CellMeans(cells[n], req.verify[k], req.id, docs, source, partials))
  {
    var report := ReportOf(reqs, docs, source, partials);
    CellsAre(req.verify, req.id, report, k);
    var i :| 0 <= i < |reqs| && reqs[i] == req;
    if req.verify[k] == 'M' {
      assert Asks(reqs[i], req.id);
      ManualMeans(reqs, docs, source, partials, req.id);
    }
  }

  lemma ManualMeans(reqs: seq<Requirement>, docs: seq<Document>, source: Evidence, partials: Evidence, id: string)
    requires AsksManually(reqs, id)
    ensures CellMeans(ManualCell(id, ReportOf(reqs, docs, source, partials)), 'M', id, docs, source, partials)
  {
    var report := ReportOf(reqs, docs, source, partials);
    assert forall i :: 0 <= i < |docs| && Matches(docs[i], id) ==> Passes(docs[i], id) || Blocks(docs[i], id);
    ReportNames(reqs, docs, source, partials, id);
  }

  /** The cell of one code. */
  function CellOf(code: char, id: string, report: Report): Cell {
    if code == 'M' then ManualCell(id, report) else if code == 'P' then Process else SourceCell(id, report)
  }

  /** Which codes of the rest still get a cell, once some source code has. */
  predicate StillRendered(codes: seq<char>, k: nat, done: bool)
    requires k < |codes|
  {
    Rendered(codes, k) && !(done && IsSource(codes[k]))
  }

  function StillBefore(codes: seq<char>, k: nat, done: bool): nat
    requires k <= |codes|
  {
    if k == 0 then 0 else StillBefore(codes, k - 1, done) + if StillRendered(codes, k - 1, done) then 1 else 0
  }

  lemma {:induction false} CellsAre(codes: seq<char>, id: string, report: Report, k: nat)
    requires k < |codes|
    ensures |Cells(codes, id, report, false)| == CellsBefore(codes, |codes|)
    ensures Rendered(codes, k) ==>
      CellsBefore(codes, k) < |Cells(codes, id, report, false)|
      && Cells(codes, id, report, false)[CellsBefore(codes, k)] == CellOf(codes[k], id, report)
  {
    CellsStill(codes, id, report, false, k);
    SameBefore(codes, k);
    SameBefore(codes, |codes|);
  }

  lemma {:induction false} SameBefore(codes: seq<char>, k: nat)
    requires k <= |codes|
    ensures StillBefore(codes, k, false) == CellsBefore(codes, k)
  {
    if k > 0 { SameBefore(codes, k - 1); }
  }

  lemma {:induction false} CellsStill(codes: seq<char>, id: string, report: Report, done: bool, k: nat)
    requires k < |codes|
    ensures |Cells(codes, id, report, done)| == StillBefore(codes, |codes|, done)
    ensures StillRendered(codes, k, done) ==>
      StillBefore(codes, k, done) < |Cells(codes, id, report, done)|
      && Cells(codes, id, report, done)[StillBefore(codes, k, done)] == CellOf(codes[k], id, report)
    decreases |codes|
  {
    var rest, after := codes[1..], done || IsSource(codes[0]);
    StillTail(codes, |codes| - 1, done);
    if k > 0 {
      CellsStill(rest, id, report, after, k - 1);
      StillTail(codes, k - 1, done);
    } else if rest != [] {
      CellsStill(rest, id, report, after, 0);
    }
  }

  /** Counting from the second code on. */
  lemma {:induction false} StillTail(codes: seq<char>, k: nat, done: bool)
    requires k < |codes|
    ensures var rest, after := codes[1..], done || IsSource(codes[0]);
      && StillBefore(codes, k + 1, done)
         == (if StillRendered(codes, 0, done) then 1 else 0) + StillBefore(rest, k, after)
      && (k < |rest| ==> (StillRendered(codes, k + 1, done) <==> StillRendered(rest, k, after)))
  {
    var rest, after := codes[1..], done || IsSource(codes[0]);
    if k < |rest| { SameRendered(codes, k, done); }
    if k > 0 {
      StillTail(codes, k - 1, done);
    } else {
      assert StillBefore(codes, 0, done) == 0;
    }
  }

  lemma SameRendered(codes: seq<char>, k: nat, done: bool)
    requires k + 1 < |codes|
    ensures StillRendered(codes, k + 1, done) <==> StillRendered(codes[1..], k, done || IsSource(codes[0]))
  {
    assert forall j :: 0 < j < |codes| ==> codes[j] == codes[1..][j - 1];
  }
}
