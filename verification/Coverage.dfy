/** Requirement coverage in xtask/src/traceability.rs: what the manual-test documents say, the report of
    uncovered requirements, and the rows of the generated test plan. */
module Coverage {
  import opened Text
  import opened Sorting

  // -------------------------------------------------------------------------------------------
  // Verdicts
  // -------------------------------------------------------------------------------------------

  datatype Verdict = Pass | NotAPass(text: string) | Unreadable

  function WorseOf(a: Verdict, b: Verdict): Verdict {
    match (a, b)
    case (NotAPass(text), _) => NotAPass(text)
    case (_, NotAPass(text)) => NotAPass(text)
    case (Unreadable, _) => Unreadable
    case (_, Unreadable) => Unreadable
    case (Pass, Pass) => Pass
  }

  /** `v` is the first mark of the first `n` that names a failure. */
  predicate FirstFailing(marks: seq<Option<Verdict>>, n: nat, v: Verdict)
    requires n <= |marks|
  {
    exists k :: 0 <= k < n && marks[k] == Some(v) && forall m :: 0 <= m < k ==>
      marks[m].Some? && !marks[m].value.NotAPass?
  }

  /** The verdict of a document whose verdict lines read as `marks`, `None` being a refused line. */
  method DocumentVerdict(marks: seq<Option<Verdict>>) returns (v: Verdict)
    ensures v == Pass <==> marks != [] && forall i :: 0 <= i < |marks| ==> marks[i] == Some(Pass)
    ensures v.NotAPass? ==> FirstFailing(marks, |marks|, v)
    ensures v == Unreadable <==>
      marks == [] || None in marks
      || (Some(Unreadable) in marks && forall i :: 0 <= i < |marks| ==> !marks[i].value.NotAPass?)
  {
    var verdict: Option<Verdict> := None;
    for i := 0 to |marks|
      invariant verdict.None? <==> i == 0
      invariant forall k :: 0 <= k < i ==> marks[k].Some?
      invariant verdict == Some(Pass) <==> i > 0 && forall k :: 0 <= k < i ==> marks[k] == Some(Pass)
      invariant verdict.Some? && verdict.value.NotAPass? ==> FirstFailing(marks, i, verdict.value)
      invariant (exists k :: 0 <= k < i && marks[k].value.NotAPass?) ==> verdict.Some? && verdict.value.NotAPass?
      invariant verdict == Some(Unreadable) ==> Some(Unreadable) in marks[..i]
    {
      if marks[i].None? {
        return Unreadable;
      }
      assert marks[..i + 1] == marks[..i] + [marks[i]];
      verdict := Some(if verdict.None? then marks[i].value else WorseOf(verdict.value, marks[i].value));
    }
    assert marks[..|marks|] == marks;
    return if verdict.None? then Unreadable else verdict.value;
  }

  // -------------------------------------------------------------------------------------------
  // The report
  // -------------------------------------------------------------------------------------------

  datatype Requirement = Requirement(id: string, verify: seq<char>, section: string)

  /** A manual-test document: its name, the ids its declaration block names, its verdict. */
  datatype Document = Document(name: string, declared: seq<string>, verdict: Verdict)

  function LowerChar(c: char): char { if IsUpper(c) then (c as int + 32) as char else c }

  function Lower(s: string): string { seq(|s|, i requires 0 <= i < |s| => LowerChar(s[i])) }

  predicate Matches(doc: Document, id: string) {
    Lower(id) + "-" <= Lower(doc.name) || id in doc.declared
  }

  predicate ResolvesThroughPartials(verify: seq<char>) {
    exists i :: 0 <= i < |verify| && verify[i] != 'M' && verify[i] != 'P'
  }

  /** The texts or crates found for each requirement id. */
  type Evidence = map<string, seq<string>>

  datatype Report = Report(
    missing: seq<Requirement>,
    missingCodes: map<string, seq<char>>,
    manualHits: map<string, string>,
    manualUnexecuted: map<string, (string, Verdict)>,
    sourceHits: Evidence,
    partialHits: Evidence)

  /** Some document matches and every matching document reads as a clean pass. */
  predicate ManualResolves(docs: seq<Document>, id: string) {
    && (exists i :: 0 <= i < |docs| && Matches(docs[i], id))
    && forall i :: 0 <= i < |docs| && Matches(docs[i], id) ==> docs[i].verdict == Pass
  }

  predicate SourceMissing(req: Requirement, source: Evidence, partials: Evidence) {
    ResolvesThroughPartials(req.verify) && req.id !in source && req.id !in partials
  }

  predicate ManualMissing(req: Requirement, docs: seq<Document>) {
    'M' in req.verify && !ManualResolves(docs, req.id)
  }

  predicate Uncovered(req: Requirement, docs: seq<Document>, source: Evidence, partials: Evidence) {
    ManualMissing(req, docs) || SourceMissing(req, source, partials)
  }

  function UncoveredOf(reqs: seq<Requirement>, docs: seq<Document>, source: Evidence,
                       partials: Evidence): seq<Requirement> {
    if reqs == [] then []
    else
      var init, last := reqs[..|reqs| - 1], reqs[|reqs| - 1];
      UncoveredOf(init, docs, source, partials) + if Uncovered(last, docs, source, partials) then [last] else []
  }

  predicate Passes(doc: Document, id: string) { Matches(doc, id) && doc.verdict == Pass }

  predicate Blocks(doc: Document, id: string) { Matches(doc, id) && doc.verdict != Pass }

  /** Document `i` is the first that matches and passes. */
  predicate IsFirstPassing(docs: seq<Document>, id: string, i: nat) {
    i < |docs| && Passes(docs[i], id) && forall j :: 0 <= j < i ==> !Passes(docs[j], id)
  }

  /** Document `i` is the first that matches and does not pass. */
  predicate IsFirstBlocking(docs: seq<Document>, id: string, i: nat) {
    i < |docs| && Blocks(docs[i], id) && forall j :: 0 <= j < i ==> !Blocks(docs[j], id)
  }

  /** The name of the first matching document that passes. */
  function FirstPassing(docs: seq<Document>, id: string): (r: Option<string>)
    ensures r.None? <==> forall i :: 0 <= i < |docs| ==> !Passes(docs[i], id)
    ensures forall i: nat :: IsFirstPassing(docs, id, i) ==> r == Some(docs[i].name)
  {
    if docs == [] then None
    else
      var init, last := docs[..|docs| - 1], docs[|docs| - 1];
      assert forall i :: 0 <= i < |init| ==> docs[i] == init[i];
      assert forall i: nat :: i < |init| ==> (IsFirstPassing(docs, id, i) <==> IsFirstPassing(init, id, i));
      if FirstPassing(init, id).Some? then FirstPassing(init, id)
      else if Passes(last, id) then Some(last.name) else None
  }

  /** The first matching document that does not. */
  function FirstBlocking(docs: seq<Document>, id: string): (r: Option<(string, Verdict)>)
    ensures r.None? <==> forall i :: 0 <= i < |docs| ==> !Blocks(docs[i], id)
    ensures forall i: nat :: IsFirstBlocking(docs, id, i) ==> r == Some((docs[i].name, docs[i].verdict))
  {
    if docs == [] then None
    else
      var init, last := docs[..|docs| - 1], docs[|docs| - 1];
      assert forall i :: 0 <= i < |init| ==> docs[i] == init[i];
      assert forall i: nat :: i < |init| ==> (IsFirstBlocking(docs, id, i) <==> IsFirstBlocking(init, id, i));
      if FirstBlocking(init, id).Some? then FirstBlocking(init, id)
      else if Blocks(last, id) then Some((last.name, last.verdict)) else None
  }

  /** The manual half resolves exactly when no document blocks it and one passes. */
  lemma {:induction false} ManualResolvesIff(docs: seq<Document>, id: string)
    ensures ManualResolves(docs, id) <==> FirstBlocking(docs, id).None? && FirstPassing(docs, id).Some?
  {
    assert forall i :: 0 <= i < |docs| && Matches(docs[i], id) ==> Passes(docs[i], id) || Blocks(docs[i], id);
    if FirstBlocking(docs, id).None? {
      assert forall i :: 0 <= i < |docs| ==> !Blocks(docs[i], id);
    }
  }

  /** The loop over the documents of one requirement. */
  method ReadDocuments(docs: seq<Document>, id: string)
      returns (passing: Option<string>, blocking: Option<(string, Verdict)>)
    ensures passing == FirstPassing(docs, id) && blocking == FirstBlocking(docs, id)
  {
    passing, blocking := None, None;
    for i := 0 to |docs|
      invariant passing == FirstPassing(docs[..i], id) && blocking == FirstBlocking(docs[..i], id)
    {
      assert docs[..i + 1][..i] == docs[..i];
      if Matches(docs[i], id) {
        if docs[i].verdict != Pass {
          if blocking.None? {
            blocking := Some((docs[i].name, docs[i].verdict));
          }
        } else if passing.None? {
          passing := Some(docs[i].name);
        }
      }
    }
    assert docs[..|docs|] == docs;
  }

  /** The codes of a requirement that find no evidence. */
  function UnresolvedCodes(req: Requirement, docs: seq<Document>, source: Evidence, partials: Evidence): seq<char> {
    (if ManualMissing(req, docs) then ['M'] else [])
    + (if SourceMissing(req, source, partials) then SourceCodes(req.verify) else [])
  }

  /** The document that covers each requirement whose manual half resolves. */
  function HitsOf(reqs: seq<Requirement>, docs: seq<Document>): map<string, string> {
    if reqs == [] then map[]
    else
      var hits, req := HitsOf(reqs[..|reqs| - 1], docs), reqs[|reqs| - 1];
      if 'M' in req.verify && FirstBlocking(docs, req.id).None? && FirstPassing(docs, req.id).Some?
      then hits[req.id := FirstPassing(docs, req.id).value] else hits
  }

  /** The document that blocks each requirement some document blocks. */
  function BlockedOf(reqs: seq<Requirement>, docs: seq<Document>): map<string, (string, Verdict)> {
    if reqs == [] then map[]
    else
      var blocked, req := BlockedOf(reqs[..|reqs| - 1], docs), reqs[|reqs| - 1];
      if 'M' in req.verify && FirstBlocking(docs, req.id).Some?
      then blocked[req.id := FirstBlocking(docs, req.id).value]
      else blocked
  }

  function CodesOf(reqs: seq<Requirement>, docs: seq<Document>, source: Evidence,
                   partials: Evidence): map<string, seq<char>> {
    if reqs == [] then map[]
    else
      var codes, req := CodesOf(reqs[..|reqs| - 1], docs, source, partials), reqs[|reqs| - 1];
      if Uncovered(req, docs, source, partials)
      then codes[req.id := UnresolvedCodes(req, docs, source, partials)]
      else codes
  }

  function ReportOf(reqs: seq<Requirement>, docs: seq<Document>, source: Evidence, partials: Evidence): Report {
    Report(UncoveredOf(reqs, docs, source, partials), CodesOf(reqs, docs, source, partials), HitsOf(reqs, docs),
           BlockedOf(reqs, docs), source, partials)
  }

  lemma {:induction false} ManualMissingIff(req: Requirement, docs: seq<Document>, passing: Option<string>,
                                            blocking: Option<(string, Verdict)>)
    requires 'M' in req.verify && passing == FirstPassing(docs, req.id) && blocking == FirstBlocking(docs, req.id)
    ensures ManualMissing(req, docs) <==> blocking.Some? || passing.None?
  {
    ManualResolvesIff(docs, req.id);
  }

  /** The manual half of one requirement: whether it is missing, the document that covers it, the one that
      blocks it. */
  method ResolveManual(req: Requirement, docs: seq<Document>)
    returns (missing: bool, hit: Option<string>, blocked: Option<(string, Verdict)>)
    ensures missing <==> ManualMissing(req, docs)
    ensures blocked == if 'M' in req.verify then FirstBlocking(docs, req.id) else None
    ensures hit == if 'M' in req.verify && blocked.None? then FirstPassing(docs, req.id) else None
  {
    missing, hit, blocked := false, None, None;
    if 'M' in req.verify {
      var passing, blocking := ReadDocuments(docs, req.id);
      ManualMissingIff(req, docs, passing, blocking);
      if blocking.Some? {
        blocked := blocking;
        missing := true;
      } else if passing.Some? {
        hit := passing;
      } else {
        missing := true;
      }
    }
  }

  /** One requirement: the codes without evidence, the document that covers it, the document that blocks it. */
  method Resolve(req: Requirement, docs: seq<Document>, source: Evidence, partials: Evidence)
    returns (unresolved: seq<char>, hit: Option<string>, blocked: Option<(string, Verdict)>)
    ensures unresolved == UnresolvedCodes(req, docs, source, partials)
    ensures blocked == if 'M' in req.verify then FirstBlocking(docs, req.id) else None
    ensures hit == if 'M' in req.verify && blocked.None? then FirstPassing(docs, req.id) else None
  {
    var missing;
    missing, hit, blocked := ResolveManual(req, docs);
    unresolved := if missing then ['M'] else [];
    if ResolvesThroughPartials(req.verify) && req.id !in source && req.id !in partials {
      unresolved := unresolved + SourceCodes(req.verify);
    }
  }

  method BuildReport(reqs: seq<Requirement>, docs: seq<Document>, source: Evidence, partials: Evidence)
    returns (report: Report)
    ensures report == ReportOf(reqs, docs, source, partials)
  {
    var missing: seq<Requirement> := [];
    var codes: map<string, seq<char>> := map[];
    var hits: map<string, string> := map[];
    var unexecuted: map<string, (string, Verdict)> := map[];
    for i := 0 to |reqs|
      invariant missing == UncoveredOf(reqs[..i], docs, source, partials)
      invariant codes == CodesOf(reqs[..i], docs, source, partials)
      invariant hits == HitsOf(reqs[..i], docs) && unexecuted == BlockedOf(reqs[..i], docs)
    {
      var req := reqs[i];
      var unresolved, hit, blocked := Resolve(req, docs, source, partials);
      ReportStep(reqs, docs, source, partials, i, unresolved);
      HitsStep(reqs, docs, i, hit, blocked);
      if blocked.Some? {
        unexecuted := unexecuted[req.id := blocked.value];
      }
      if hit.Some? {
        hits := hits[req.id := hit.value];
      }
      if unresolved != [] {
        missing := missing + [req];
        codes := codes[req.id := unresolved];
      }
    }
    assert reqs[..|reqs|] == reqs;
    report := Report(missing, codes, hits, unexecuted, source, partials);
  }

  /** What one requirement more adds to the missing ones and their codes. */
  lemma {:induction false} ReportStep(reqs: seq<Requirement>, docs: seq<Document>, source: Evidence, partials: Evidence,
                                      i: nat, unresolved: seq<char>)
    requires i < |reqs| && unresolved == UnresolvedCodes(reqs[i], docs, source, partials)
    ensures UncoveredOf(reqs[..i + 1], docs, source, partials)
            == UncoveredOf(reqs[..i], docs, source, partials) + if unresolved != [] then [reqs[i]] else []
    ensures var codes := CodesOf(reqs[..i], docs, source, partials);
            CodesOf(reqs[..i + 1], docs, source, partials)
            == if unresolved != [] then codes[reqs[i].id := unresolved] else codes
  {
    assert reqs[..i + 1][..i] == reqs[..i];
    NoCodes(reqs[i], docs, source, partials);
  }

  /** What it adds to the documents named. */
  lemma {:induction false} HitsStep(reqs: seq<Requirement>, docs: seq<Document>, i: nat, hit: Option<string>,
                                    blocked: Option<(string, Verdict)>)
    requires i < |reqs|
    requires blocked == if 'M' in reqs[i].verify then FirstBlocking(docs, reqs[i].id) else None
    requires hit == if 'M' in reqs[i].verify && blocked.None? then FirstPassing(docs, reqs[i].id) else None
    ensures var hits := HitsOf(reqs[..i], docs);
            HitsOf(reqs[..i + 1], docs) == if hit.Some? then hits[reqs[i].id := hit.value] else hits
    ensures var named := BlockedOf(reqs[..i], docs);
            BlockedOf(reqs[..i + 1], docs) == if blocked.Some? then named[reqs[i].id := blocked.value] else named
  {
    assert reqs[..i + 1][..i] == reqs[..i];
  }

  lemma NoCodes(req: Requirement, docs: seq<Document>, source: Evidence, partials: Evidence)
    ensures UnresolvedCodes(req, docs, source, partials) != [] <==> Uncovered(req, docs, source, partials)
  {
    SourceCodesExist(req.verify);
  }

  /** A requirement has a covering document in the report exactly when its manual half resolves. */
  lemma {:induction false} HitsAre(reqs: seq<Requirement>, docs: seq<Document>, id: string)
    ensures id in HitsOf(reqs, docs) <==> AsksManually(reqs, id) && ManualResolves(docs, id)
  {
    ManualResolvesIff(docs, id);
    if reqs != [] {
      var n := |reqs| - 1;
      HitsAre(reqs[..n], docs, id);
      AsksStep(reqs, n);
      assert reqs[..n + 1] == reqs;
    }
  }

  function SourceCodes(verify: seq<char>): seq<char> {
    if verify == [] then []
    else (if verify[0] == 'M' || verify[0] == 'P' then [] else [verify[0]]) + SourceCodes(verify[1..])
  }

  lemma {:induction false} SourceCodesExist(verify: seq<char>)
    ensures SourceCodes(verify) != [] <==> ResolvesThroughPartials(verify)
  {
    if verify != [] {
      SourceCodesExist(verify[1..]);
      if ResolvesThroughPartials(verify) {
        var i :| 0 <= i < |verify| && verify[i] != 'M' && verify[i] != 'P';
        if i > 0 { assert verify[1..][i - 1] == verify[i]; }
      }
    }
  }

  predicate Asks(req: Requirement, id: string) {
    req.id == id && 'M' in req.verify
  }

  predicate AsksManually(reqs: seq<Requirement>, id: string) {
    exists i :: 0 <= i < |reqs| && Asks(reqs[i], id)
  }

  lemma AsksStep(reqs: seq<Requirement>, i: nat)
    requires i < |reqs|
    ensures forall id :: AsksManually(reqs[..i + 1], id) <==> AsksManually(reqs[..i], id) || Asks(reqs[i], id)
  {
    forall id
      ensures AsksManually(reqs[..i + 1], id) <==> AsksManually(reqs[..i], id) || Asks(reqs[i], id)
    {
      if AsksManually(reqs[..i], id) {
        var k :| 0 <= k < i && Asks(reqs[..i][k], id);
        assert reqs[..i + 1][k] == reqs[..i][k];
      }
      if AsksManually(reqs[..i + 1], id) {
        var k :| 0 <= k < i + 1 && Asks(reqs[..i + 1][k], id);
        if k < i { assert reqs[..i][k] == reqs[..i + 1][k]; }
      }
      if Asks(reqs[i], id) { assert reqs[..i + 1][i] == reqs[i]; }
    }
  }

  // -------------------------------------------------------------------------------------------
  // The plan
  // -------------------------------------------------------------------------------------------

  datatype Cell =
    | ManualScript(file: string)
    | UnresolvedScript(file: string, reason: Verdict)
    | Unresolved
    | Process
    | Partial(texts: seq<string>, beside: Option<seq<string>>)
    | Source(crates: seq<string>)

  function ManualCell(id: string, report: Report): Cell {
    if id in report.manualHits then ManualScript(report.manualHits[id])
    else if id in report.manualUnexecuted then
      UnresolvedScript(report.manualUnexecuted[id].0, report.manualUnexecuted[id].1)
    else Unresolved
  }

  function SourceCell(id: string, report: Report): Cell {
    if id in report.partialHits then
      Partial(report.partialHits[id], if id in report.sourceHits then Some(report.sourceHits[id]) else None)
    else if id in report.sourceHits then Source(report.sourceHits[id])
    else Unresolved
  }

  /** The cells for the codes still to be rendered. */
  function Cells(codes: seq<char>, id: string, report: Report, sourceDone: bool): seq<Cell> {
    if codes == [] then []
    else if codes[0] == 'M' then [ManualCell(id, report)] + Cells(codes[1..], id, report, sourceDone)
    else if codes[0] == 'P' then [Process] + Cells(codes[1..], id, report, sourceDone)
    else if sourceDone then Cells(codes[1..], id, report, true)
    else [SourceCell(id, report)] + Cells(codes[1..], id, report, true)
  }

  /** What the first code adds to the cells before it. */
  lemma {:induction false} CellsStep(codes: seq<char>, id: string, report: Report, sourceDone: bool, pieces: seq<Cell>)
    requires codes != []
    ensures var rest, c := codes[1..], codes[0];
            pieces + Cells(codes, id, report, sourceDone) ==
              if c == 'M' then pieces + [ManualCell(id, report)] + Cells(rest, id, report, sourceDone)
              else if c == 'P' then pieces + [Process] + Cells(rest, id, report, sourceDone)
              else if sourceDone then pieces + Cells(rest, id, report, true)
              else pieces + [SourceCell(id, report)] + Cells(rest, id, report, true)
  {
  }

  method RenderRow(req: Requirement, report: Report) returns (pieces: seq<Cell>)
    ensures pieces == Cells(req.verify, req.id, report, false)
  {
    pieces := [];
    var sourceDone := false;
    for i := 0 to |req.verify|
      invariant pieces + Cells(req.verify[i..], req.id, report, sourceDone) == Cells(req.verify, req.id, report, false)
    {
      var code := req.verify[i];
      assert req.verify[i..][1..] == req.verify[i + 1..];
      CellsStep(req.verify[i..], req.id, report, sourceDone, pieces);
      if code == 'M' {
        pieces := pieces + [ManualCell(req.id, report)];
      } else if code == 'P' {
        pieces := pieces + [Process];
      } else if !sourceDone {
        sourceDone := true;
        pieces := pieces + [SourceCell(req.id, report)];
      }
    }
    assert pieces + [] == pieces;
  }

  datatype Row = Row(id: string, cells: seq<Cell>)

  function IdOf(r: Requirement): string { r.id }

  method RenderTestPlan(reqs: seq<Requirement>, report: Report) returns (rows: seq<Row>)
    ensures |rows| == |Sort(reqs, IdOf)|
    ensures forall i :: 0 <= i < |rows| ==>
      rows[i] == Row(Sort(reqs, IdOf)[i].id, Cells(Sort(reqs, IdOf)[i].verify, Sort(reqs, IdOf)[i].id, report, false))
  {
    var sorted := Sort(reqs, IdOf);
    rows := [];
    for i := 0 to |sorted|
      invariant |rows| == i
      invariant forall k :: 0 <= k < i ==>
                rows[k] == Row(sorted[k].id, Cells(sorted[k].verify, sorted[k].id, report, false))
    {
      var cells := RenderRow(sorted[i], report);
      rows := rows + [Row(sorted[i].id, cells)];
    }
  }

  predicate ShowsUnresolved(cells: seq<Cell>) {
    exists i :: 0 <= i < |cells| && (cells[i].Unresolved? || cells[i].UnresolvedScript?)
  }

  predicate ShowsPartial(cells: seq<Cell>) {
    exists i :: 0 <= i < |cells| && cells[i].Partial?
  }

  lemma HeadOrTail(c: Cell, cells: seq<Cell>)
    ensures ShowsUnresolved([c] + cells) <==> c.Unresolved? || c.UnresolvedScript? || ShowsUnresolved(cells)
    ensures ShowsPartial([c] + cells) <==> c.Partial? || ShowsPartial(cells)
  {
    var all := [c] + cells;
    assert all[0] == c && forall i :: 0 <= i < |cells| ==> all[i + 1] == cells[i];
  }

  /** What the cells of a row show, from the codes they render. */
  lemma {:induction false} CellsShow(codes: seq<char>, id: string, report: Report, sourceDone: bool)
    ensures ShowsUnresolved(Cells(codes, id, report, sourceDone)) <==>
      ('M' in codes && id !in report.manualHits)
      || (!sourceDone && ResolvesThroughPartials(codes) && id !in report.partialHits && id !in report.sourceHits)
    ensures ShowsPartial(Cells(codes, id, report, sourceDone)) <==>
      !sourceDone && ResolvesThroughPartials(codes) && id in report.partialHits
  {
    if codes != [] {
      var done := sourceDone || (codes[0] != 'M' && codes[0] != 'P');
      CellsShow(codes[1..], id, report, done);
      CodesStep(codes);
      if codes[0] == 'M' || codes[0] == 'P' || !sourceDone {
        HeadOrTail(Cells(codes, id, report, sourceDone)[0], Cells(codes[1..], id, report, done));
      }
    }
  }

  lemma CodesStep(codes: seq<char>)
    requires codes != []
    ensures 'M' in codes <==> codes[0] == 'M' || 'M' in codes[1..]
    ensures ResolvesThroughPartials(codes) <==>
            (codes[0] != 'M' && codes[0] != 'P') || ResolvesThroughPartials(codes[1..])
  {
    assert forall i :: 0 < i < |codes| ==> codes[i] == codes[1..][i - 1];
  }

  lemma {:induction false} UncoveredMembers(reqs: seq<Requirement>, docs: seq<Document>, source: Evidence,
                                            partials: Evidence, req: Requirement)
    ensures req in UncoveredOf(reqs, docs, source, partials) <==> req in reqs && Uncovered(req, docs, source, partials)
  {
    if reqs != [] {
      UncoveredMembers(reqs[..|reqs| - 1], docs, source, partials, req);
      assert reqs == reqs[..|reqs| - 1] + [reqs[|reqs| - 1]];
    }
  }

  /** The plan and the report cannot disagree: a requirement's row shows something unresolved exactly
      when the report lists it as missing. */
  lemma PlanAgreesWithReport(reqs: seq<Requirement>, docs: seq<Document>, source: Evidence,
                             partials: Evidence, req: Requirement)
    requires req in reqs
    ensures var report := ReportOf(reqs, docs, source, partials);
            ShowsUnresolved(Cells(req.verify, req.id, report, false)) <==> req in report.missing
  {
    CellsShow(req.verify, req.id, ReportOf(reqs, docs, source, partials), false);
    UncoveredMembers(reqs, docs, source, partials, req);
    HitsAre(reqs, docs, req.id);
    if 'M' in req.verify {
      var i :| 0 <= i < |reqs| && reqs[i] == req;
      assert Asks(reqs[i], req.id);
    }
  }

  // The PARTIAL rows.

  function Dedup(xs: seq<string>): seq<string> {
    if |xs| < 2 then xs
    else if xs[|xs| - 1] == xs[|xs| - 2] then Dedup(xs[..|xs| - 1])
    else Dedup(xs[..|xs| - 1]) + [xs[|xs| - 1]]
  }

  function PartialIds(reqs: seq<Requirement>, report: Report): seq<string> {
    if reqs == [] then []
    else
      var first := reqs[0];
      (if ResolvesThroughPartials(first.verify) && first.id in report.partialHits then [first.id] else [])
      + PartialIds(reqs[1..], report)
  }

  function Itself(s: string): string { s }

  function PartialRowIds(reqs: seq<Requirement>, report: Report): seq<string> {
    Dedup(Sort(PartialIds(reqs, report), Itself))
  }

  lemma {:induction false} PartialIdsMembers(reqs: seq<Requirement>, report: Report, id: string)
    ensures id in PartialIds(reqs, report) <==>
      exists i :: 0 <= i < |reqs| && reqs[i].id == id && ResolvesThroughPartials(reqs[i].verify)
        && id in report.partialHits
  {
    if reqs != [] {
      PartialIdsMembers(reqs[1..], report, id);
      assert forall i :: 0 < i < |reqs| ==> reqs[i] == reqs[1..][i - 1];
    }
  }

  lemma {:induction false} DedupKeeps(xs: seq<string>)
    requires Sorted(xs, Itself)
    ensures forall x :: x in Dedup(xs) <==> x in xs
    ensures xs != [] ==> Dedup(xs) != [] && Dedup(xs)[|Dedup(xs)| - 1] == xs[|xs| - 1]
    ensures Sorted(Dedup(xs), Itself) && DistinctBy(Dedup(xs), Itself)
  {
    if |xs| >= 2 {
      var init, last := xs[..|xs| - 1], xs[|xs| - 1];
      assert xs == init + [last];
      DedupKeeps(init);
      if last != xs[|xs| - 2] {
        var d := Dedup(init);
        forall k | 0 <= k < |d| ensures StrLe(d[k], last) && d[k] != last {
          assert d[k] in init;
          var m :| 0 <= m < |init| && init[m] == d[k];
          assert StrLe(Itself(xs[m]), Itself(xs[|xs| - 1]));
          if d[k] == last {
            if m < |xs| - 2 { assert StrLe(Itself(xs[m]), Itself(xs[|xs| - 2])); }
            assert StrLe(Itself(xs[|xs| - 2]), Itself(xs[|xs| - 1]));
            StrLeTotal(last, xs[|xs| - 2]);
          }
        }
      }
    }
  }

  /** The PARTIAL rows of the plan are exactly the printed ids, each once and in order. */
  lemma {:induction false} PartialRowsAgree(reqs: seq<Requirement>, report: Report, id: string)
    ensures id in PartialRowIds(reqs, report) <==>
      exists i :: 0 <= i < |reqs| && reqs[i].id == id && ShowsPartial(Cells(reqs[i].verify, id, report, false))
    ensures Sorted(PartialRowIds(reqs, report), Itself) && DistinctBy(PartialRowIds(reqs, report), Itself)
  {
    var ids := PartialIds(reqs, report);
    SortSorts(ids, Itself);
    SortMembers(ids, Itself, id);
    DedupKeeps(Sort(ids, Itself));
    PartialIdsMembers(reqs, report, id);
    forall i | 0 <= i < |reqs|
      ensures ShowsPartial(Cells(reqs[i].verify, id, report, false)) <==>
              ResolvesThroughPartials(reqs[i].verify) && id in report.partialHits
    {
      CellsShow(reqs[i].verify, id, report, false);
    }
  }

  /** Once a document blocks a requirement, no further document unblocks it. */
  lemma BlockedStaysBlocked(docs: seq<Document>, more: seq<Document>, id: string, i: nat)
    requires i < |docs| && Matches(docs[i], id) && docs[i].verdict != Pass
    ensures !ManualResolves(docs + more, id)
  {
    assert (docs + more)[i] == docs[i];
  }
}
