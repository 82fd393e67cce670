/** The per-section denominators of xtask/src/traceability.rs, and the comparator that holds the
    roadmap's table to them. */
module SectionCounts {
  import opened Text
  import opened Coverage

  datatype SectionCount = SectionCount(title: string, count: nat)

  datatype Error = NoSection | NoArea | TwoAreas

  function AreaToken(id: string): Option<string> {
    var parts := Split(id, '-');
    if |parts| < 3 || parts[0] == "" || parts[1] == "" || parts[2] == "" then None else Some(parts[1])
  }

  /** The sections in the order they first appear. */
  function Sections(reqs: seq<Requirement>): seq<string> {
    if reqs == [] then []
    else
      var before, section := Sections(reqs[..|reqs| - 1]), reqs[|reqs| - 1].section;
      if section in before then before else before + [section]
  }

  function CountOf(reqs: seq<Requirement>, section: string): nat {
    if reqs == [] then 0
    else CountOf(reqs[..|reqs| - 1], section) + if reqs[|reqs| - 1].section == section then 1 else 0
  }

  predicate Distinct(xs: seq<string>) {
    forall i, j :: 0 <= i < j < |xs| ==> xs[i] != xs[j]
  }

  /** Every requirement has a section and an area, and a section has one area. */
  predicate WellSectioned(reqs: seq<Requirement>) {
    && (forall i :: 0 <= i < |reqs| ==> reqs[i].section != "" && AreaToken(reqs[i].id).Some?)
    && forall i, j :: 0 <= i < j < |reqs| && reqs[i].section == reqs[j].section ==>
       AreaToken(reqs[i].id) == AreaToken(reqs[j].id)
  }

  /** What the rows must be: one per section in first-appearance order, with its area and its count. */
  predicate RowsOf(rows: seq<SectionCount>, reqs: seq<Requirement>) {
    var sections := Sections(reqs);
    && |rows| == |sections|
    && (forall k :: 0 <= k < |rows| ==> rows[k].count == CountOf(reqs, sections[k]))
    && forall i, k :: 0 <= i < |reqs| && 0 <= k < |rows| ==> TitleFits(rows[k].title, sections[k], reqs[i])
  }

  /** A requirement of the section agrees with the row's title. */
  predicate TitleFits(title: string, section: string, req: Requirement) {
    req.section == section && AreaToken(req.id).Some? ==> title == section + " " + AreaToken(req.id).value
  }

  method SectionMustCounts(reqs: seq<Requirement>) returns (r: Result<seq<SectionCount>, Error>)
    ensures r.Ok? <==> WellSectioned(reqs)
    ensures r.Ok? ==> RowsOf(r.value, reqs)
  {
    var out: seq<SectionCount> := [];
    var index: map<string, nat> := map[];
    var areas: seq<string> := [];
    for i := 0 to |reqs|
      invariant WellSectioned(reqs[..i]) && RowsOf(out, reqs[..i])
      invariant Indexed(index, areas, reqs[..i])
    {
      var req := reqs[i];
      ghost var done := reqs[..i];
      assert reqs[..i + 1] == done + [req];
      assert reqs[i] == req;
      if req.section == "" {
        return Err(NoSection);
      }
      var area := AreaToken(req.id);
      if area.None? {
        return Err(NoArea);
      }
      SectionsAre(done);
      if req.section in index {
        var k := index[req.section];
        if areas[k] != area.value {
          SomeArea(index, areas, done, req.section);
          return Err(TwoAreas);
        }
        Known(out, index, areas, done, req, k);
        out := out[k := out[k].(count := out[k].count + 1)];
      } else {
        New(out, index, areas, done, req);
        index := index[req.section := |out|];
        areas := areas + [area.value];
        out := out + [SectionCount(req.section + " " + area.value, 1)];
      }
    }
    assert reqs[..|reqs|] == reqs;
    r := Ok(out);
  }

  /** The index maps each section seen to its row, whose area is recorded beside it. */
  predicate Indexed(index: map<string, nat>, areas: seq<string>, reqs: seq<Requirement>) {
    Positions(index, Sections(reqs)) && |areas| == |Sections(reqs)|
    && forall i :: 0 <= i < |reqs| ==> AreaFits(index, areas, reqs[i])
  }

  predicate Positions(index: map<string, nat>, sections: seq<string>) {
    && (forall s :: s in index ==> index[s] < |sections| && sections[index[s]] == s)
    && (forall k :: 0 <= k < |sections| ==> sections[k] in index && index[sections[k]] == k)
  }

  predicate AreaFits(index: map<string, nat>, areas: seq<string>, req: Requirement) {
    req.section in index ==> index[req.section] < |areas| && AreaToken(req.id) == Some(areas[index[req.section]])
  }

  lemma {:induction false} SectionsAre(reqs: seq<Requirement>)
    ensures Distinct(Sections(reqs))
    ensures forall s :: s in Sections(reqs) <==> Mentions(reqs, s)
  {
    if reqs != [] {
      SectionsAre(reqs[..|reqs| - 1]);
      forall s ensures s in Sections(reqs) <==> Mentions(reqs, s) {
        MentionsStep(reqs, s);
      }
    }
  }

  predicate Mentions(reqs: seq<Requirement>, section: string) {
    exists i :: 0 <= i < |reqs| && reqs[i].section == section
  }

  lemma MentionsStep(reqs: seq<Requirement>, section: string)
    requires reqs != []
    ensures Mentions(reqs, section) <==>
            Mentions(reqs[..|reqs| - 1], section) || reqs[|reqs| - 1].section == section
  {
    var init := reqs[..|reqs| - 1];
    assert forall i :: 0 <= i < |init| ==> init[i] == reqs[i];
  }

  lemma SomeArea(index: map<string, nat>, areas: seq<string>, reqs: seq<Requirement>, section: string)
    requires Indexed(index, areas, reqs) && section in index
    ensures exists i ::
              0 <= i < |reqs| && reqs[i].section == section && AreaToken(reqs[i].id) == Some(areas[index[section]])
  {
    SectionsAre(reqs);
    assert Sections(reqs)[index[section]] in Sections(reqs);
  }

  lemma {:induction false} Known(out: seq<SectionCount>, index: map<string, nat>, areas: seq<string>,
                                 done: seq<Requirement>, req: Requirement, k: nat)
    requires WellSectioned(done) && RowsOf(out, done) && Indexed(index, areas, done) && Distinct(Sections(done))
    requires req.section in index && k == index[req.section] && AreaToken(req.id) == Some(areas[k]) && req.section != ""
    ensures k < |out| && Sections(done + [req]) == Sections(done)
    ensures WellSectioned(done + [req]) && Indexed(index, areas, done + [req])
    ensures RowsOf(out[k := out[k].(count := out[k].count + 1)], done + [req])
  {
    var all := done + [req];
    assert all[..|all| - 1] == done;
    var sections := Sections(done);
    assert sections[k] == req.section;
    SomeArea(index, areas, done, req.section);
    forall i | 0 <= i < |done| && done[i].section == req.section ensures AreaToken(done[i].id) == AreaToken(req.id) {
      assert done[i].section in index;
    }
  }

  lemma {:induction false} NotCounted(reqs: seq<Requirement>, section: string)
    requires section !in Sections(reqs)
    ensures CountOf(reqs, section) == 0
  {
    if reqs != [] { NotCounted(reqs[..|reqs| - 1], section); }
  }

  lemma {:induction false} NewSection(index: map<string, nat>, areas: seq<string>, done: seq<Requirement>,
                                      req: Requirement)
    requires Indexed(index, areas, done) && req.section !in index
    ensures req.section !in Sections(done) && Sections(done + [req]) == Sections(done) + [req.section]
    ensures forall i :: 0 <= i < |done| ==> done[i].section in index && done[i].section != req.section
  {
    assert (done + [req])[..|done|] == done;
    SectionsAre(done);
    var sections := Sections(done);
    assert forall k :: 0 <= k < |sections| ==> sections[k] != req.section;
    forall i | 0 <= i < |done| ensures done[i].section in index && done[i].section != req.section {
      assert done[i].section in sections;
    }
  }

  lemma {:induction false} NewRow(out: seq<SectionCount>, done: seq<Requirement>, req: Requirement)
    requires RowsOf(out, done) && AreaToken(req.id).Some?
    requires req.section !in Sections(done) && Sections(done + [req]) == Sections(done) + [req.section]
    requires forall i :: 0 <= i < |done| ==> done[i].section != req.section
    ensures RowsOf(out + [SectionCount(req.section + " " + AreaToken(req.id).value, 1)], done + [req])
  {
    var sections, row := Sections(done), SectionCount(req.section + " " + AreaToken(req.id).value, 1);
    forall k | 0 <= k < |sections + [req.section]|
      ensures (out + [row])[k].count == CountOf(done + [req], (sections + [req.section])[k])
    {
      OneMoreCounted(done, req, (sections + [req.section])[k]);
      if k == |sections| { NotCounted(done, req.section); } else { assert sections[k] in sections; }
    }
    forall i, k | 0 <= i < |done + [req]| && 0 <= k < |out + [row]|
      ensures TitleFits((out + [row])[k].title, (sections + [req.section])[k], (done + [req])[i])
    {
      NewTitle(out, row, sections, done, req, i, k);
    }
  }

  lemma {:induction false} OneMoreCounted(done: seq<Requirement>, req: Requirement, section: string)
    ensures CountOf(done + [req], section) == CountOf(done, section) + if req.section == section then 1 else 0
  {
    assert (done + [req])[..|done|] == done;
  }

  lemma NewTitle(out: seq<SectionCount>, row: SectionCount, sections: seq<string>, done: seq<Requirement>,
                 req: Requirement, i: nat, k: nat)
    requires |out| == |sections| && i < |done| + 1 && k < |out| + 1 && req.section !in sections
    requires forall j, m :: 0 <= j < |done| && 0 <= m < |out| ==> TitleFits(out[m].title, sections[m], done[j])
    requires TitleFits(row.title, req.section, req)
    requires forall j :: 0 <= j < |done| ==> done[j].section != req.section
    ensures TitleFits((out + [row])[k].title, (sections + [req.section])[k], (done + [req])[i])
  {
    if k < |out| {
      assert sections[k] in sections;
      assert i < |done| ==> TitleFits(out[k].title, sections[k], done[i]);
    }
  }

  lemma {:induction false} NewIndex(index: map<string, nat>, areas: seq<string>, done: seq<Requirement>,
                                    req: Requirement)
    requires Indexed(index, areas, done) && req.section !in index && AreaToken(req.id).Some?
    requires Sections(done + [req]) == Sections(done) + [req.section]
    requires forall i :: 0 <= i < |done| ==> done[i].section in index && done[i].section != req.section
    ensures Indexed(index[req.section := |areas|], areas + [AreaToken(req.id).value], done + [req])
  {
    var index', areas' := index[req.section := |areas|], areas + [AreaToken(req.id).value];
    NewPosition(index, Sections(done), req.section);
    forall i | 0 <= i < |done + [req]| ensures AreaFits(index', areas', (done + [req])[i]) {
      if i < |done| {
        assert AreaFits(index, areas, done[i]);
        AreaStillFits(index, areas, done[i], req.section, AreaToken(req.id).value);
      }
    }
  }

  lemma AreaStillFits(index: map<string, nat>, areas: seq<string>, req: Requirement, section: string, area: string)
    requires AreaFits(index, areas, req) && req.section != section
    ensures AreaFits(index[section := |areas|], areas + [area], req)
  {
  }

  lemma NewPosition(index: map<string, nat>, sections: seq<string>, section: string)
    requires Positions(index, sections) && section !in index
    ensures Positions(index[section := |sections|], sections + [section])
  {
  }

  lemma NewWell(done: seq<Requirement>, req: Requirement)
    requires WellSectioned(done) && AreaToken(req.id).Some? && req.section != ""
    requires forall i :: 0 <= i < |done| ==> done[i].section != req.section
    ensures WellSectioned(done + [req])
  {
  }

  lemma {:induction false} New(out: seq<SectionCount>, index: map<string, nat>, areas: seq<string>,
                               done: seq<Requirement>, req: Requirement)
    requires WellSectioned(done) && RowsOf(out, done) && Indexed(index, areas, done)
    requires req.section !in index && AreaToken(req.id).Some? && req.section != ""
    ensures Sections(done + [req]) == Sections(done) + [req.section]
    ensures WellSectioned(done + [req])
    ensures Indexed(index[req.section := |out|], areas + [AreaToken(req.id).value], done + [req])
    ensures RowsOf(out + [SectionCount(req.section + " " + AreaToken(req.id).value, 1)], done + [req])
  {
    NewSection(index, areas, done, req);
    NewWell(done, req);
    NewIndex(index, areas, done, req);
    NewRow(out, done, req);
  }

  // The partition.

  function SumOf(reqs: seq<Requirement>, sections: seq<string>): nat {
    if sections == [] then 0 else SumOf(reqs, sections[..|sections| - 1]) + CountOf(reqs, sections[|sections| - 1])
  }

  lemma {:induction false} OneMore(reqs: seq<Requirement>, sections: seq<string>)
    requires reqs != [] && Distinct(sections)
    ensures SumOf(reqs, sections)
         == SumOf(reqs[..|reqs| - 1], sections) + if reqs[|reqs| - 1].section in sections then 1 else 0
  {
    if sections != [] {
      var init := sections[..|sections| - 1];
      OneMore(reqs, init);
      assert sections == init + [sections[|sections| - 1]];
    }
  }

  /** The sections partition the requirements: they are distinct, every requirement is in one of them,
      and the counts add up to the number of requirements. */
  lemma {:induction false} SectionsPartition(reqs: seq<Requirement>)
    ensures Distinct(Sections(reqs)) && SumOf(reqs, Sections(reqs)) == |reqs|
    ensures forall i :: 0 <= i < |reqs| ==> reqs[i].section in Sections(reqs)
  {
    SectionsAre(reqs);
    if reqs != [] {
      var init, section := reqs[..|reqs| - 1], reqs[|reqs| - 1].section;
      SectionsPartition(init);
      OneMore(reqs, Sections(reqs));
      if section !in Sections(init) {
        assert Sections(reqs)[..|Sections(reqs)| - 1] == Sections(init);
        NotCounted(init, section);
      }
    }
  }

  // -------------------------------------------------------------------------------------------
  // The table
  // -------------------------------------------------------------------------------------------

  type u32 = x: int | 0 <= x < 0x1_0000_0000
  type TableRow = (string, u32)

  datatype Defect = WrongCount(title: string) | MissingRow(title: string) | UnknownRow(title: string)
    | WrongOrder | NoTotal | TotalNotSum | TotalNotDerived

  function FindRow(body: seq<TableRow>, title: string): Option<u32> {
    if body == [] then None else if body[0].0 == title then Some(body[0].1) else FindRow(body[1..], title)
  }

  predicate Derives(derived: seq<SectionCount>, title: string) {
    exists i :: 0 <= i < |derived| && derived[i].title == title
  }

  function TableSum(body: seq<TableRow>): nat {
    if body == [] then 0 else TableSum(body[..|body| - 1]) + body[|body| - 1].1
  }

  function DerivedSum(derived: seq<SectionCount>): nat {
    if derived == [] then 0 else DerivedSum(derived[..|derived| - 1]) + derived[|derived| - 1].count
  }

  predicate HasTotal(table: seq<TableRow>) {
    table != [] && table[|table| - 1].0 == "Total"
  }

  function Body(table: seq<TableRow>): seq<TableRow> {
    if HasTotal(table) then table[..|table| - 1] else table
  }

  predicate RowsAgree(derived: seq<SectionCount>, body: seq<TableRow>) {
    && NoneMissing(derived, body)
    && (forall i :: 0 <= i < |derived| ==> !CountedWrong(derived[i], body))
    && NoneUnknown(derived, body)
    && (|body| == |derived| ==> forall i :: 0 <= i < |body| ==> body[i].0 == derived[i].title)
  }

  /** What the comparator checks. */
  predicate Accepts(derived: seq<SectionCount>, table: seq<TableRow>) {
    && RowsAgree(derived, Body(table))
    && HasTotal(table)
    && table[|table| - 1].1 == TableSum(Body(table))
    && table[|table| - 1].1 == DerivedSum(derived)
  }

  /** A derived row whose title the table has with another count. */
  predicate CountedWrong(want: SectionCount, body: seq<TableRow>) {
    FindRow(body, want.title).Some? && FindRow(body, want.title).value != want.count
  }

  predicate NoneMissing(derived: seq<SectionCount>, body: seq<TableRow>) {
    forall i :: 0 <= i < |derived| ==> FindRow(body, derived[i].title).Some?
  }

  predicate NoneUnknown(derived: seq<SectionCount>, body: seq<TableRow>) {
    forall i :: 0 <= i < |body| ==> Derives(derived, body[i].0)
  }

  predicate OutOfOrder(derived: seq<SectionCount>, body: seq<TableRow>) {
    && NoneMissing(derived, body) && NoneUnknown(derived, body) && |body| == |derived|
    && exists i :: 0 <= i < |body| && body[i].0 != derived[i].title
  }

  /** What each reported defect means. */
  predicate IsDefect(derived: seq<SectionCount>, table: seq<TableRow>, d: Defect) {
    var body := Body(table);
    match d
    case WrongCount(title) =>
      exists i :: 0 <= i < |derived| && derived[i].title == title && CountedWrong(derived[i], body)
    case MissingRow(title) => exists i :: 0 <= i < |derived| && derived[i].title == title && FindRow(body, title).None?
    case UnknownRow(title) => exists i :: 0 <= i < |body| && body[i].0 == title && !Derives(derived, title)
    case WrongOrder => OutOfOrder(derived, body)
    case NoTotal => !HasTotal(table)
    case TotalNotSum => HasTotal(table) && table[|table| - 1].1 != TableSum(body)
    case TotalNotDerived => HasTotal(table) && table[|table| - 1].1 != DerivedSum(derived)
  }

  /** The defects, or the panic of a 32-bit sum that overflows. */
  datatype Comparison = Reported(defects: seq<Defect>) | Panic

  /** The column of a table with a total does not add up in 32 bits. */
  predicate Overflows(table: seq<TableRow>) {
    HasTotal(table) && TableSum(Body(table)) >= 0x1_0000_0000
  }

  method CompareSectionCounts(derived: seq<SectionCount>, table: seq<TableRow>) returns (r: Comparison)
    ensures r.Panic? <==> Overflows(table)
    ensures r.Reported? ==> forall d :: d in r.defects <==> IsDefect(derived, table, d)
    ensures r == Reported([]) <==> Accepts(derived, table)
  {
    var body := Body(table);
    var counts := CompareCounts(derived, body);
    var missing := FindMissing(derived, body);
    var unknown := FindUnknown(derived, body);
    var order := CompareOrder(derived, body, missing, unknown);
    var total := CompareTotal(derived, table);
    if total.Panic? {
      return Panic;
    }
    var defects := counts + missing + unknown + order + total.defects;
    NoDefectIff(derived, table);
    assert defects == [] <==> forall d :: d !in defects by {
      if defects != [] { assert defects[0] in defects; }
    }
    r := Reported(defects);
  }

  method CompareCounts(derived: seq<SectionCount>, body: seq<TableRow>) returns (defects: seq<Defect>)
    ensures forall d :: d in defects <==>
      d.WrongCount? && exists i :: 0 <= i < |derived| && derived[i].title == d.title && CountedWrong(derived[i], body)
  {
    defects := [];
    for i := 0 to |derived|
      invariant forall d :: d in defects <==>
        d.WrongCount? && exists k :: 0 <= k < i && derived[k].title == d.title && CountedWrong(derived[k], body)
    {
      var have := FindRow(body, derived[i].title);
      if have.Some? && have.value != derived[i].count {
        defects := defects + [WrongCount(derived[i].title)];
      }
    }
  }

  method FindMissing(derived: seq<SectionCount>, body: seq<TableRow>) returns (defects: seq<Defect>)
    ensures forall d :: d in defects <==>
      d.MissingRow? && exists i :: 0 <= i < |derived| && derived[i].title == d.title && FindRow(body, d.title).None?
    ensures defects == [] <==> NoneMissing(derived, body)
  {
    defects := [];
    for i := 0 to |derived|
      invariant forall d :: d in defects <==>
        d.MissingRow? && exists k :: 0 <= k < i && derived[k].title == d.title && FindRow(body, d.title).None?
      invariant defects == [] <==> forall k :: 0 <= k < i ==> FindRow(body, derived[k].title).Some?
    {
      if FindRow(body, derived[i].title).None? {
        defects := defects + [MissingRow(derived[i].title)];
      }
    }
  }

  method FindUnknown(derived: seq<SectionCount>, body: seq<TableRow>) returns (defects: seq<Defect>)
    ensures forall d :: d in defects <==>
      d.UnknownRow? && exists i :: 0 <= i < |body| && body[i].0 == d.title && !Derives(derived, d.title)
    ensures defects == [] <==> NoneUnknown(derived, body)
  {
    defects := [];
    for i := 0 to |body|
      invariant forall d :: d in defects <==>
        d.UnknownRow? && exists k :: 0 <= k < i && body[k].0 == d.title && !Derives(derived, d.title)
      invariant defects == [] <==> forall k :: 0 <= k < i ==> Derives(derived, body[k].0)
    {
      if !Derives(derived, body[i].0) {
        defects := defects + [UnknownRow(body[i].0)];
      }
    }
  }

  /** Order is looked at only once the titles agree. */
  method CompareOrder(derived: seq<SectionCount>, body: seq<TableRow>, missing: seq<Defect>, unknown: seq<Defect>)
    returns (defects: seq<Defect>)
    requires missing == [] <==> NoneMissing(derived, body)
    requires unknown == [] <==> NoneUnknown(derived, body)
    ensures defects == if OutOfOrder(derived, body) then [WrongOrder] else []
  {
    defects := [];
    if missing == [] && unknown == [] && |body| == |derived| {
      if i :| 0 <= i < |body| && body[i].0 != derived[i].title {
        defects := [WrongOrder];
      }
    }
  }

  /** The column's sum, or none where it leaves 32 bits. */
  method SumColumn(body: seq<TableRow>) returns (sum: Option<u32>)
    ensures sum == if TableSum(body) < 0x1_0000_0000 then Some(TableSum(body)) else None
  {
    var n: u32 := 0;
    for i := 0 to |body|
      invariant n == TableSum(body[..i])
    {
      assert body[..i + 1][..i] == body[..i];
      if n + body[i].1 >= 0x1_0000_0000 {
        SumGrows(body, i + 1);
        return None;
      }
      n := n + body[i].1;
    }
    assert body[..|body|] == body;
    sum := Some(n);
  }

  lemma {:induction false} SumGrows(body: seq<TableRow>, i: nat)
    requires i <= |body|
    ensures TableSum(body[..i]) <= TableSum(body)
    decreases |body|
  {
    if i < |body| {
      SumGrows(body[..|body| - 1], i);
      assert body[..|body| - 1][..i] == body[..i];
    } else {
      assert body[..i] == body;
    }
  }

  method CompareTotal(derived: seq<SectionCount>, table: seq<TableRow>) returns (r: Comparison)
    ensures r.Panic? <==> Overflows(table)
    ensures r.Reported? ==> forall d :: d in r.defects <==>
      (d.NoTotal? || d.TotalNotSum? || d.TotalNotDerived?) && IsDefect(derived, table, d)
  {
    if !HasTotal(table) {
      return Reported([NoTotal]);
    }
    var total := table[|table| - 1].1;
    var sum := SumColumn(Body(table));
    if sum.None? {
      return Panic;
    }
    var defects := [];
    if total != sum.value {
      defects := defects + [TotalNotSum];
    }
    if total != DerivedSum(derived) {
      defects := defects + [TotalNotDerived];
    }
    r := Reported(defects);
  }

  /** Nothing is reported exactly when the rows agree and the total is both sums. */
  lemma NoDefectIff(derived: seq<SectionCount>, table: seq<TableRow>)
    ensures (forall d :: !IsDefect(derived, table, d)) <==> Accepts(derived, table)
  {
    var body := Body(table);
    if forall d :: !IsDefect(derived, table, d) {
      assert !IsDefect(derived, table, NoTotal) && !IsDefect(derived, table, TotalNotSum);
      assert !IsDefect(derived, table, TotalNotDerived) && !IsDefect(derived, table, WrongOrder);
      forall i | 0 <= i < |derived| ensures FindRow(body, derived[i].title).Some? && !CountedWrong(derived[i], body) {
        assert !IsDefect(derived, table, MissingRow(derived[i].title));
        assert !IsDefect(derived, table, WrongCount(derived[i].title));
      }
      forall i | 0 <= i < |body| ensures Derives(derived, body[i].0) {
        assert !IsDefect(derived, table, UnknownRow(body[i].0));
      }
    }
  }

  predicate DistinctRows(body: seq<TableRow>) {
    forall i, j :: 0 <= i < j < |body| ==> body[i].0 != body[j].0
  }

  predicate DistinctDerived(derived: seq<SectionCount>) {
    forall i, j :: 0 <= i < j < |derived| ==> derived[i].title != derived[j].title
  }

  /** The table is the derived rows in their order, then `Total` with their sum. */
  predicate IsTheTable(derived: seq<SectionCount>, table: seq<TableRow>) {
    && |table| == |derived| + 1
    && (forall i :: 0 <= i < |derived| ==> table[i].0 == derived[i].title && table[i].1 == derived[i].count)
    && table[|derived|].0 == "Total" && table[|derived|].1 == DerivedSum(derived)
  }

  lemma {:induction false} FindIs(body: seq<TableRow>, i: nat)
    requires i < |body| && DistinctRows(body)
    ensures FindRow(body, body[i].0) == Some(body[i].1)
  {
    if i > 0 {
      assert body[0].0 != body[i].0;
      FindIs(body[1..], i - 1);
    }
  }

  lemma {:induction false} FindExists(body: seq<TableRow>, title: string)
    requires FindRow(body, title).Some?
    ensures exists i :: 0 <= i < |body| && body[i].0 == title
  {
    if body[0].0 != title {
      FindExists(body[1..], title);
      var i :| 0 <= i < |body[1..]| && body[1..][i].0 == title;
      assert body[i + 1].0 == title;
    }
  }

  lemma {:induction false} SumsMatch(derived: seq<SectionCount>, body: seq<TableRow>)
    requires |body| == |derived| && forall i :: 0 <= i < |body| ==> body[i].1 == derived[i].count
    ensures TableSum(body) == DerivedSum(derived)
  {
    if body != [] { SumsMatch(derived[..|derived| - 1], body[..|body| - 1]); }
  }

  function Labels(body: seq<TableRow>): set<string> { set i | 0 <= i < |body| :: body[i].0 }

  function DerivedLabels(derived: seq<SectionCount>): set<string> { set i | 0 <= i < |derived| :: derived[i].title }

  lemma {:induction false} LabelCount(body: seq<TableRow>)
    requires DistinctRows(body)
    ensures |Labels(body)| == |body|
  {
    if body != [] {
      var init := body[..|body| - 1];
      LabelCount(init);
      assert Labels(body) == Labels(init) + {body[|body| - 1].0};
    }
  }

  lemma {:induction false} DerivedLabelCount(derived: seq<SectionCount>)
    requires DistinctDerived(derived)
    ensures |DerivedLabels(derived)| == |derived|
  {
    if derived != [] {
      var init := derived[..|derived| - 1];
      DerivedLabelCount(init);
      assert DerivedLabels(derived) == DerivedLabels(init) + {derived[|derived| - 1].title};
    }
  }

  /** For a table with no title twice, silence from the comparator means the table is the derived rows
      in order with their total, and nothing else; where no derived count is zero, it also means that no
      derived title occurs twice. */
  lemma AcceptsExactly(derived: seq<SectionCount>, table: seq<TableRow>)
    requires DistinctDerived(derived) || forall i :: 0 <= i < |derived| ==> derived[i].count > 0
    ensures Accepts(derived, table) && DistinctRows(Body(table)) <==>
            IsTheTable(derived, table) && DistinctDerived(derived)
  {
    var body := Body(table);
    if Accepts(derived, table) && DistinctRows(body) && forall i :: 0 <= i < |derived| ==> derived[i].count > 0 {
      EqualSums(derived, table);
    }
    if DistinctDerived(derived) {
      AcceptsDistinct(derived, table);
    }
  }

  lemma AcceptsDistinct(derived: seq<SectionCount>, table: seq<TableRow>)
    requires DistinctDerived(derived)
    ensures Accepts(derived, table) && DistinctRows(Body(table)) <==> IsTheTable(derived, table)
  {
    var body := Body(table);
    if IsTheTable(derived, table) {
      assert body == table[..|derived|];
      forall i, j | 0 <= i < j < |body| ensures body[i].0 != body[j].0 {
        assert derived[i].title != derived[j].title;
      }
      forall i | 0 <= i < |derived| ensures FindRow(body, derived[i].title) == Some(derived[i].count) {
        FindIs(body, i);
      }
      forall i | 0 <= i < |body| ensures Derives(derived, body[i].0) {
        assert derived[i].title == body[i].0;
      }
      SumsMatch(derived, body);
    }
    if Accepts(derived, table) && DistinctRows(body) {
      SameLabels(derived, body);
      LabelCount(body);
      DerivedLabelCount(derived);
      assert |body| == |derived|;
      forall i | 0 <= i < |derived| ensures table[i].0 == derived[i].title && table[i].1 == derived[i].count {
        FindIs(body, i);
      }
    }
  }

  /** The rows without those of one title. */
  function Without(derived: seq<SectionCount>, title: string): (r: seq<SectionCount>)
    ensures |r| <= |derived| && forall i :: 0 <= i < |r| ==> r[i] in derived && r[i].title != title
  {
    if derived == [] then []
    else
      var init, last := derived[..|derived| - 1], derived[|derived| - 1];
      Without(init, title) + if last.title == title then [] else [last]
  }

  lemma {:induction false} KeptWithout(derived: seq<SectionCount>, title: string, row: SectionCount)
    requires row in derived && row.title != title
    ensures row in Without(derived, title)
  {
    var init, last := derived[..|derived| - 1], derived[|derived| - 1];
    if row != last { KeptWithout(init, title, row); }
  }

  /** Taking out the rows of a title takes its count out of the sum, once for each of them. */
  lemma {:induction false} WithoutSum(derived: seq<SectionCount>, title: string, count: nat)
    requires count > 0 && forall i :: 0 <= i < |derived| ==> derived[i].title == title ==> derived[i].count == count
    ensures DerivedSum(derived) >= DerivedSum(Without(derived, title))
    ensures |derived| > |Without(derived, title)| ==> DerivedSum(derived) >= DerivedSum(Without(derived, title)) + count
    ensures |derived| > |Without(derived, title)| + 1 ==>
            DerivedSum(derived) > DerivedSum(Without(derived, title)) + count
  {
    if derived != [] {
      var init, last := derived[..|derived| - 1], derived[|derived| - 1];
      WithoutSum(init, title, count);
      if last.title == title {
        assert Without(derived, title) == Without(init, title);
      } else {
        assert Without(derived, title)[..|Without(init, title)|] == Without(init, title);
      }
    }
  }

  lemma {:induction false} SomeWithout(derived: seq<SectionCount>, title: string)
    requires Derives(derived, title)
    ensures |Without(derived, title)| < |derived|
  {
    var init, last := derived[..|derived| - 1], derived[|derived| - 1];
    if last.title != title {
      var i :| 0 <= i < |derived| && derived[i].title == title;
      assert init[i].title == title;
      SomeWithout(init, title);
    }
  }

  /** Every derived row is found with its count, and every table row is derived. */
  predicate Matches(derived: seq<SectionCount>, body: seq<TableRow>) {
    && (forall w :: w in derived ==> w.count > 0 && FindRow(body, w.title) == Some(w.count))
    && NoneUnknown(derived, body)
  }

  lemma SomeIn(derived: seq<SectionCount>)
    ensures derived != [] ==> exists w :: w in derived
  {
    if derived != [] { assert derived[0] in derived; }
  }

  /** Rows that match a table without repeated titles sum to no less than it, and to as much only if there
      are no more of them. */
  lemma {:induction false} SumsApart(derived: seq<SectionCount>, body: seq<TableRow>)
    requires DistinctRows(body) && Matches(derived, body)
    ensures TableSum(body) <= DerivedSum(derived)
    ensures TableSum(body) == DerivedSum(derived) ==> |derived| <= |body|
    decreases |body|
  {
    if body == [] {
      SomeIn(derived);
    } else {
      var init, last := body[..|body| - 1], body[|body| - 1];
      var fewer := Without(derived, last.0);
      MatchesInit(derived, body);
      SumsApart(fewer, init);
      LastCount(derived, body);
      WithoutSum(derived, last.0, last.1);
      SomeWithout(derived, last.0);
    }
  }

  lemma {:induction false} LastCount(derived: seq<SectionCount>, body: seq<TableRow>)
    requires body != [] && DistinctRows(body) && Matches(derived, body)
    ensures var last := body[|body| - 1];
            Derives(derived, last.0) && last.1 > 0
            && forall i :: 0 <= i < |derived| && derived[i].title == last.0 ==> derived[i].count == last.1
  {
    var last := body[|body| - 1];
    FindIs(body, |body| - 1);
    var i :| 0 <= i < |derived| && derived[i].title == last.0;
    assert derived[i] in derived;
  }

  lemma {:induction false} MatchesInit(derived: seq<SectionCount>, body: seq<TableRow>)
    requires body != [] && DistinctRows(body) && Matches(derived, body)
    ensures DistinctRows(body[..|body| - 1]) && Matches(Without(derived, body[|body| - 1].0), body[..|body| - 1])
  {
    var init, last := body[..|body| - 1], body[|body| - 1];
    var fewer := Without(derived, last.0);
    forall w | w in fewer ensures w.count > 0 && FindRow(init, w.title) == Some(w.count) {
      FindInit(body, w.title);
    }
    forall i | 0 <= i < |init| ensures Derives(fewer, init[i].0) {
      assert init[i] == body[i];
      var k :| 0 <= k < |derived| && derived[k].title == body[i].0;
      KeptWithout(derived, last.0, derived[k]);
      var m :| 0 <= m < |fewer| && fewer[m] == derived[k];
    }
  }

  lemma {:induction false} FindInit(body: seq<TableRow>, title: string)
    requires body != [] && body[|body| - 1].0 != title
    ensures FindRow(body[..|body| - 1], title) == FindRow(body, title)
  {
    if |body| > 1 && body[0].0 != title {
      FindInit(body[1..], title);
      assert body[..|body| - 1][1..] == body[1..][..|body[1..]| - 1];
    }
  }

  lemma {:induction false} FewLabels(derived: seq<SectionCount>)
    ensures |DerivedLabels(derived)| <= |derived|
    ensures |DerivedLabels(derived)| == |derived| ==> DistinctDerived(derived)
  {
    if derived != [] {
      var init, last := derived[..|derived| - 1], derived[|derived| - 1];
      FewLabels(init);
      assert DerivedLabels(derived) == DerivedLabels(init) + {last.title};
      if |DerivedLabels(derived)| == |derived| {
        assert last.title !in DerivedLabels(init);
        NewLabel(derived);
      }
    }
  }

  lemma NewLabel(derived: seq<SectionCount>)
    requires derived != [] && DistinctDerived(derived[..|derived| - 1])
    requires derived[|derived| - 1].title !in DerivedLabels(derived[..|derived| - 1])
    ensures DistinctDerived(derived)
  {
    var init := derived[..|derived| - 1];
    forall i | 0 <= i < |init| ensures derived[i].title != derived[|derived| - 1].title {
      assert init[i].title in DerivedLabels(init);
    }
    assert forall i :: 0 <= i < |init| ==> init[i] == derived[i];
  }

  /** With positive counts, a repeated derived title would make the two sums differ. */
  lemma EqualSums(derived: seq<SectionCount>, table: seq<TableRow>)
    requires Accepts(derived, table) && DistinctRows(Body(table))
    requires forall i :: 0 <= i < |derived| ==> derived[i].count > 0
    ensures DistinctDerived(derived)
  {
    var body := Body(table);
    SumsApart(derived, body);
    SameLabels(derived, body);
    LabelCount(body);
    FewLabels(derived);
  }

  lemma SameLabels(derived: seq<SectionCount>, body: seq<TableRow>)
    requires RowsAgree(derived, body)
    ensures Labels(body) == DerivedLabels(derived)
  {
    forall l ensures l in Labels(body) <==> l in DerivedLabels(derived) {
      if l in Labels(body) {
        var i :| 0 <= i < |body| && body[i].0 == l;
        assert Derives(derived, body[i].0);
      }
      if l in DerivedLabels(derived) {
        var i :| 0 <= i < |derived| && derived[i].title == l;
        FindExists(body, derived[i].title);
      }
    }
  }

  /** Without that condition it does not: a row repeated with a count of zero goes unnoticed. */
  lemma RepeatedRowEscapes(title: string, count: u32)
    ensures var derived := [SectionCount(title, count)];
            var table: seq<TableRow> := [(title, count), (title, 0), ("Total", count)];
            Accepts(derived, table) && !IsTheTable(derived, table)
  {
    var derived := [SectionCount(title, count)];
    var table: seq<TableRow> := [(title, count), (title, 0), ("Total", count)];
    var body: seq<TableRow> := [(title, count), (title, 0)];
    assert Body(table) == body;
    assert body[..1] == [(title, count)] && body[..1][..0] == [];
    assert TableSum(body) == TableSum(body[..1]) + 0;
    assert TableSum(body[..1]) == count;
    assert DerivedSum(derived) == count;
    assert derived[0].title == title;
    assert Derives(derived, title);
  }
}
