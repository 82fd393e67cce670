/** The section table end to end: what the derived rows are, and when the roadmap's table passes. */
module SectionTheorems {
  import opened Text
  import opened TextTheorems
  import opened Coverage
  import opened SectionCounts

  // -------------------------------------------------------------------------------------------
  // Section numbers
  // -------------------------------------------------------------------------------------------

  predicate IsNumberChar(c: char) { IsDigit(c) || c == '.' }

  function Dots(s: string): nat {
    if s == "" then 0 else Dots(s[1..]) + if s[0] == '.' then 1 else 0
  }

  /** Digits with at most one dot between them. */
  predicate Numbered(s: string) {
    && s != "" && (forall i :: 0 <= i < |s| ==> IsNumberChar(s[i]))
    && IsDigit(s[0]) && IsDigit(s[|s| - 1]) && Dots(s) <= 1
  }

  /** How many digits and dots `s` starts with. */
  function NumberLength(s: string): (n: nat)
    ensures n <= |s| && (forall i :: 0 <= i < n ==> IsNumberChar(s[i]))
    ensures n < |s| ==> !IsNumberChar(s[n])
  {
    if s != "" && IsNumberChar(s[0]) then 1 + NumberLength(s[1..]) else 0
  }

  predicate IsAsciiWhite(c: char) {
    c == ' ' || c == '\t' || c == '\n' || c == '\r' || c == '\U{0C}'
  }

  /** The number that a second- or third-level heading opens with. */
  function HeadingNumber(line: string): Option<string> {
    if "### " <= line then LeadingNumber(TrimStart(line[4..]))
    else if "## " <= line then LeadingNumber(TrimStart(line[3..]))
    else None
  }

  function LeadingNumber(rest: string): Option<string> {
    var n := NumberLength(rest);
    var run := if n > 0 && rest[n - 1] == '.' then rest[..n - 1] else rest[..n];
    if n < |rest| && !IsAsciiWhite(rest[n]) then None
    else if run == "" || !IsDigit(run[0]) || !IsDigit(run[|run| - 1]) || Dots(run) > 1 then None
    else Some(run)
  }

  /** The sections that headings open are exactly the digits with at most one dot between them. */
  lemma NumbersOfHeadings(s: string)
    ensures Numbered(s) <==> exists line :: HeadingNumber(line) == Some(s)
  {
    if Numbered(s) {
      var line := "## " + s;
      assert line[3..] == s && line[3] == s[0];
      TrimStartId(s);
      assert s[..|s|] == s;
      assert HeadingNumber(line) == Some(s);
    }
  }

  // -------------------------------------------------------------------------------------------
  // Row titles
  // -------------------------------------------------------------------------------------------

  /** The title of the row a requirement is counted in. */
  function TitleOf(req: Requirement): string
    requires AreaToken(req.id).Some?
  {
    req.section + " " + AreaToken(req.id).value
  }

  /** The section of `q` runs on, behind a space, into what the area of `p` begins with. */
  predicate RunsInto(p: Requirement, q: Requirement) {
    && AreaToken(p.id).Some? && AreaToken(q.id).Some? && p.section + " " <= q.section
    && AreaToken(p.id).value == q.section[|p.section| + 1..] + " " + AreaToken(q.id).value
  }

  /** Two sections of the requirements share a title. */
  predicate Collide(reqs: seq<Requirement>) {
    exists i, j :: 0 <= i < |reqs| && 0 <= j < |reqs| && RunsInto(reqs[i], reqs[j])
  }

  /** Different sections share a title only where one runs into the other's area. */
  lemma SameTitleIff(p: Requirement, q: Requirement)
    requires AreaToken(p.id).Some? && AreaToken(q.id).Some? && p.section != q.section
    ensures TitleOf(p) == TitleOf(q) <==> RunsInto(p, q) || RunsInto(q, p)
  {
    var a, b := AreaToken(p.id).value, AreaToken(q.id).value;
    if |p.section| < |q.section| {
      TextsAgreeIff(p.section, a, q.section, b);
    } else if |q.section| < |p.section| {
      TextsAgreeIff(q.section, b, p.section, a);
    } else {
      assert TitleOf(p)[..|p.section|] == p.section && TitleOf(q)[..|q.section|] == q.section;
    }
  }

  lemma TextsAgreeIff(s: string, a: string, t: string, b: string)
    requires |s| < |t|
    ensures s + " " + a == t + " " + b <==> s + " " <= t && a == t[|s| + 1..] + " " + b
  {
    var n := |s| + 1;
    var x, y := s + " " + a, t + " " + b;
    assert x[..n] == s + " " && x[n..] == a;
    assert y[..n] == t[..n] && y[n..] == t[n..] + " " + b;
    assert x == x[..n] + x[n..] && y == y[..n] + y[n..];
  }

  /** Some requirement stands for each row. */
  lemma RowStandsFor(rows: seq<SectionCount>, reqs: seq<Requirement>, k: nat) returns (i: nat)
    requires WellSectioned(reqs) && RowsOf(rows, reqs) && k < |rows|
    ensures i < |reqs| && reqs[i].section == Sections(reqs)[k] && AreaToken(reqs[i].id).Some?
    ensures rows[k].title == TitleOf(reqs[i]) && rows[k].count > 0
  {
    SectionsAre(reqs);
    var section := Sections(reqs)[k];
    assert section in Sections(reqs) && Mentions(reqs, section);
    i :| 0 <= i < |reqs| && reqs[i].section == section;
    assert TitleFits(rows[k].title, section, reqs[i]);
    Counted(reqs, i);
  }

  lemma {:induction false} Counted(reqs: seq<Requirement>, i: nat)
    requires i < |reqs|
    ensures CountOf(reqs, reqs[i].section) > 0
  {
    if i < |reqs| - 1 { Counted(reqs[..|reqs| - 1], i); }
  }

  /** Every requirement is counted in the row of its title. */
  lemma RowOfRequirement(rows: seq<SectionCount>, reqs: seq<Requirement>, i: nat) returns (k: nat)
    requires WellSectioned(reqs) && RowsOf(rows, reqs) && i < |reqs|
    ensures k < |rows| && Sections(reqs)[k] == reqs[i].section && rows[k].title == TitleOf(reqs[i])
  {
    SectionsAre(reqs);
    assert Mentions(reqs, reqs[i].section);
    k :| 0 <= k < |Sections(reqs)| && Sections(reqs)[k] == reqs[i].section;
    assert TitleFits(rows[k].title, Sections(reqs)[k], reqs[i]);
  }

  /** The titles of the rows are distinct exactly where no section runs into the area of another. */
  lemma TitlesDistinctIff(rows: seq<SectionCount>, reqs: seq<Requirement>)
    requires WellSectioned(reqs) && RowsOf(rows, reqs)
    ensures DistinctDerived(rows) <==> !Collide(reqs)
  {
    if Collide(reqs) {
      var i, j :| 0 <= i < |reqs| && 0 <= j < |reqs| && RunsInto(reqs[i], reqs[j]);
      var k := RowOfRequirement(rows, reqs, i);
      var m := RowOfRequirement(rows, reqs, j);
      SameTitleIff(reqs[i], reqs[j]);
      assert k < m || m < k;
    }
    if k, m :| 0 <= k < m < |rows| && rows[k].title == rows[m].title {
      var i := RowStandsFor(rows, reqs, k);
      var j := RowStandsFor(rows, reqs, m);
      SectionsAre(reqs);
      SameTitleIff(reqs[i], reqs[j]);
    }
  }

  /** Numbers hold no space, so the sections of real headings never share a title. */
  lemma NumbersDoNotCollide(reqs: seq<Requirement>)
    requires forall i :: 0 <= i < |reqs| ==> Numbered(reqs[i].section)
    ensures !Collide(reqs)
  {
    forall i, j | 0 <= i < |reqs| && 0 <= j < |reqs| ensures !RunsInto(reqs[i], reqs[j]) {
      var p, q := reqs[i].section, reqs[j].section;
      assert |p| < |q| ==> IsNumberChar(q[|p|]);
      assert (p + " ")[|p|] == ' ';
    }
  }

  // -------------------------------------------------------------------------------------------
  // The counts
  // -------------------------------------------------------------------------------------------

  lemma {:induction false} RowsSum(rows: seq<SectionCount>, reqs: seq<Requirement>, sections: seq<string>)
    requires |rows| == |sections| && forall k :: 0 <= k < |rows| ==> rows[k].count == CountOf(reqs, sections[k])
    ensures DerivedSum(rows) == SumOf(reqs, sections)
  {
    if rows != [] { RowsSum(rows[..|rows| - 1], reqs, sections[..|sections| - 1]); }
  }

  /** The rows partition the requirements: each requirement is in the row of its title, each row has one, the
      counts add up to the number of requirements, and the titles are distinct unless sections collide. */
  lemma {:induction false} RowsPartition(rows: seq<SectionCount>, reqs: seq<Requirement>)
    requires WellSectioned(reqs) && RowsOf(rows, reqs)
    ensures DerivedSum(rows) == |reqs|
    ensures DistinctDerived(rows) <==> !Collide(reqs)
    ensures forall i :: 0 <= i < |reqs| ==> Derives(rows, TitleOf(reqs[i]))
    ensures forall k :: 0 <= k < |rows| ==> rows[k].count > 0
  {
    SectionsPartition(reqs);
    RowsSum(rows, reqs, Sections(reqs));
    TitlesDistinctIff(rows, reqs);
    forall i | 0 <= i < |reqs| ensures Derives(rows, TitleOf(reqs[i])) {
      var k := RowOfRequirement(rows, reqs, i);
    }
    forall k | 0 <= k < |rows| ensures rows[k].count > 0 {
      var i := RowStandsFor(rows, reqs, k);
    }
  }

  // -------------------------------------------------------------------------------------------
  // Derivation and comparison together
  // -------------------------------------------------------------------------------------------

  /** The rows in their order, and nothing behind them but a total of `n`. */
  predicate ListsThen(table: seq<TableRow>, rows: seq<SectionCount>, n: nat) {
    && |table| == |rows| + 1
    && (forall k :: 0 <= k < |rows| ==> table[k].0 == rows[k].title && table[k].1 == rows[k].count)
    && table[|rows|].0 == "Total" && table[|rows|].1 == n
  }

  /** For the rows derived from any requirements: a table without repeated titles passes exactly when it is
      those rows, in order, followed by the number of requirements, and no two sections share a title. */
  lemma PassesExactly(reqs: seq<Requirement>, rows: seq<SectionCount>, table: seq<TableRow>)
    requires WellSectioned(reqs) && RowsOf(rows, reqs)
    ensures Accepts(rows, table) && DistinctRows(Body(table)) <==> ListsThen(table, rows, |reqs|) && !Collide(reqs)
  {
    RowsPartition(rows, reqs);
    AcceptsExactly(rows, table);
  }

  /** So with the section numbers that headings give, nothing but the derived table passes. */
  lemma NumberedPassesExactly(reqs: seq<Requirement>, rows: seq<SectionCount>, table: seq<TableRow>)
    requires WellSectioned(reqs) && RowsOf(rows, reqs)
    requires forall i :: 0 <= i < |reqs| ==> Numbered(reqs[i].section)
    ensures Accepts(rows, table) && DistinctRows(Body(table)) <==> ListsThen(table, rows, |reqs|)
  {
    NumbersDoNotCollide(reqs);
    PassesExactly(reqs, rows, table);
  }

  /** The two functions one after the other, over the same requirements. */
  method CheckSectionTable(reqs: seq<Requirement>, table: seq<TableRow>) returns (r: Result<Comparison, Error>)
    ensures r.Err? <==> !WellSectioned(reqs)
    ensures r == Ok(Reported([])) && DistinctRows(Body(table)) <==>
            WellSectioned(reqs) && !Collide(reqs)
            && exists rows :: RowsOf(rows, reqs) && ListsThen(table, rows, |reqs|)
  {
    var derived := SectionMustCounts(reqs);
    if derived.Err? {
      return Err(derived.error);
    }
    var rows := derived.value;
    PassesExactly(reqs, rows, table);
    forall other | RowsOf(other, reqs) ensures other == rows {
      RowsAreUnique(rows, other, reqs);
    }
    var comparison := CompareSectionCounts(rows, table);
    r := Ok(comparison);
  }

  lemma RowsAreUnique(a: seq<SectionCount>, b: seq<SectionCount>, reqs: seq<Requirement>)
    requires WellSectioned(reqs) && RowsOf(a, reqs) && RowsOf(b, reqs)
    ensures a == b
  {
    forall k | 0 <= k < |a| ensures a[k] == b[k] {
      var i := RowStandsFor(a, reqs, k);
      assert TitleFits(b[k].title, Sections(reqs)[k], reqs[i]);
    }
  }

  /** Sections `1` and `1 A` over areas `A B` and `B`: both rows are titled `1 A B`. */
  lemma SectionsCollide()
    ensures var reqs := [Requirement("FR-A B-010", [], "1"), Requirement("FR-B-010", [], "1 A")];
            WellSectioned(reqs) && Collide(reqs)
            && forall rows :: RowsOf(rows, reqs) ==> !DistinctDerived(rows)
  {
    var p, q := Requirement("FR-A B-010", [], "1"), Requirement("FR-B-010", [], "1 A");
    var reqs := [p, q];
    CollidingAreas();
    OneRunsIntoTwo(p, q);
    PairCollides(p, q);
    forall rows | RowsOf(rows, reqs) ensures !DistinctDerived(rows) {
      TitlesDistinctIff(rows, reqs);
    }
  }

  lemma PairCollides(p: Requirement, q: Requirement)
    requires p.section != "" && q.section != "" && p.section != q.section && RunsInto(p, q)
    ensures WellSectioned([p, q]) && Collide([p, q])
  {
    assert RunsInto([p, q][0], [p, q][1]);
  }

  lemma CollidingAreas()
    ensures AreaToken("FR-A B-010") == Some("A B") && AreaToken("FR-B-010") == Some("B")
  {
    AreaOf("FR", "A B", "010");
    AreaOf("FR", "B", "010");
    assert "FR-A B-010" == "FR" + "-" + "A B" + "-" + "010" && "FR-B-010" == "FR" + "-" + "B" + "-" + "010";
  }

  lemma OneRunsIntoTwo(p: Requirement, q: Requirement)
    requires p.section == "1" && q.section == "1 A"
    requires AreaToken(p.id) == Some("A B") && AreaToken(q.id) == Some("B")
    ensures RunsInto(p, q)
  {
    assert q.section[2..] == "A";
  }

  lemma {:induction false} AreaOf(prefix: string, area: string, number: string)
    requires prefix != "" && area != "" && number != ""
    requires '-' !in prefix && '-' !in area && '-' !in number
    ensures AreaToken(prefix + "-" + area + "-" + number) == Some(area)
  {
    SplitFirst(prefix, '-', area + "-" + number);
    SplitFirst(area, '-', number);
    SplitFirst(number, '-', "");
    assert prefix + "-" + area + "-" + number == prefix + ['-'] + (area + "-" + number);
    assert area + "-" + number == area + ['-'] + number;
  }

  /** An id whose second part between hyphens is `area`, the first three parts holding something. */
  predicate Reads(id: string, prefix: string, area: string, number: string) {
    && prefix != "" && area != "" && number != ""
    && '-' !in prefix && '-' !in area && '-' !in number
    && (id == prefix + "-" + area + "-" + number || prefix + "-" + area + "-" + number + "-" <= id)
  }

  lemma AreaFound(id: string, prefix: string, area: string, number: string)
    requires Reads(id, prefix, area, number)
    ensures AreaToken(id) == Some(area)
  {
    if id == prefix + "-" + area + "-" + number {
      AreaOf(prefix, area, number);
    } else {
      var more := id[|prefix + "-" + area + "-" + number + "-"|..];
      SplitFirst(prefix, '-', area + ['-'] + (number + ['-'] + more));
      SplitFirst(area, '-', number + ['-'] + more);
      SplitFirst(number, '-', more);
      assert id == prefix + ['-'] + (area + ['-'] + (number + ['-'] + more));
    }
  }

  lemma ThreeParts(id: string) returns (prefix: string, number: string)
    requires AreaToken(id).Some?
    ensures Reads(id, prefix, AreaToken(id).value, number)
  {
    SplitJoins(id, '-');
    var parts := Split(id, '-');
    prefix, number := parts[0], parts[2];
    assert Join(parts, "-") == prefix + "-" + (parts[1] + "-" + Join(parts[2..], "-"));
    assert |parts| > 3 ==> Join(parts[2..], "-") == number + "-" + Join(parts[3..], "-");
  }

  /** The area of an id is its second part, and an id without three parts has none. */
  lemma AreaIff(id: string, area: string)
    ensures AreaToken(id) == Some(area) <==> exists prefix, number :: Reads(id, prefix, area, number)
  {
    if AreaToken(id) == Some(area) {
      var prefix, number := ThreeParts(id);
    }
    if prefix, number :| Reads(id, prefix, area, number) {
      AreaFound(id, prefix, area, number);
    }
  }
}
