/** The layering gate of xtask/src/layering.rs: which dependency edges are accepted, and the search for a
    platform key in a line. A `char` stands for a byte of the line. */
module Layering {
  import opened Text

  // -------------------------------------------------------------------------------------------
  // Edges
  // -------------------------------------------------------------------------------------------

  /** The `namir-*` crates the table names, the fixtures crate it exempts, and any other. */
  datatype Crate =
    | Core | Params | Dsp | Nam | Ir | Engine | State | Library | Platform | Worker | Ui | App | Clap
    | Fixtures
    | Other(name: string)

  datatype Row = Row(name: Crate, allowed: seq<Crate>)

  type Table = seq<Row>

  datatype Edge = Edge(from: Crate, to: Crate)

  datatype EdgeProblem = NotInTable(name: Crate) | Disallowed(edge: Edge)

  /** The first row of that name, or the length. */
  function RowOf(table: Table, name: Crate): (i: nat)
    ensures i <= |table| && (i < |table| ==> table[i].name == name)
    ensures forall k :: 0 <= k < i ==> table[k].name != name
  {
    if table == [] || table[0].name == name then 0 else
      var i := 1 + RowOf(table[1..], name);
      assert forall k :: 0 < k < |table| ==> table[k] == table[1..][k - 1];
      i
  }

  predicate Exempt(e: Edge) {
    e.from == Fixtures || e.to == Fixtures
  }

  /** The row of the depending crate names the other. */
  predicate Permitted(table: Table, e: Edge) {
    var i := RowOf(table, e.from);
    i < |table| && e.to in table[i].allowed
  }

  function ProblemOf(table: Table, e: Edge): seq<EdgeProblem> {
    if Exempt(e) || Permitted(table, e) then []
    else if RowOf(table, e.from) == |table| then [NotInTable(e.from)]
    else [Disallowed(e)]
  }

  function Problems(table: Table, edges: seq<Edge>): seq<EdgeProblem> {
    if edges == [] then [] else Problems(table, edges[..|edges| - 1]) + ProblemOf(table, edges[|edges| - 1])
  }

  method CheckEdges(table: Table, edges: seq<Edge>) returns (violations: seq<EdgeProblem>)
    ensures violations == Problems(table, edges)
  {
    violations := [];
    for i := 0 to |edges|
      invariant violations == Problems(table, edges[..i])
    {
      assert edges[..i + 1][..i] == edges[..i];
      var e := edges[i];
      if e.from == Fixtures || e.to == Fixtures {
        continue;
      }
      var row := RowOf(table, e.from);
      if row == |table| {
        violations := violations + [NotInTable(e.from)];
      } else if e.to !in table[row].allowed {
        violations := violations + [Disallowed(e)];
      }
    }
    assert edges[..|edges|] == edges;
  }

  lemma {:induction false} NoProblems(table: Table, edges: seq<Edge>)
    ensures Problems(table, edges) == [] <==>
            forall i :: 0 <= i < |edges| ==> Exempt(edges[i]) || Permitted(table, edges[i])
  {
    if edges != [] {
      var init := edges[..|edges| - 1];
      NoProblems(table, init);
      assert forall i :: 0 <= i < |init| ==> init[i] == edges[i];
    }
  }

  /** Every crate a row allows has a row above it. */
  ghost predicate Layered(table: Table) {
    forall i, k :: 0 <= i < |table| && 0 <= k < |table[i].allowed| ==> RowOf(table, table[i].allowed[k]) < i
  }

  /** A walk along edges that do not touch the fixtures crate. */
  predicate IsWalk(edges: seq<Edge>, walk: seq<Crate>) {
    forall i :: 0 <= i < |walk| - 1 ==> Edge(walk[i], walk[i + 1]) in edges && !Exempt(Edge(walk[i], walk[i + 1]))
  }

  lemma {:induction false} PermittedGoesUp(table: Table, e: Edge)
    requires Layered(table) && Permitted(table, e)
    ensures RowOf(table, e.to) < RowOf(table, e.from)
  {
    var i := RowOf(table, e.from);
    var k :| 0 <= k < |table[i].allowed| && table[i].allowed[k] == e.to;
  }

  /** In an accepted graph every step of a walk goes to a row further up. */
  lemma {:induction false} WalkGoesUp(table: Table, edges: seq<Edge>, walk: seq<Crate>, n: nat)
    requires Layered(table) && Problems(table, edges) == [] && IsWalk(edges, walk) && n < |walk|
    ensures RowOf(table, walk[n]) + n <= RowOf(table, walk[0])
  {
    if n > 0 {
      WalkGoesUp(table, edges, walk, n - 1);
      NoProblems(table, edges);
      var e := Edge(walk[n - 1], walk[n - 1 + 1]);
      var k :| 0 <= k < |edges| && edges[k] == e;
      PermittedGoesUp(table, e);
    }
  }

  /** An accepted graph has no cycle that avoids the fixtures crate, and no such walk is longer than the table. */
  lemma {:induction false} AcceptedIsAcyclic(table: Table, edges: seq<Edge>, walk: seq<Crate>)
    requires Layered(table) && Problems(table, edges) == [] && IsWalk(edges, walk) && |walk| > 1
    ensures walk[0] != walk[|walk| - 1] && |walk| <= |table| + 1
  {
    WalkGoesUp(table, edges, walk, |walk| - 1);
  }

  const LAYERING_TABLE: Table := [
    Row(Core, []),
    Row(Params, [Core]),
    Row(Dsp, [Core]),
    Row(Nam, [Core, Dsp]),
    Row(Ir, [Core, Dsp]),
    Row(Engine, [Core, Params, Dsp, Nam, Ir]),
    Row(State, [Core, Params]),
    Row(Library, [Core, Nam, Ir, State]),
    Row(Platform, [Core]),
    Row(Worker, [Core, Params, Dsp, Nam, Ir, Engine, State, Library, Platform]),
    Row(Ui, [Core, Params, Library, State]),
    Row(App, [Core, Params, Dsp, Nam, Ir, Engine, State, Library, Platform, Worker, Ui]),
    Row(Clap, [Core, Params, Dsp, Nam, Ir, Engine, State, Library, Platform, Worker, Ui])
  ]

  /** A crate's first row is not below any row that has its name. */
  lemma {:induction false} RowAtMost(table: Table, name: Crate, j: nat)
    requires j < |table| && table[j].name == name
    ensures RowOf(table, name) <= j
  {
  }

  /** Where each crate's own row is. */
  function Rank(c: Crate): nat {
    match c
    case Core => 0 case Params => 1 case Dsp => 2 case Nam => 3 case Ir => 4 case Engine => 5 case State => 6
    case Library => 7 case Platform => 8 case Worker => 9 case Ui => 10 case App => 11 case Clap => 12
    case _ => 13
  }

  lemma TableIsLayered()
    ensures Layered(LAYERING_TABLE)
  {
    var t := LAYERING_TABLE;
    assert |t| == 13 && forall j :: 0 <= j < 13 ==> Rank(t[j].name) == j;
    forall i, k | 0 <= i < |t| && 0 <= k < |t[i].allowed| ensures RowOf(t, t[i].allowed[k]) < i {
      var c := t[i].allowed[k];
      assert Rank(c) < i;
      assert t[Rank(c)].name == c;
      RowAtMost(t, c, Rank(c));
    }
  }

  /** With the table as it is: no accepted graph has a cycle away from the fixtures crate, and from the
      application no walk leads to the plug-in. */
  lemma {:induction false} AcceptedByTheTable(edges: seq<Edge>, walk: seq<Crate>)
    requires Problems(LAYERING_TABLE, edges) == [] && IsWalk(edges, walk) && |walk| > 1
    ensures walk[0] != walk[|walk| - 1]
    ensures walk[0] == App ==> walk[|walk| - 1] != Clap
  {
    var t := LAYERING_TABLE;
    TableIsLayered();
    AcceptedIsAcyclic(t, edges, walk);
    WalkGoesUp(t, edges, walk, |walk| - 1);
    assert t[11].name == App;
    RowAtMost(t, App, 11);
    ClapIsLast();
  }

  lemma ClapIsLast()
    ensures RowOf(LAYERING_TABLE, Clap) == 12
  {
    var t := LAYERING_TABLE;
    assert t[12].name == Clap;
    assert forall j :: 0 <= j < 12 ==> Rank(t[j].name) == j;
    RowAtMost(t, Clap, 12);
  }

  /** A cycle through the fixtures crate is accepted. */
  lemma CycleThroughFixtures()
    ensures Problems(LAYERING_TABLE, [Edge(Core, Fixtures), Edge(Fixtures, Core)]) == []
  {
    NoProblems(LAYERING_TABLE, [Edge(Core, Fixtures), Edge(Fixtures, Core)]);
  }

  // -------------------------------------------------------------------------------------------
  // Naming an identifier
  // -------------------------------------------------------------------------------------------

  predicate IsIdentByte(c: char) {
    IsAlnum(c) || c == '_' || c as int >= 0x80
  }

  predicate IsIdent(s: string) {
    s != "" && forall i :: 0 <= i < |s| ==> IsIdentByte(s[i])
  }

  predicate OccursAt(line: string, ident: string, i: nat) {
    i + |ident| <= |line| && line[i..i + |ident|] == ident
  }

  function NextMatch(line: string, ident: string, i: nat): (p: nat)
    requires i <= |line|
    ensures i <= p && (p < |line| ==> OccursAt(line, ident, p)) && p <= |line|
    ensures forall q: nat :: i <= q < p ==> !OccursAt(line, ident, q)
    decreases |line| - i
  {
    if i == |line| || OccursAt(line, ident, i) then i else NextMatch(line, ident, i + 1)
  }

  /** `str::match_indices`: the occurrences found from the left, each search starting behind the last match. */
  function MatchIndices(line: string, ident: string, i: nat): seq<nat>
    requires ident != "" && i <= |line|
    decreases |line| - i
  {
    var p := NextMatch(line, ident, i);
    if p == |line| then [] else [p] + MatchIndices(line, ident, p + |ident|)
  }

  /** An occurrence with no identifier byte on either side. */
  predicate WholeAt(line: string, ident: string, i: nat) {
    && OccursAt(line, ident, i)
    && (i == 0 || !IsIdentByte(line[i - 1]))
    && (i + |ident| == |line| || !IsIdentByte(line[i + |ident|]))
  }

  function LastVisible(s: string): (r: Option<char>)
  {
    if s == "" then None else if IsAsciiSpace(s[|s| - 1]) then LastVisible(s[..|s| - 1]) else Some(s[|s| - 1])
  }

  function FirstVisible(s: string): Option<char> {
    if s == "" then None else if IsAsciiSpace(s[0]) then FirstVisible(s[1..]) else Some(s[0])
  }

  predicate IsAsciiSpace(c: char) {
    c == ' ' || c == '\t' || c == '\n' || c == '\r' || c as int == 0x0C
  }

  /** Opened by a bracket or a comma, closed by a bracket, a comma or the end of the line. */
  predicate InPredicatePosition(line: string, ident: string, i: nat)
    requires i + |ident| <= |line|
  {
    var before, after := LastVisible(line[..i]), FirstVisible(line[i + |ident|..]);
    (before == Some('(') || before == Some(',')) && (after == Some(')') || after == Some(',') || after == None)
  }

  predicate Blank(line: string, i: nat, j: nat)
    requires j <= |line|
  {
    forall k :: i <= k < j ==> IsAsciiSpace(line[k])
  }

  predicate Opened(line: string, i: nat)
    requires i <= |line|
  {
    exists a :: 0 <= a < i && (line[a] == '(' || line[a] == ',') && Blank(line, a + 1, i)
  }

  predicate Ended(line: string, j: nat)
    requires j <= |line|
  {
    Blank(line, j, |line|) || exists b :: j <= b < |line| && (line[b] == ')' || line[b] == ',') && Blank(line, j, b)
  }

  lemma {:induction false} LastVisibleAt(s: string) returns (a: nat)
    ensures LastVisible(s).None? ==> Blank(s, 0, |s|)
    ensures LastVisible(s).Some? ==>
              a < |s| && LastVisible(s) == Some(s[a]) && !IsAsciiSpace(s[a]) && Blank(s, a + 1, |s|)
  {
    a := if s == "" then 0 else |s| - 1;
    if s != "" && IsAsciiSpace(s[|s| - 1]) {
      a := LastVisibleAt(s[..|s| - 1]);
    }
  }

  lemma {:induction false} FirstVisibleAt(s: string) returns (b: nat)
    ensures FirstVisible(s).None? ==> Blank(s, 0, |s|)
    ensures FirstVisible(s).Some? ==>
              b < |s| && FirstVisible(s) == Some(s[b]) && !IsAsciiSpace(s[b]) && Blank(s, 0, b)
  {
    b := 0;
    if s != "" && IsAsciiSpace(s[0]) {
      var c := FirstVisibleAt(s[1..]);
      b := c + 1;
      if FirstVisible(s).None? {
        forall k | 0 <= k < |s| ensures IsAsciiSpace(s[k]) {
          assert k > 0 ==> s[1..][k - 1] == s[k];
        }
      } else {
        forall k | 0 <= k < b ensures IsAsciiSpace(s[k]) {
          assert k > 0 ==> s[1..][k - 1] == s[k];
        }
      }
    }
  }

  lemma OpenedIff(line: string, i: nat)
    requires i <= |line|
    ensures Opened(line, i) <==> LastVisible(line[..i]) == Some('(') || LastVisible(line[..i]) == Some(',')
  {
    var a := LastVisibleAt(line[..i]);
    if LastVisible(line[..i]).Some? {
      forall k | a + 1 <= k < i ensures IsAsciiSpace(line[k]) {
        assert line[..i][k] == line[k];
      }
      assert Blank(line, a + 1, i);
    } else {
      forall k | 0 <= k < i ensures IsAsciiSpace(line[k]) {
        assert line[..i][k] == line[k];
      }
    }
  }

  lemma EndedIff(line: string, j: nat)
    requires j <= |line|
    ensures Ended(line, j) <==> Ends(FirstVisible(line[j..]))
  {
    var rest := line[j..];
    var b := FirstVisibleAt(rest);
    forall k | j <= k < |line| ensures rest[k - j] == line[k] {
    }
    if FirstVisible(rest).Some? {
      assert line[j + b] == rest[b];
      assert Blank(line, j, j + b);
    } else {
      assert Blank(line, j, |line|);
    }
  }

  predicate Ends(after: Option<char>) { after == Some(')') || after == Some(',') || after == None }

  /** White space aside: an opening bracket or a comma before it, and behind it a closing bracket, a comma or
      nothing. */
  lemma PositionIff(line: string, ident: string, i: nat)
    requires i + |ident| <= |line|
    ensures InPredicatePosition(line, ident, i) <==> Opened(line, i) && Ended(line, i + |ident|)
  {
    OpenedIff(line, i);
    EndedIff(line, i + |ident|);
  }

  predicate NamesIdentifier(line: string, ident: string)
    requires ident != ""
  {
    exists k :: k in MatchIndices(line, ident, 0) && WholeAt(line, ident, k)
  }

  predicate NamesBarePredicate(line: string, ident: string)
    requires ident != ""
  {
    exists k :: k in MatchIndices(line, ident, 0) && WholeAt(line, ident, k) && InPredicatePosition(line, ident, k)
  }

  /** No occurrence that stands on its own is skipped as overlapping an earlier match. */
  lemma {:induction false} WholeIsMatched(line: string, ident: string, i: nat, q: nat)
    requires IsIdent(ident) && i <= q && i <= |line| && WholeAt(line, ident, q)
    ensures q in MatchIndices(line, ident, i)
    decreases |line| - i
  {
    var p := NextMatch(line, ident, i);
    if p != q {
      NotInside(line, ident, p, q);
      WholeIsMatched(line, ident, p + |ident|, q);
    }
  }

  lemma NotInside(line: string, ident: string, p: nat, q: nat)
    requires IsIdent(ident) && OccursAt(line, ident, p) && WholeAt(line, ident, q) && p < q
    ensures p + |ident| <= q
  {
    forall k | p <= k < p + |ident| ensures IsIdentByte(line[k]) {
      assert line[p..p + |ident|][k - p] == ident[k - p];
    }
  }

  /** A maximal run of identifier bytes. */
  predicate IsRun(line: string, i: nat, j: nat) {
    && i < j <= |line|
    && (forall k :: i <= k < j ==> IsIdentByte(line[k]))
    && (i == 0 || !IsIdentByte(line[i - 1]))
    && (j == |line| || !IsIdentByte(line[j]))
  }

  ghost predicate HasRun(line: string, ident: string) {
    exists i: nat, j: nat :: IsRun(line, i, j) && line[i..j] == ident
  }

  lemma RunIsWhole(line: string, ident: string, i: nat)
    requires IsIdent(ident)
    ensures WholeAt(line, ident, i) <==> IsRun(line, i, i + |ident|) && line[i..i + |ident|] == ident
  {
    if OccursAt(line, ident, i) {
      forall k | i <= k < i + |ident| ensures IsIdentByte(line[k]) {
        assert line[i..i + |ident|][k - i] == ident[k - i];
      }
    }
  }

  /** The search finds the identifier exactly when it is one of the line's maximal identifier runs. */
  lemma NamesIdentifierIff(line: string, ident: string)
    requires IsIdent(ident)
    ensures NamesIdentifier(line, ident) <==> HasRun(line, ident)
  {
    if NamesIdentifier(line, ident) {
      var k :| k in MatchIndices(line, ident, 0) && WholeAt(line, ident, k);
      RunIsWhole(line, ident, k);
    }
    if HasRun(line, ident) {
      var i: nat, j: nat :| IsRun(line, i, j) && line[i..j] == ident;
      RunIsMatched(line, ident, i, j);
    }
  }

  /** A maximal run in predicate position: opened by a bracket or a comma, closed by either or by the end. */
  predicate IsPlaced(line: string, i: nat, j: nat) {
    IsRun(line, i, j) && Opened(line, i) && Ended(line, j)
  }

  /** The predicate search finds the identifier exactly when some such run is the identifier. */
  lemma NamesBarePredicateIff(line: string, ident: string)
    requires IsIdent(ident)
    ensures NamesBarePredicate(line, ident) <==>
            exists i: nat, j: nat :: IsPlaced(line, i, j) && line[i..j] == ident
  {
    if NamesBarePredicate(line, ident) {
      var k :| k in MatchIndices(line, ident, 0) && WholeAt(line, ident, k) && InPredicatePosition(line, ident, k);
      RunIsWhole(line, ident, k);
      PositionIff(line, ident, k);
      assert IsPlaced(line, k, k + |ident|);
    }
    if i: nat, j: nat :| IsPlaced(line, i, j) && line[i..j] == ident {
      RunIsMatched(line, ident, i, j);
      PositionIff(line, ident, i);
    }
  }

  lemma {:induction false} RunIsMatched(line: string, ident: string, i: nat, j: nat)
    requires IsIdent(ident) && IsRun(line, i, j) && line[i..j] == ident
    ensures WholeAt(line, ident, i) && i in MatchIndices(line, ident, 0)
  {
    RunIsWhole(line, ident, i);
    WholeIsMatched(line, ident, 0, i);
  }
}
