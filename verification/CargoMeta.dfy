/** The third-party runtime dependencies of xtask/src/cargo_meta.rs: a work-list traversal of the resolve
    graph, and the list made from what it visited. */
module CargoMeta {
  import opened Text
  import opened Sorting

  type Id = string

  datatype Kind = Normal | Development | Build | Unknown

  datatype Dep = Dep(pkg: Id, kinds: seq<Kind>)

  datatype Node = Node(id: Id, deps: seq<Dep>)

  datatype Package = Package(id: Id, name: string, version: string, license: Option<string>,
                             licenseFile: Option<string>)

  datatype Metadata = Metadata(packages: seq<Package>, members: set<Id>, resolve: Option<seq<Node>>)

  datatype ThirdParty = ThirdParty(name: string, version: string, license: string)

  datatype Failure = NoResolveGraph | NoMember(name: string)

  const ROOT_NAMES := ["namir-app", "namir-clap"]

  // -------------------------------------------------------------------------------------------
  // The graph
  // -------------------------------------------------------------------------------------------

  /** No kind at all, or one of them normal. */
  predicate IsNormal(d: Dep) {
    d.kinds == [] || Normal in d.kinds
  }

  function FindNode(nodes: seq<Node>, id: Id): (r: Option<Node>)
    ensures r.Some? ==> r.value in nodes && r.value.id == id
  {
    if nodes == [] then None else if nodes[0].id == id then Some(nodes[0]) else FindNode(nodes[1..], id)
  }

  /** A normal dependency of the first node with that identifier. */
  predicate Edge(nodes: seq<Node>, a: Id, b: Id) {
    var n := FindNode(nodes, a);
    n.Some? && exists k :: 0 <= k < |n.value.deps| && IsNormal(n.value.deps[k]) && n.value.deps[k].pkg == b
  }

  predicate IsPath(nodes: seq<Node>, roots: seq<Id>, path: seq<Id>) {
    path != [] && path[0] in roots && forall i :: 0 <= i < |path| - 1 ==> Edge(nodes, path[i], path[i + 1])
  }

  /** Some path of normal edges leads from a root to `id`. */
  ghost predicate Reached(nodes: seq<Node>, roots: seq<Id>, id: Id) {
    exists path: seq<Id> :: IsPath(nodes, roots, path) && path[|path| - 1] == id
  }

  lemma RootIsReached(nodes: seq<Node>, roots: seq<Id>, id: Id)
    requires id in roots
    ensures Reached(nodes, roots, id)
  {
    assert IsPath(nodes, roots, [id]);
  }

  lemma EdgeIsReached(nodes: seq<Node>, roots: seq<Id>, a: Id, b: Id)
    requires Reached(nodes, roots, a) && Edge(nodes, a, b)
    ensures Reached(nodes, roots, b)
  {
    var path :| IsPath(nodes, roots, path) && path[|path| - 1] == a;
    var longer := path + [b];
    forall i | 0 <= i < |longer| - 1 ensures Edge(nodes, longer[i], longer[i + 1]) {
      if i < |path| - 1 { assert Edge(nodes, path[i], path[i + 1]); }
    }
    assert IsPath(nodes, roots, longer);
  }

  /** The roots and everything an edge of the graph leads to. */
  function Universe(nodes: seq<Node>, roots: seq<Id>): set<Id> {
    (set id | id in roots) + (set n, d | n in nodes && d in n.deps :: d.pkg)
  }

  lemma EdgeInUniverse(nodes: seq<Node>, roots: seq<Id>, n: Node, k: nat)
    requires n in nodes && k < |n.deps|
    ensures n.deps[k].pkg in Universe(nodes, roots)
  {
    assert n.deps[k] in n.deps;
  }

  // -------------------------------------------------------------------------------------------
  // The traversal
  // -------------------------------------------------------------------------------------------

  /** Everything an edge out of a visited package leads to is visited or waiting. */
  ghost predicate Closed(nodes: seq<Node>, visited: set<Id>, waiting: seq<Id>) {
    forall a, b :: a in visited && Edge(nodes, a, b) ==> b in visited || b in waiting
  }

  ghost predicate AllReached(nodes: seq<Node>, roots: seq<Id>, visited: set<Id>, waiting: seq<Id>) {
    && (forall a :: a in visited ==> Reached(nodes, roots, a))
    && (forall i :: 0 <= i < |waiting| ==> Reached(nodes, roots, waiting[i]))
  }

  lemma {:induction false} ClosedHoldsPaths(nodes: seq<Node>, roots: seq<Id>, visited: set<Id>, path: seq<Id>, i: nat)
    requires Closed(nodes, visited, []) && (forall r :: r in roots ==> r in visited)
    requires IsPath(nodes, roots, path) && i < |path|
    ensures path[i] in visited
  {
    if i > 0 {
      ClosedHoldsPaths(nodes, roots, visited, path, i - 1);
      assert Edge(nodes, path[i - 1], path[i - 1 + 1]);
    }
  }

  /** What the traversal keeps: the roots are visited or waiting, nothing else than what is reached is, and
      the visited packages are closed up to those waiting. */
  ghost predicate Kept(nodes: seq<Node>, roots: seq<Id>, visited: set<Id>, waiting: seq<Id>) {
    && Closed(nodes, visited, waiting)
    && AllReached(nodes, roots, visited, waiting)
    && (forall r :: r in roots ==> r in visited || r in waiting)
    && visited <= Universe(nodes, roots)
    && (forall i :: 0 <= i < |waiting| ==> waiting[i] in Universe(nodes, roots))
  }

  /** The work list: ends, even with duplicates waiting and identifiers without a node, and visits exactly
      what normal edges reach from the roots. */
  method Traverse(nodes: seq<Node>, roots: seq<Id>) returns (visited: set<Id>)
    ensures forall id :: id in visited <==> Reached(nodes, roots, id)
  {
    visited := {};
    var queue := roots;
    KeptAtFirst(nodes, roots);
    while queue != []
      invariant Kept(nodes, roots, visited, queue)
      decreases |Universe(nodes, roots) - visited|, |queue|
    {
      var id, rest := queue[0], queue[1..];
      if id in visited {
        KeptBySkipping(nodes, roots, visited, queue);
        queue := rest;
      } else {
        Shrinks(Universe(nodes, roots), visited, id);
        KeptAhead(nodes, roots, visited, queue);
        var longer := Extend(nodes, roots, id, visited + {id}, rest);
        KeptByVisiting(nodes, roots, visited, queue, longer);
        visited, queue := visited + {id}, longer;
      }
    }
    KeptAtLast(nodes, roots, visited);
  }

  lemma KeptAtFirst(nodes: seq<Node>, roots: seq<Id>)
    ensures Kept(nodes, roots, {}, roots)
  {
    forall i | 0 <= i < |roots| ensures Reached(nodes, roots, roots[i]) {
      RootIsReached(nodes, roots, roots[i]);
    }
  }

  lemma KeptAtLast(nodes: seq<Node>, roots: seq<Id>, visited: set<Id>)
    requires Kept(nodes, roots, visited, [])
    ensures forall id :: id in visited <==> Reached(nodes, roots, id)
  {
    forall id | Reached(nodes, roots, id) ensures id in visited {
      var path :| IsPath(nodes, roots, path) && path[|path| - 1] == id;
      ClosedHoldsPaths(nodes, roots, visited, path, |path| - 1);
    }
  }

  lemma KeptAhead(nodes: seq<Node>, roots: seq<Id>, visited: set<Id>, waiting: seq<Id>)
    requires Kept(nodes, roots, visited, waiting) && waiting != []
    ensures Reached(nodes, roots, waiting[0]) && waiting[0] in Universe(nodes, roots)
    ensures forall i :: 0 <= i < |waiting[1..]| ==>
            Reached(nodes, roots, waiting[1..][i]) && waiting[1..][i] in Universe(nodes, roots)
  {
  }

  /** What waits before and is not at the front waits behind it. */
  lemma OneLess(waiting: seq<Id>, x: Id)
    requires waiting != [] && x in waiting && x != waiting[0]
    ensures x in waiting[1..]
  {
    assert waiting == [waiting[0]] + waiting[1..];
  }

  lemma KeptBySkipping(nodes: seq<Node>, roots: seq<Id>, visited: set<Id>, waiting: seq<Id>)
    requires Kept(nodes, roots, visited, waiting) && waiting != [] && waiting[0] in visited
    ensures Kept(nodes, roots, visited, waiting[1..])
  {
    forall x | x in waiting && x !in visited ensures x in waiting[1..] {
      OneLess(waiting, x);
    }
  }

  lemma KeptByVisiting(nodes: seq<Node>, roots: seq<Id>, visited: set<Id>, waiting: seq<Id>, longer: seq<Id>)
    requires Kept(nodes, roots, visited, waiting) && waiting != []
    requires waiting[1..] <= longer
    requires forall i :: 0 <= i < |longer| ==> Reached(nodes, roots, longer[i]) && longer[i] in Universe(nodes, roots)
    requires forall b :: Edge(nodes, waiting[0], b) ==> b in visited + {waiting[0]} || b in longer
    ensures Kept(nodes, roots, visited + {waiting[0]}, longer)
  {
    var id, now := waiting[0], visited + {waiting[0]};
    forall x | x in waiting && x !in now ensures x in longer {
      OneLess(waiting, x);
      var k :| 0 <= k < |waiting[1..]| && waiting[1..][k] == x;
      assert longer[k] == x;
    }
    assert Reached(nodes, roots, id);
  }

  lemma Shrinks(all: set<Id>, visited: set<Id>, id: Id)
    requires id in all && id !in visited
    ensures |all - (visited + {id})| < |all - visited|
  {
    assert all - visited == (all - (visited + {id})) + {id};
  }

  /** The inner loop: the normal dependencies not visited yet go to the back of the queue. */
  method Extend(nodes: seq<Node>, roots: seq<Id>, id: Id, visited: set<Id>, waiting: seq<Id>) returns (queue: seq<Id>)
    requires Reached(nodes, roots, id)
    requires forall i :: 0 <= i < |waiting| ==>
             Reached(nodes, roots, waiting[i]) && waiting[i] in Universe(nodes, roots)
    ensures waiting <= queue
    ensures forall i :: 0 <= i < |queue| ==> Reached(nodes, roots, queue[i]) && queue[i] in Universe(nodes, roots)
    ensures forall b :: Edge(nodes, id, b) ==> b in visited || b in queue
  {
    queue := waiting;
    var node := FindNode(nodes, id);
    if node.None? {
      return;
    }
    var deps := node.value.deps;
    for k := 0 to |deps|
      invariant waiting <= queue
      invariant forall i :: 0 <= i < |queue| ==> Reached(nodes, roots, queue[i]) && queue[i] in Universe(nodes, roots)
      invariant forall j :: 0 <= j < k && IsNormal(deps[j]) ==> deps[j].pkg in visited || deps[j].pkg in queue
    {
      if IsNormal(deps[k]) && deps[k].pkg !in visited {
        assert Edge(nodes, id, deps[k].pkg);
        EdgeIsReached(nodes, roots, id, deps[k].pkg);
        EdgeInUniverse(nodes, roots, node.value, k);
        queue := queue + [deps[k].pkg];
      }
    }
  }

  // -------------------------------------------------------------------------------------------
  // The list
  // -------------------------------------------------------------------------------------------

  function LicenseOf(p: Package): string {
    match p.license
    case Some(spdx) => spdx
    case None =>
      match p.licenseFile
      case Some(file) => "see " + file
      case None => "UNKNOWN"
  }

  function AsThirdParty(p: Package): ThirdParty {
    ThirdParty(p.name, p.version, LicenseOf(p))
  }

  /** The derived order: by name, then version, then licence. */
  predicate DepLe(a: ThirdParty, b: ThirdParty) {
    if a.name != b.name then StrLe(a.name, b.name)
    else if a.version != b.version then StrLe(a.version, b.version)
    else StrLe(a.license, b.license)
  }

  lemma DepLeTotal(a: ThirdParty, b: ThirdParty)
    ensures DepLe(a, b) || DepLe(b, a)
  {
    StrLeTotal(a.name, b.name);
    StrLeTotal(a.version, b.version);
    StrLeTotal(a.license, b.license);
  }

  lemma DepLeTrans(a: ThirdParty, b: ThirdParty, c: ThirdParty)
    requires DepLe(a, b) && DepLe(b, c)
    ensures DepLe(a, c)
  {
    if a.name != b.name || b.name != c.name {
      StrLeTotal(a.name, b.name);
      if b.name != c.name && a.name != b.name { StrLeTrans(a.name, b.name, c.name); }
    } else if a.version != b.version || b.version != c.version {
      StrLeTotal(a.version, b.version);
      if b.version != c.version && a.version != b.version { StrLeTrans(a.version, b.version, c.version); }
    } else {
      StrLeTrans(a.license, b.license, c.license);
    }
  }

  predicate Ordered(ds: seq<ThirdParty>) {
    forall i, j :: 0 <= i < j < |ds| ==> DepLe(ds[i], ds[j])
  }

  predicate IsListed(m: Metadata, visited: set<Id>, p: Package) {
    p.id in visited && p.id !in m.members
  }

  function Listed(m: Metadata, visited: set<Id>, packages: seq<Package>): seq<ThirdParty> {
    if packages == [] then []
    else
      var last := packages[|packages| - 1];
      Listed(m, visited, packages[..|packages| - 1]) + if IsListed(m, visited, last) then [AsThirdParty(last)] else []
  }

  /** The third-party packages visited, in order. */
  method ThirdPartyPackages(m: Metadata, visited: set<Id>) returns (out: seq<ThirdParty>)
    ensures Ordered(out) && multiset(out) == multiset(Listed(m, visited, m.packages))
  {
    out := [];
    for i := 0 to |m.packages|
      invariant Ordered(out) && multiset(out) == multiset(Listed(m, visited, m.packages[..i]))
    {
      ListedStep(m, visited, m.packages, i);
      if IsListed(m, visited, m.packages[i]) {
        PutInOrderIsOrdered(out, AsThirdParty(m.packages[i]));
        out := PutInOrder(out, AsThirdParty(m.packages[i]));
      }
    }
    assert m.packages[..|m.packages|] == m.packages;
  }

  lemma {:induction false} ListedStep(m: Metadata, visited: set<Id>, packages: seq<Package>, i: nat)
    requires i < |packages|
    ensures multiset(Listed(m, visited, packages[..i + 1])) == multiset(Listed(m, visited, packages[..i]))
      + if IsListed(m, visited, packages[i]) then multiset{AsThirdParty(packages[i])} else multiset{}
  {
    assert packages[..i + 1][..i] == packages[..i];
  }

  /** `d` after the elements it does not precede. */
  function PutInOrder(ds: seq<ThirdParty>, d: ThirdParty): seq<ThirdParty> {
    if ds == [] then [d]
    else
      var last := ds[|ds| - 1];
      if DepLe(last, d) then ds + [d] else PutInOrder(ds[..|ds| - 1], d) + [last]
  }

  lemma {:induction false} PutInOrderIsOrdered(ds: seq<ThirdParty>, d: ThirdParty)
    requires Ordered(ds)
    ensures Ordered(PutInOrder(ds, d)) && multiset(PutInOrder(ds, d)) == multiset(ds) + multiset{d}
  {
    if ds != [] {
      var init, last := ds[..|ds| - 1], ds[|ds| - 1];
      assert ds == init + [last];
      if DepLe(last, d) {
        forall i | 0 <= i < |ds| ensures DepLe(ds[i], d) {
          if i < |ds| - 1 { DepLeTrans(ds[i], last, d); }
        }
      } else {
        DepLeTotal(last, d);
        PutInOrderIsOrdered(init, d);
        LastStaysLast(init, d, last);
      }
    }
  }

  lemma {:induction false} LastStaysLast(init: seq<ThirdParty>, d: ThirdParty, last: ThirdParty)
    requires Ordered(init + [last]) && DepLe(d, last)
    requires Ordered(PutInOrder(init, d)) && multiset(PutInOrder(init, d)) == multiset(init) + multiset{d}
    ensures Ordered(PutInOrder(init, d) + [last])
  {
    var r := PutInOrder(init, d);
    forall i | 0 <= i < |r| ensures DepLe(r[i], last) {
      assert r[i] in multiset(r);
      if r[i] != d {
        var k :| 0 <= k < |init| && init[k] == r[i];
        assert DepLe((init + [last])[k], (init + [last])[|init|]);
      }
    }
  }

  lemma {:induction false} ListedIff(m: Metadata, visited: set<Id>, packages: seq<Package>, d: ThirdParty)
    ensures d in Listed(m, visited, packages) <==>
            exists i :: 0 <= i < |packages| && IsListed(m, visited, packages[i]) && d == AsThirdParty(packages[i])
  {
    if packages != [] {
      var init := packages[..|packages| - 1];
      ListedIff(m, visited, init, d);
      assert forall i :: 0 <= i < |init| ==> init[i] == packages[i];
    }
  }

  // -------------------------------------------------------------------------------------------
  // The whole
  // -------------------------------------------------------------------------------------------

  /** The first member package of that name. */
  function FindRoot(m: Metadata, packages: seq<Package>, name: string): Option<Id> {
    if packages == [] then None
    else if packages[0].name == name && packages[0].id in m.members then Some(packages[0].id)
    else FindRoot(m, packages[1..], name)
  }

  /** A third-party package that a path of normal edges reaches from one of the two products. */
  ghost predicate Ships(m: Metadata, nodes: seq<Node>, roots: seq<Id>, d: ThirdParty) {
    exists i :: 0 <= i < |m.packages| && Reached(nodes, roots, m.packages[i].id)
                && m.packages[i].id !in m.members && d == AsThirdParty(m.packages[i])
  }

  /** Fails without a resolve graph or a product; otherwise lists in order exactly what ships. */
  method RuntimeDependencies(m: Metadata) returns (r: Result<seq<ThirdParty>, Failure>)
    ensures m.resolve.None? ==> r == Err(NoResolveGraph)
    ensures m.resolve.Some? ==>
              var app, clap := FindRoot(m, m.packages, ROOT_NAMES[0]), FindRoot(m, m.packages, ROOT_NAMES[1]);
              if app.None? then r == Err(NoMember(ROOT_NAMES[0]))
              else if clap.None? then r == Err(NoMember(ROOT_NAMES[1]))
              else r.Ok? && Ordered(r.value)
                   && forall d :: d in r.value <==> Ships(m, m.resolve.value, [app.value, clap.value], d)
  {
    if m.resolve.None? {
      return Err(NoResolveGraph);
    }
    var roots: seq<Id> := [];
    for i := 0 to 2
      invariant forall k :: 0 <= k < i ==> FindRoot(m, m.packages, ROOT_NAMES[k]).Some?
      invariant |roots| == i
      invariant forall k :: 0 <= k < i ==> roots[k] == FindRoot(m, m.packages, ROOT_NAMES[k]).value
    {
      var id := FindRoot(m, m.packages, ROOT_NAMES[i]);
      if id.None? {
        return Err(NoMember(ROOT_NAMES[i]));
      }
      roots := roots + [id.value];
    }
    assert roots == [roots[0], roots[1]];
    var visited := Traverse(m.resolve.value, roots);
    var out := ThirdPartyPackages(m, visited);
    forall d ensures d in out <==> Ships(m, m.resolve.value, roots, d) {
      ListedIff(m, visited, m.packages, d);
      assert d in multiset(out) <==> d in multiset(Listed(m, visited, m.packages));
    }
    r := Ok(out);
  }
}
