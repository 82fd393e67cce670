/** What it takes for a package to be listed by xtask/src/cargo_meta.rs, and what its line says. */
module Dependencies {
  import opened Sorting
  import opened CargoMeta

  /** The first node of that identifier. */
  predicate IsNode(nodes: seq<Node>, id: Id, i: nat) {
    i < |nodes| && nodes[i].id == id && forall j :: 0 <= j < i ==> nodes[j].id != id
  }

  /** A dependency that is linked into what is built: of no kind at all, or normal among others. */
  predicate IsLinked(d: Dep) {
    |d.kinds| > 0 ==> exists j :: 0 <= j < |d.kinds| && d.kinds[j] == Normal
  }

  ghost predicate Needs(nodes: seq<Node>, a: Id, b: Id) {
    exists i: nat, k :: IsNode(nodes, a, i) && 0 <= k < |nodes[i].deps| && IsLinked(nodes[i].deps[k])
                        && nodes[i].deps[k].pkg == b
  }

  lemma {:induction false} NodeFound(nodes: seq<Node>, id: Id) returns (i: nat)
    ensures FindNode(nodes, id).None? ==> forall j :: 0 <= j < |nodes| ==> nodes[j].id != id
    ensures FindNode(nodes, id).Some? ==> IsNode(nodes, id, i) && FindNode(nodes, id).value == nodes[i]
  {
    i := 0;
    if nodes != [] && nodes[0].id != id {
      var j := NodeFound(nodes[1..], id);
      i := j + 1;
      assert forall j :: 0 < j < |nodes| ==> nodes[j] == nodes[1..][j - 1];
    }
  }

  lemma LinkedIff(d: Dep)
    ensures IsNormal(d) <==> IsLinked(d)
  {
  }

  lemma EdgeIff(nodes: seq<Node>, a: Id, b: Id)
    ensures Edge(nodes, a, b) <==> Needs(nodes, a, b)
  {
    var n := NodeFound(nodes, a);
    if Edge(nodes, a, b) {
      var k :| 0 <= k < |nodes[n].deps| && IsNormal(nodes[n].deps[k]) && nodes[n].deps[k].pkg == b;
      LinkedIff(nodes[n].deps[k]);
    }
    if i: nat, k :| IsNode(nodes, a, i) && 0 <= k < |nodes[i].deps| && IsLinked(nodes[i].deps[k])
                    && nodes[i].deps[k].pkg == b {
      assert i == n;
      LinkedIff(nodes[n].deps[k]);
    }
  }

  /** Each package needs the next. */
  ghost predicate IsChain(nodes: seq<Node>, path: seq<Id>) {
    path != [] && forall i :: 0 < i < |path| ==> Needs(nodes, path[i - 1], path[i])
  }

  lemma PathIff(nodes: seq<Node>, roots: seq<Id>, path: seq<Id>)
    ensures IsPath(nodes, roots, path) <==> IsChain(nodes, path) && path[0] in roots
  {
    forall i | 0 < i < |path| ensures Edge(nodes, path[i - 1], path[i]) <==> Needs(nodes, path[i - 1], path[i]) {
      EdgeIff(nodes, path[i - 1], path[i]);
    }
    if IsPath(nodes, roots, path) {
      forall i | 0 < i < |path| ensures Needs(nodes, path[i - 1], path[i]) {
        assert Edge(nodes, path[i - 1], path[i - 1 + 1]);
      }
    }
    if IsChain(nodes, path) {
      forall i | 0 <= i < |path| - 1 ensures Edge(nodes, path[i], path[i + 1]) {
        assert Needs(nodes, path[i + 1 - 1], path[i + 1]);
      }
    }
  }

  /** The package's own name and version, and its licence: the one it states, else where it says it is, else
      that it is not known. */
  predicate Attributes(d: ThirdParty, p: Package) {
    && d.name == p.name && d.version == p.version
    && (p.license.Some? ==> d.license == p.license.value)
    && (p.license.None? && p.licenseFile.Some? ==> d.license == "see " + p.licenseFile.value)
    && (p.license.None? && p.licenseFile.None? ==> d.license == "UNKNOWN")
  }

  ghost predicate IsShipped(m: Metadata, nodes: seq<Node>, roots: seq<Id>, p: Package, path: seq<Id>) {
    IsChain(nodes, path) && path[0] in roots && path[|path| - 1] == p.id && p.id !in m.members
  }

  ghost predicate IsAttributed(m: Metadata, nodes: seq<Node>, roots: seq<Id>, d: ThirdParty) {
    exists i, path :: 0 <= i < |m.packages| && IsShipped(m, nodes, roots, m.packages[i], path)
                      && Attributes(d, m.packages[i])
  }

  /** A line ships exactly when it attributes a package that is no member and that a chain of linked
      dependencies leads to from a root. */
  lemma ShipsIff(m: Metadata, nodes: seq<Node>, roots: seq<Id>, d: ThirdParty)
    ensures Ships(m, nodes, roots, d) <==> IsAttributed(m, nodes, roots, d)
  {
    if Ships(m, nodes, roots, d) {
      var i :| 0 <= i < |m.packages| && Reached(nodes, roots, m.packages[i].id)
               && m.packages[i].id !in m.members && d == AsThirdParty(m.packages[i]);
      var path: seq<Id> :| IsPath(nodes, roots, path) && path[|path| - 1] == m.packages[i].id;
      PathIff(nodes, roots, path);
      assert IsShipped(m, nodes, roots, m.packages[i], path);
    }
    if IsAttributed(m, nodes, roots, d) {
      var i, path :| 0 <= i < |m.packages| && IsShipped(m, nodes, roots, m.packages[i], path)
                     && Attributes(d, m.packages[i]);
      PathIff(nodes, roots, path);
    }
  }

  /** The root of a product is the first package of its name that is a member. */
  lemma {:induction false} RootIs(m: Metadata, packages: seq<Package>, name: string) returns (i: nat)
    ensures FindRoot(m, packages, name).None? ==> forall k :: 0 <= k < |packages| ==> !IsRoot(m, packages[k], name)
    ensures FindRoot(m, packages, name).Some? ==>
              && i < |packages| && IsRoot(m, packages[i], name) && FindRoot(m, packages, name).value == packages[i].id
              && forall k :: 0 <= k < i ==> !IsRoot(m, packages[k], name)
  {
    i := 0;
    if packages != [] && !IsRoot(m, packages[0], name) {
      var j := RootIs(m, packages[1..], name);
      i := j + 1;
      assert forall k :: 0 < k < |packages| ==> packages[k] == packages[1..][k - 1];
    }
  }

  predicate IsRoot(m: Metadata, p: Package, name: string) { p.name == name && p.id in m.members }

  /** The lines are ordered by name; of one name by version; of both by licence. */
  lemma OrderIs(ds: seq<ThirdParty>, i: nat, j: nat)
    requires Ordered(ds) && i < j < |ds|
    ensures StrLe(ds[i].name, ds[j].name)
    ensures ds[i].name == ds[j].name ==> StrLe(ds[i].version, ds[j].version)
    ensures ds[i].name == ds[j].name && ds[i].version == ds[j].version ==> StrLe(ds[i].license, ds[j].license)
  {
    assert DepLe(ds[i], ds[j]);
    StrLeRefl(ds[i].name);
    StrLeRefl(ds[i].version);
  }
}
