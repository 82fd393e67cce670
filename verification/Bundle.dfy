/** The staging trees of xtask/src/bundle.rs: what is planned, what a run leaves on disk, what the check says.
    A path is the sequence of its components. */
module Bundle {
  import opened Text

  datatype Platform = Windows | MacOs | Linux

  /** The file and directory names a layout uses, one constructor each, and every other name. */
  datatype Name =
    | ClapArtifact | AppArtifact | Contents | InfoPlist | PkgInfo | MacOsDir
    | ClapLibrary(of: Platform) | StandaloneExe | Standalone
    | Notices | LicenseMit | LicenseApache | Readme | Trademark
    | Other(name: string)

  type Path = seq<Name>

  datatype Source = Build(name: Name) | Repo(name: Name) | Generated(contents: string)

  datatype Entry = Entry(dest: Path, source: Source)

  datatype Layout = Layout(platform: Platform, entries: seq<Entry>)

  // -------------------------------------------------------------------------------------------
  // The plan
  // -------------------------------------------------------------------------------------------

  /** The generated texts: the two property lists and the two package types. */
  datatype Texts = Texts(pluginPlist: string, pluginPkgInfo: string, appPlist: string, appPkgInfo: string)

  const DOCUMENTS: seq<Name> := [Notices, LicenseMit, LicenseApache, Readme, Trademark]

  function StandaloneOf(p: Platform): Name {
    if p.Windows? then StandaloneExe else Standalone
  }

  function Artifacts(p: Platform, t: Texts): seq<Entry> {
    var library, standalone := ClapLibrary(p), StandaloneOf(p);
    if p.MacOs? then
      [
        Entry([ClapArtifact, Contents, InfoPlist], Generated(t.pluginPlist)),
        Entry([ClapArtifact, Contents, PkgInfo], Generated(t.pluginPkgInfo)),
        Entry([ClapArtifact, Contents, MacOsDir, library], Build(library)),
        Entry([AppArtifact, Contents, InfoPlist], Generated(t.appPlist)),
        Entry([AppArtifact, Contents, PkgInfo], Generated(t.appPkgInfo)),
        Entry([AppArtifact, Contents, MacOsDir, standalone], Build(standalone))
      ]
    else
      [Entry([ClapArtifact], Build(library)), Entry([standalone], Build(standalone))]
  }

  method Plan(p: Platform, t: Texts) returns (l: Layout)
    ensures l == PlanSpec(p, t)
  {
    var entries := Artifacts(p, t);
    for k := 0 to |DOCUMENTS|
      invariant entries == Artifacts(p, t) + DocumentEntries()[..k]
    {
      assert DocumentEntries()[..k + 1] == DocumentEntries()[..k] + [DocumentEntries()[k]];
      entries := entries + [Entry([DOCUMENTS[k]], Repo(DOCUMENTS[k]))];
    }
    assert DocumentEntries()[..|DOCUMENTS|] == DocumentEntries();
    l := Layout(p, entries);
  }

  function DocumentEntries(): (es: seq<Entry>)
    ensures |es| == |DOCUMENTS| && forall k :: 0 <= k < |es| ==> es[k] == Entry([DOCUMENTS[k]], Repo(DOCUMENTS[k]))
  {
    seq(|DOCUMENTS|, k requires 0 <= k < |DOCUMENTS| => Entry([DOCUMENTS[k]], Repo(DOCUMENTS[k])))
  }

  function PlanSpec(p: Platform, t: Texts): Layout {
    Layout(p, Artifacts(p, t) + DocumentEntries())
  }

  /** No destination is another's path or lies on the way to it. */
  predicate PrefixFree(es: seq<Entry>) {
    && (forall k :: 0 <= k < |es| ==> es[k].dest != [])
    && forall j, k :: 0 <= j < |es| && 0 <= k < |es| && j != k ==> !(es[j].dest <= es[k].dest)
  }

  // -------------------------------------------------------------------------------------------
  // The file system
  // -------------------------------------------------------------------------------------------

  datatype Node = Dir | File(contents: string)

  type Nodes = map<Path, Node>

  predicate IsDir(nodes: Nodes, p: Path) { p in nodes && nodes[p].Dir? }

  predicate IsFile(nodes: Nodes, p: Path) { p in nodes && nodes[p].File? }

  /** Everything stands in a directory. */
  ghost predicate IsTree(nodes: Nodes) {
    forall p: Path, q: Path :: p in nodes && Above(q, p) ==> IsDir(nodes, q)
  }

  predicate Above(q: Path, p: Path) { q < p }

  /** `remove_dir_all`. */
  function Remove(nodes: Nodes, root: Path): Nodes {
    map p | p in nodes && !(root <= p) :: nodes[p]
  }

  function Prefixes(p: Path): (s: set<Path>)
    ensures forall q :: q in s <==> q <= p
  {
    var s := set i | 0 <= i <= |p| :: p[..i];
    assert forall q :: q <= p ==> q == p[..|q|];
    s
  }

  /** `create_dir_all` finds no file on the way. */
  predicate CanCreate(nodes: Nodes, p: Path) {
    forall q :: q in Prefixes(p) ==> !IsFile(nodes, q)
  }

  function CreateDirs(nodes: Nodes, p: Path): Nodes {
    nodes + map q | q in Prefixes(p) && q !in nodes :: Dir
  }

  datatype Failure = CannotClear | CannotCreate(path: Path) | CannotCopy(from: Path, to: Path) | CannotWrite(path: Path)

  /** Where an entry's contents are copied from. */
  function SourcePath(repo: Path, build: Path, s: Source): Path
    requires !s.Generated?
  {
    match s
    case Build(name) => build + [name]
    case Repo(name) => repo + [name]
  }

  /** The sources are there and stay clear of the staging root. */
  predicate SourcesReady(nodes: Nodes, repo: Path, build: Path, root: Path, es: seq<Entry>) {
    forall k :: 0 <= k < |es| ==> SourceReady(nodes, repo, build, root, es[k])
  }

  predicate SourceReady(nodes: Nodes, repo: Path, build: Path, root: Path, e: Entry) {
    e.source.Generated? || (IsFile(nodes, SourcePath(repo, build, e.source))
                            && !(root <= SourcePath(repo, build, e.source)))
  }

  function ContentsOf(nodes: Nodes, repo: Path, build: Path, root: Path, e: Entry): string
    requires SourceReady(nodes, repo, build, root, e)
  {
    if e.source.Generated? then e.source.contents else nodes[SourcePath(repo, build, e.source)].contents
  }

  /** The first `n` entries staged below `root`, on top of what `base` holds: their files, the directories on
      the way to them, and nothing else. */
  ghost predicate Staged(base: Nodes, repo: Path, build: Path, root: Path, es: seq<Entry>, n: nat, nodes: Nodes)
    requires n <= |es| && SourcesReady(base, repo, build, root, es)
  {
    && (forall k :: 0 <= k < n ==> FileStaged(base, repo, build, root, es[k], nodes))
    && DirsStaged(root, es, n, nodes)
    && Keeps(base, nodes)
    && NothingElse(base, root, es, n, nodes)
  }

  ghost predicate DirsStaged(root: Path, es: seq<Entry>, n: nat, nodes: Nodes)
    requires n <= |es|
  {
    forall k, q :: 0 <= k < n && q < root + es[k].dest ==> IsDir(nodes, q)
  }

  ghost predicate Keeps(base: Nodes, nodes: Nodes) {
    forall p :: p in base ==> p in nodes && nodes[p] == base[p]
  }

  ghost predicate NothingElse(base: Nodes, root: Path, es: seq<Entry>, n: nat, nodes: Nodes)
    requires n <= |es|
  {
    forall p :: p in nodes ==> p in base || OnTheWay(root, es, n, p)
  }

  predicate FileStaged(base: Nodes, repo: Path, build: Path, root: Path, e: Entry, nodes: Nodes)
    requires SourceReady(base, repo, build, root, e)
  {
    var p := root + e.dest;
    IsFile(nodes, p) && nodes[p].contents == ContentsOf(base, repo, build, root, e)
  }

  /** The path of one of the first `n` destinations, or of a directory above it. */
  predicate OnTheWay(root: Path, es: seq<Entry>, n: nat, p: Path)
    requires n <= |es|
  {
    exists k :: 0 <= k < n && p <= root + es[k].dest
  }

  /** A staging root that can be cleared and made again: nothing on the way to it is a file. */
  ghost predicate Ready(nodes: Nodes, repo: Path, build: Path, root: Path, es: seq<Entry>) {
    IsTree(nodes) && CanCreate(nodes, root) && SourcesReady(nodes, repo, build, root, es) && PrefixFree(es)
  }

  // -------------------------------------------------------------------------------------------
  // Staging
  // -------------------------------------------------------------------------------------------

  lemma OnOneWay(root: Path, d: Path, q: Path)
    requires q <= root + d
    ensures q < root || root <= q
  {
    if |q| < |root| {
      assert q == (root + d)[..|q|] == root[..|q|];
    } else {
      assert q[..|root|] == (root + d)[..|q|][..|root|] == root;
    }
  }

  lemma DropRoot(root: Path, a: Path, b: Path)
    requires root + a <= root + b
    ensures a <= b
  {
    assert forall i :: 0 <= i < |a| ==> a[i] == (root + a)[|root| + i] == (root + b)[|root| + i] == b[i];
  }

  function Parent(p: Path): Path
    requires p != []
  {
    p[..|p| - 1]
  }

  /** What the loop keeps: `base` holds nothing below the root, and `n` entries are staged on it. */
  ghost predicate Midway(base: Nodes, repo: Path, build: Path, root: Path, es: seq<Entry>, n: nat, nodes: Nodes) {
    && n <= |es| && SourcesReady(base, repo, build, root, es) && PrefixFree(es) && CanCreate(base, root)
    && (forall p :: p in base ==> !(root <= p))
    && Staged(base, repo, build, root, es, n, nodes)
  }

  /** No file is on the way to the next destination, and no directory is in its place. */
  lemma RoomForNext(base: Nodes, repo: Path, build: Path, root: Path, es: seq<Entry>, n: nat, nodes: Nodes)
    requires Midway(base, repo, build, root, es, n, nodes) && n < |es|
    ensures CanCreate(nodes, Parent(root + es[n].dest)) && root + es[n].dest !in nodes
  {
    var d := es[n].dest;
    forall q | q <= Parent(root + d) ensures !IsFile(nodes, q) {
      assert q < root + d;
      NotFileOnTheWay(base, root, es, n, nodes, q);
    }
    if root + d in nodes {
      assert OnTheWay(root, es, n, root + d);
      var k :| 0 <= k < n && root + d <= root + es[k].dest;
      DropRoot(root, d, es[k].dest);
    }
  }

  lemma NotFileOnTheWay(base: Nodes, root: Path, es: seq<Entry>, n: nat, nodes: Nodes, q: Path)
    requires n < |es| && q < root + es[n].dest && PrefixFree(es) && CanCreate(base, root)
    requires (forall p :: p in base ==> !(root <= p)) && Keeps(base, nodes)
    requires NothingElse(base, root, es, n, nodes) && DirsStaged(root, es, n, nodes)
    ensures !IsFile(nodes, q)
  {
    if q in base {
      OnOneWay(root, es[n].dest, q);
      NotFileInBase(base, root, q);
    } else if q in nodes {
      DirIfStaged(root, es, n, nodes, q);
    }
  }

  lemma DirIfStaged(root: Path, es: seq<Entry>, n: nat, nodes: Nodes, q: Path)
    requires n < |es| && q < root + es[n].dest && PrefixFree(es)
    requires OnTheWay(root, es, n, q) && DirsStaged(root, es, n, nodes)
    ensures IsDir(nodes, q)
  {
    var k :| 0 <= k < n && q <= root + es[k].dest;
    NotTheFile(root, es, n, k, q);
    assert q < root + es[k].dest;
  }

  lemma NotFileInBase(base: Nodes, root: Path, q: Path)
    requires CanCreate(base, root) && q < root
    ensures !IsFile(base, q)
  {
    assert q in Prefixes(root);
  }

  lemma NotTheFile(root: Path, es: seq<Entry>, n: nat, k: nat, q: Path)
    requires PrefixFree(es) && k < n < |es| && q < root + es[n].dest
    ensures q != root + es[k].dest
  {
    if root + es[k].dest <= root + es[n].dest {
      DropRoot(root, es[k].dest, es[n].dest);
    }
  }

  /** The nodes with the directories for `e` made and its file written. */
  function WithFile(nodes: Nodes, p: Path, contents: string): Nodes
    requires p != []
  {
    CreateDirs(nodes, Parent(p))[p := File(contents)]
  }

  lemma StageOne(base: Nodes, repo: Path, build: Path, root: Path, es: seq<Entry>, n: nat, nodes: Nodes)
    requires Midway(base, repo, build, root, es, n, nodes) && n < |es|
    ensures Midway(base, repo, build, root, es, n + 1,
                   WithFile(nodes, root + es[n].dest, ContentsOf(base, repo, build, root, es[n])))
  {
    var p, c := root + es[n].dest, ContentsOf(base, repo, build, root, es[n]);
    var after := WithFile(nodes, p, c);
    RoomForNext(base, repo, build, root, es, n, nodes);
    forall k | 0 <= k < n + 1 ensures FileStaged(base, repo, build, root, es[k], after) {
      if k < n { assert FileStaged(base, repo, build, root, es[k], nodes); }
    }
    WithFileKeeps(nodes, p, c);
    DirsAfter(root, es, n, nodes, c);
    NothingElseAfter(base, root, es, n, nodes, c);
  }

  lemma WithFileKeeps(nodes: Nodes, p: Path, contents: string)
    requires p != [] && p !in nodes
    ensures Keeps(nodes, WithFile(nodes, p, contents))
  {
  }

  lemma DirsAfter(root: Path, es: seq<Entry>, n: nat, nodes: Nodes, contents: string)
    requires n < |es| && root + es[n].dest != [] && root + es[n].dest !in nodes
    requires DirsStaged(root, es, n, nodes) && CanCreate(nodes, Parent(root + es[n].dest))
    ensures DirsStaged(root, es, n + 1, WithFile(nodes, root + es[n].dest, contents))
  {
    var p := root + es[n].dest;
    var after := WithFile(nodes, p, contents);
    WithFileKeeps(nodes, p, contents);
    forall k, q | 0 <= k < n + 1 && q < root + es[k].dest ensures IsDir(after, q) {
      if k == n {
        assert q in Prefixes(Parent(p));
      } else {
        assert IsDir(nodes, q);
      }
    }
  }

  lemma NothingElseAfter(base: Nodes, root: Path, es: seq<Entry>, n: nat, nodes: Nodes, contents: string)
    requires n < |es| && root + es[n].dest != [] && NothingElse(base, root, es, n, nodes)
    ensures NothingElse(base, root, es, n + 1, WithFile(nodes, root + es[n].dest, contents))
  {
    var p := root + es[n].dest;
    forall q | q in WithFile(nodes, p, contents) ensures q in base || OnTheWay(root, es, n + 1, q) {
      if q in nodes && q !in base {
        assert OnTheWay(root, es, n, q);
        var k :| 0 <= k < n && q <= root + es[k].dest;
        assert k < n + 1;
      } else if q !in nodes {
        assert q <= root + es[n].dest;
      }
    }
  }

  lemma AtFirst(nodes: Nodes, repo: Path, build: Path, root: Path, es: seq<Entry>)
    requires Ready(nodes, repo, build, root, es)
    ensures Midway(Remove(nodes, root), repo, build, root, es, 0, Remove(nodes, root))
  {
    var base := Remove(nodes, root);
    forall k | 0 <= k < |es| ensures SourceReady(base, repo, build, root, es[k]) {
      assert SourceReady(nodes, repo, build, root, es[k]);
    }
  }

  class Disk {
    var nodes: Nodes

    method RemoveDirAll(p: Path) returns (ok: bool)
      modifies this
      ensures ok <==> IsDir(old(nodes), p)
      ensures nodes == if ok then Remove(old(nodes), p) else old(nodes)
    {
      ok := IsDir(nodes, p);
      if ok { nodes := Remove(nodes, p); }
    }

    method CreateDirAll(p: Path) returns (ok: bool)
      modifies this
      ensures ok <==> CanCreate(old(nodes), p)
      ensures nodes == if ok then CreateDirs(old(nodes), p) else old(nodes)
    {
      ok := CanCreate(nodes, p);
      if ok { nodes := CreateDirs(nodes, p); }
    }

    method Write(p: Path, contents: string) returns (ok: bool)
      modifies this
      ensures ok <==> p != [] && IsDir(old(nodes), Parent(p)) && !IsDir(old(nodes), p)
      ensures nodes == if ok then old(nodes)[p := File(contents)] else old(nodes)
    {
      ok := p != [] && IsDir(nodes, Parent(p)) && !IsDir(nodes, p);
      if ok { nodes := nodes[p := File(contents)]; }
    }

    method Copy(from: Path, to: Path) returns (ok: bool)
      modifies this
      ensures ok <==> IsFile(old(nodes), from) && to != [] && IsDir(old(nodes), Parent(to)) && !IsDir(old(nodes), to)
      ensures nodes == if ok then old(nodes)[to := old(nodes)[from]] else old(nodes)
    {
      ok := IsFile(nodes, from);
      if ok { ok := Write(to, nodes[from].contents); }
    }

    /** One turn of the loop. */
    method StageEntry(repo: Path, build: Path, root: Path, e: Entry) returns (failure: Option<Failure>)
      modifies this
      ensures var p, before := root + e.dest, old(nodes);
              e.dest != [] && CanCreate(before, Parent(p)) && p !in before
                && SourceReady(before, repo, build, root, e) ==>
                failure == None && nodes == WithFile(before, p, ContentsOf(before, repo, build, root, e))
    {
      var p := root + e.dest;
      if p != [] {
        var made := CreateDirAll(Parent(p));
        if !made {
          return Some(CannotCreate(Parent(p)));
        }
      }
      if e.source.Generated? {
        var written := Write(p, e.source.contents);
        return if written then None else Some(CannotWrite(p));
      }
      var from := SourcePath(repo, build, e.source);
      var copied := Copy(from, p);
      return if copied then None else Some(CannotCopy(from, p));
    }

    /** From a ready disk the run succeeds and leaves below the root the layout's files, the directories on the
        way to them and nothing else, and everything outside as it was. */
    method Materialise(repo: Path, build: Path, root: Path, layout: Layout) returns (r: Result<nat, Failure>)
      modifies this
      ensures Ready(old(nodes), repo, build, root, layout.entries) ==>
                && r == Ok(|layout.entries|)
                && Midway(Remove(old(nodes), root), repo, build, root, layout.entries, |layout.entries|, nodes)
    {
      ghost var before, base := nodes, Remove(nodes, root);
      ghost var ready := Ready(nodes, repo, build, root, layout.entries);
      if root in nodes {
        assert ready ==> IsDir(nodes, root) by {
          if ready { assert root in Prefixes(root); }
        }
        var cleared := RemoveDirAll(root);
        if !cleared {
          return Err(CannotClear);
        }
      } else if ready {
        NothingToRemove(nodes, root);
      }
      if ready { AtFirst(before, repo, build, root, layout.entries); }
      for k := 0 to |layout.entries|
        invariant ready ==> Midway(base, repo, build, root, layout.entries, k, nodes)
      {
        if ready {
          RoomForNext(base, repo, build, root, layout.entries, k, nodes);
          SourceIsKept(base, repo, build, root, layout.entries, k, nodes);
          StageOne(base, repo, build, root, layout.entries, k, nodes);
        }
        var failure := StageEntry(repo, build, root, layout.entries[k]);
        if failure.Some? {
          return Err(failure.value);
        }
      }
      r := Ok(|layout.entries|);
    }
  }

  lemma NothingToRemove(nodes: Nodes, root: Path)
    requires IsTree(nodes) && root !in nodes
    ensures Remove(nodes, root) == nodes
  {
    forall p | p in nodes ensures !(root <= p) {
      assert root <= p ==> root == p || Above(root, p);
    }
  }

  lemma SourceIsKept(base: Nodes, repo: Path, build: Path, root: Path, es: seq<Entry>, n: nat, nodes: Nodes)
    requires Midway(base, repo, build, root, es, n, nodes) && n < |es|
    ensures SourceReady(nodes, repo, build, root, es[n])
    ensures ContentsOf(nodes, repo, build, root, es[n]) == ContentsOf(base, repo, build, root, es[n])
  {
    assert SourceReady(base, repo, build, root, es[n]);
  }

  /** Below the root, the files left are exactly the layout's, and the directories those on the way to them. */
  lemma LeavesExactly(base: Nodes, repo: Path, build: Path, root: Path, es: seq<Entry>, nodes: Nodes, p: Path)
    requires Midway(base, repo, build, root, es, |es|, nodes) && root <= p
    ensures IsFile(nodes, p) <==> exists k :: 0 <= k < |es| && p == root + es[k].dest
    ensures IsDir(nodes, p) <==> exists k :: 0 <= k < |es| && Above(p, root + es[k].dest)
  {
    if k :| 0 <= k < |es| && p == root + es[k].dest {
      assert FileStaged(base, repo, build, root, es[k], nodes);
    }
    if k :| 0 <= k < |es| && Above(p, root + es[k].dest) {
      DirThere(root, es, nodes, k, p);
    }
    if p in nodes {
      SomethingThere(base, root, es, nodes, p);
    }
  }

  lemma DirThere(root: Path, es: seq<Entry>, nodes: Nodes, k: nat, p: Path)
    requires k < |es| && DirsStaged(root, es, |es|, nodes) && Above(p, root + es[k].dest)
    ensures IsDir(nodes, p)
  {
    assert p < root + es[k].dest;
  }

  lemma SomethingThere(base: Nodes, root: Path, es: seq<Entry>, nodes: Nodes, p: Path)
    requires NothingElse(base, root, es, |es|, nodes) && p in nodes && p !in base
    ensures exists k :: 0 <= k < |es| && (p == root + es[k].dest || Above(p, root + es[k].dest))
  {
    assert OnTheWay(root, es, |es|, p);
    var k :| 0 <= k < |es| && p <= root + es[k].dest;
    assert p == root + es[k].dest || Above(p, root + es[k].dest);
  }

  // -------------------------------------------------------------------------------------------
  // The plan's destinations
  // -------------------------------------------------------------------------------------------

  /** The place in the plan of the destination a path leads to. */
  function Place(p: Platform, d: Path): nat
    requires d != []
  {
    match d[0]
    case ClapArtifact => if |d| < 3 || !p.MacOs? then 0 else Inside(d[2])
    case AppArtifact => if |d| < 3 then 3 else 3 + Inside(d[2])
    case StandaloneExe => 1
    case Standalone => 1
    case Notices => AfterArtifacts(p)
    case LicenseMit => AfterArtifacts(p) + 1
    case LicenseApache => AfterArtifacts(p) + 2
    case Readme => AfterArtifacts(p) + 3
    case Trademark => AfterArtifacts(p) + 4
    case _ => 100
  }

  function Inside(n: Name): nat {
    match n
    case InfoPlist => 0
    case PkgInfo => 1
    case _ => 2
  }

  function AfterArtifacts(p: Platform): nat {
    if p.MacOs? then 6 else 2
  }

  lemma PlacesInOrder(p: Platform, t: Texts, k: nat)
    requires k < |PlanSpec(p, t).entries|
    ensures var d := PlanSpec(p, t).entries[k].dest;
            d != [] && Place(p, d) == k && (p.MacOs? && k < 6 ==> |d| >= 3) && (d[0] == AppArtifact ==> p.MacOs?)
  {
    var artifacts := Artifacts(p, t);
    if k < |artifacts| {
      assert PlanSpec(p, t).entries[k] == artifacts[k];
    } else {
      assert PlanSpec(p, t).entries[k] == DocumentEntries()[k - |artifacts|];
      assert DOCUMENTS[k - |artifacts|] in DOCUMENTS;
    }
  }

  /** No planned destination is the path prefix of another. */
  lemma PlanIsPrefixFree(p: Platform, t: Texts)
    ensures PrefixFree(PlanSpec(p, t).entries)
  {
    var es := PlanSpec(p, t).entries;
    forall j, k | 0 <= j < |es| && 0 <= k < |es| && j != k ensures es[j].dest != [] && !(es[j].dest <= es[k].dest) {
      PlacesInOrder(p, t, j);
      PlacesInOrder(p, t, k);
      var a, b := es[j].dest, es[k].dest;
      if a <= b {
        assert a[0] == b[0];
        SamePlace(p, a, b);
      }
    }
    forall k | 0 <= k < |es| ensures es[k].dest != [] {
      PlacesInOrder(p, t, k);
    }
  }

  lemma SamePlace(p: Platform, a: Path, b: Path)
    requires a != [] && a <= b
    requires p.MacOs? && (a[0] == ClapArtifact || a[0] == AppArtifact) ==> |a| >= 3
    requires a[0] == AppArtifact ==> p.MacOs?
    ensures Place(p, a) == Place(p, b)
  {
    assert a[0] == b[0];
    if |a| >= 3 { assert a[2] == b[2]; }
  }

  // -------------------------------------------------------------------------------------------
  // The check
  // -------------------------------------------------------------------------------------------

  datatype Violation =
    | ClapForm(isOther: bool)
    | AppForm(isOther: bool)
    | Missing(dest: Path, isDir: bool)
    | Differs(dest: Path)

  function CheckClapForm(nodes: Nodes, root: Path, p: Platform): seq<Violation> {
    var path := root + [ClapArtifact];
    if p.MacOs? then if IsDir(nodes, path) then [] else [ClapForm(IsFile(nodes, path))]
    else if IsFile(nodes, path) then [] else [ClapForm(IsDir(nodes, path))]
  }

  function CheckAppForm(nodes: Nodes, root: Path, p: Platform): seq<Violation> {
    var path := root + [AppArtifact];
    if !p.MacOs? then if IsDir(nodes, path) || IsFile(nodes, path) then [AppForm(true)] else []
    else if IsDir(nodes, path) then [] else [AppForm(IsFile(nodes, path))]
  }

  function CheckEntry(nodes: Nodes, root: Path, e: Entry): seq<Violation> {
    var path := root + e.dest;
    if !IsFile(nodes, path) then [Missing(e.dest, IsDir(nodes, path))]
    else if e.source.Generated? && nodes[path].contents != e.source.contents then [Differs(e.dest)]
    else []
  }

  function CheckEntries(nodes: Nodes, root: Path, es: seq<Entry>): seq<Violation> {
    if es == [] then [] else CheckEntries(nodes, root, es[..|es| - 1]) + CheckEntry(nodes, root, es[|es| - 1])
  }

  /** `None` when there is no tree to evaluate. */
  function CheckSpec(nodes: Nodes, root: Path, l: Layout): Option<seq<Violation>> {
    if !IsDir(nodes, root) then None
    else Some(CheckClapForm(nodes, root, l.platform) + CheckAppForm(nodes, root, l.platform)
              + CheckEntries(nodes, root, l.entries))
  }

  method Check(nodes: Nodes, root: Path, l: Layout) returns (r: Option<seq<Violation>>)
    ensures r == CheckSpec(nodes, root, l)
  {
    if !IsDir(nodes, root) {
      return None;
    }
    var forms := CheckClapForm(nodes, root, l.platform) + CheckAppForm(nodes, root, l.platform);
    var violations := forms;
    for k := 0 to |l.entries|
      invariant violations == forms + CheckEntries(nodes, root, l.entries[..k])
    {
      assert l.entries[..k + 1][..k] == l.entries[..k];
      violations := violations + CheckEntry(nodes, root, l.entries[k]);
    }
    assert l.entries[..|l.entries|] == l.entries;
    r := Some(violations);
  }

  /** The entry's file is there, and says what is generated where it is generated. */
  predicate Holds(nodes: Nodes, root: Path, e: Entry) {
    IsFile(nodes, root + e.dest) && (e.source.Generated? ==> nodes[root + e.dest].contents == e.source.contents)
  }

  lemma EntryHolds(nodes: Nodes, root: Path, e: Entry)
    ensures CheckEntry(nodes, root, e) == [] <==> Holds(nodes, root, e)
  {
  }

  predicate AllHold(nodes: Nodes, root: Path, es: seq<Entry>) {
    forall k :: 0 <= k < |es| ==> Holds(nodes, root, es[k])
  }

  lemma OneMoreHolds(nodes: Nodes, root: Path, es: seq<Entry>)
    requires es != []
    ensures AllHold(nodes, root, es) <==> AllHold(nodes, root, es[..|es| - 1]) && Holds(nodes, root, es[|es| - 1])
  {
    var init, last := es[..|es| - 1], es[|es| - 1];
    assert es == init + [last];
    if AllHold(nodes, root, init) && Holds(nodes, root, last) {
      forall k | 0 <= k < |es| ensures Holds(nodes, root, es[k]) {
        if k < |init| { assert Holds(nodes, root, init[k]); }
      }
    }
    if AllHold(nodes, root, es) {
      forall k | 0 <= k < |init| ensures Holds(nodes, root, init[k]) {
        assert Holds(nodes, root, es[k]);
      }
    }
  }

  lemma {:induction false} EntriesHold(nodes: Nodes, root: Path, es: seq<Entry>)
    ensures CheckEntries(nodes, root, es) == [] <==> AllHold(nodes, root, es)
  {
    if es != [] {
      EntriesHold(nodes, root, es[..|es| - 1]);
      EntryHolds(nodes, root, es[|es| - 1]);
      OneMoreHolds(nodes, root, es);
    }
  }

  /** The loader's form of the two artifacts. */
  predicate FormsOk(nodes: Nodes, root: Path, p: Platform) {
    if p.MacOs? then IsDir(nodes, root + [ClapArtifact]) && IsDir(nodes, root + [AppArtifact])
    else IsFile(nodes, root + [ClapArtifact]) && root + [AppArtifact] !in nodes
  }

  lemma CheckIff(nodes: Nodes, root: Path, l: Layout)
    ensures CheckSpec(nodes, root, l) == Some([]) <==>
            IsDir(nodes, root) && FormsOk(nodes, root, l.platform) && AllHold(nodes, root, l.entries)
  {
    EntriesHold(nodes, root, l.entries);
    NoneOfThree(CheckClapForm(nodes, root, l.platform), CheckAppForm(nodes, root, l.platform),
                CheckEntries(nodes, root, l.entries));
  }

  lemma NoneOfThree(a: seq<Violation>, b: seq<Violation>, c: seq<Violation>)
    ensures a + b + c == [] <==> a == [] && b == [] && c == []
  {
  }

  // -------------------------------------------------------------------------------------------
  // What was staged checks
  // -------------------------------------------------------------------------------------------

  lemma StagedDir(base: Nodes, repo: Path, build: Path, root: Path, es: seq<Entry>, nodes: Nodes, q: Path, k: nat)
    requires Midway(base, repo, build, root, es, |es|, nodes) && k < |es| && q < es[k].dest
    ensures IsDir(nodes, root + q)
  {
    assert root + q < root + es[k].dest;
  }

  lemma NoAppElsewhere(base: Nodes, repo: Path, build: Path, root: Path, p: Platform, t: Texts, nodes: Nodes)
    requires Midway(base, repo, build, root, PlanSpec(p, t).entries, |PlanSpec(p, t).entries|, nodes) && !p.MacOs?
    ensures root + [AppArtifact] !in nodes
  {
    var es := PlanSpec(p, t).entries;
    var app := root + [AppArtifact];
    if app in nodes {
      assert OnTheWay(root, es, |es|, app);
      var k :| 0 <= k < |es| && app <= root + es[k].dest;
      DropRoot(root, [AppArtifact], es[k].dest);
      PlacesInOrder(p, t, k);
    }
  }

  lemma FirstEntries(p: Platform, t: Texts)
    ensures var es := PlanSpec(p, t).entries;
            if p.MacOs? then [ClapArtifact] < es[0].dest && |es| > 3 && [AppArtifact] < es[3].dest
            else es[0].dest == [ClapArtifact]
  {
    assert PlanSpec(p, t).entries[0] == Artifacts(p, t)[0];
    if p.MacOs? { assert PlanSpec(p, t).entries[3] == Artifacts(p, t)[3]; }
  }

  lemma FormsAfter(base: Nodes, repo: Path, build: Path, root: Path, p: Platform, t: Texts, nodes: Nodes)
    requires Midway(base, repo, build, root, PlanSpec(p, t).entries, |PlanSpec(p, t).entries|, nodes)
    requires AllHold(nodes, root, PlanSpec(p, t).entries)
    ensures FormsOk(nodes, root, p)
  {
    var es := PlanSpec(p, t).entries;
    FirstEntries(p, t);
    if p.MacOs? {
      StagedDir(base, repo, build, root, es, nodes, [ClapArtifact], 0);
      StagedDir(base, repo, build, root, es, nodes, [AppArtifact], 3);
    } else {
      assert Holds(nodes, root, es[0]);
      NoAppElsewhere(base, repo, build, root, p, t, nodes);
    }
  }

  lemma AllHoldAfter(base: Nodes, repo: Path, build: Path, root: Path, es: seq<Entry>, nodes: Nodes)
    requires Midway(base, repo, build, root, es, |es|, nodes)
    ensures AllHold(nodes, root, es)
  {
    forall k | 0 <= k < |es| ensures Holds(nodes, root, es[k]) {
      assert FileStaged(base, repo, build, root, es[k], nodes);
    }
  }

  /** A tree staged by the plan for any platform passes the check. */
  lemma StagedIsClean(base: Nodes, repo: Path, build: Path, root: Path, p: Platform, t: Texts, nodes: Nodes)
    requires Midway(base, repo, build, root, PlanSpec(p, t).entries, |PlanSpec(p, t).entries|, nodes)
    ensures CheckSpec(nodes, root, PlanSpec(p, t)) == Some([])
  {
    var es := PlanSpec(p, t).entries;
    AllHoldAfter(base, repo, build, root, es, nodes);
    FormsAfter(base, repo, build, root, p, t, nodes);
    RootAfter(base, repo, build, root, es, nodes);
    CheckIff(nodes, root, PlanSpec(p, t));
  }

  lemma RootAfter(base: Nodes, repo: Path, build: Path, root: Path, es: seq<Entry>, nodes: Nodes)
    requires es != [] && Midway(base, repo, build, root, es, |es|, nodes)
    ensures IsDir(nodes, root)
  {
    assert root + [] == root && [] < es[0].dest;
    StagedDir(base, repo, build, root, es, nodes, [], 0);
  }

  // -------------------------------------------------------------------------------------------
  // What is shipped
  // -------------------------------------------------------------------------------------------

  /** Where the plug-in's library goes: on macOS inside a bundle, elsewhere it is the artifact itself. */
  function PluginPath(p: Platform): Path {
    match p
    case MacOs => [ClapArtifact, Contents, MacOsDir, ClapLibrary(MacOs)]
    case _ => [ClapArtifact]
  }

  /** Where the application goes, and what it is called where it is built. */
  function ApplicationPath(p: Platform): Path {
    match p
    case Windows => [StandaloneExe]
    case MacOs => [AppArtifact, Contents, MacOsDir, Standalone]
    case Linux => [Standalone]
  }

  predicate IsDocument(n: Name) {
    n.Notices? || n.LicenseMit? || n.LicenseApache? || n.Readme? || n.Trademark?
  }

  /** The generated file of a macOS bundle at `d`. */
  function GeneratedAt(d: Path, t: Texts): Option<string> {
    if d == [ClapArtifact, Contents, InfoPlist] then Some(t.pluginPlist)
    else if d == [ClapArtifact, Contents, PkgInfo] then Some(t.pluginPkgInfo)
    else if d == [AppArtifact, Contents, InfoPlist] then Some(t.appPlist)
    else if d == [AppArtifact, Contents, PkgInfo] then Some(t.appPkgInfo)
    else None
  }

  /** What a file of the distribution at `d` must hold, given what was built and what the repository holds. */
  function Shipped(nodes: Nodes, repo: Path, build: Path, p: Platform, t: Texts, d: Path): Option<string> {
    if d == PluginPath(p) then TextOf(nodes, build + [ClapLibrary(p)])
    else if d == ApplicationPath(p) then TextOf(nodes, build + [ApplicationPath(p)[|ApplicationPath(p)| - 1]])
    else if |d| == 1 && IsDocument(d[0]) then TextOf(nodes, repo + d)
    else if p.MacOs? then GeneratedAt(d, t)
    else None
  }

  function TextOf(nodes: Nodes, p: Path): Option<string> {
    if IsFile(nodes, p) then Some(nodes[p].contents) else None
  }

  predicate Clear(nodes: Nodes, root: Path, p: Path) { IsFile(nodes, p) && !(root <= p) }

  /** The build's products and the repository's documents are there, outside a staging root that can be made. */
  ghost predicate Supplied(nodes: Nodes, repo: Path, build: Path, root: Path, p: Platform) {
    && IsTree(nodes) && CanCreate(nodes, root)
    && Clear(nodes, root, build + [ClapLibrary(p)])
    && Clear(nodes, root, build + [if p.Windows? then StandaloneExe else Standalone])
    && forall n :: IsDocument(n) ==> Clear(nodes, root, repo + [n])
  }

  /** Below the root stand exactly the files to ship, each with its own contents; outside nothing changed. */
  ghost predicate Ships(nodes: Nodes, repo: Path, build: Path, root: Path, p: Platform, t: Texts, after: Nodes) {
    && (forall d :: TextOf(after, root + d) == Shipped(nodes, repo, build, p, t, d))
    && forall q :: q in nodes && !(root <= q) ==> q in after && after[q] == nodes[q]
  }

  /** What an entry of the plan puts at its destination is what is to be shipped there. */
  lemma EntryShips(nodes: Nodes, repo: Path, build: Path, root: Path, p: Platform, t: Texts, k: nat)
    requires Supplied(nodes, repo, build, root, p) && k < |PlanSpec(p, t).entries|
    ensures var e := PlanSpec(p, t).entries[k];
            && SourceReady(nodes, repo, build, root, e)
            && Shipped(nodes, repo, build, p, t, e.dest) == Some(ContentsOf(nodes, repo, build, root, e))
  {
    var artifacts := Artifacts(p, t);
    if k < |artifacts| {
      assert PlanSpec(p, t).entries[k] == artifacts[k];
      ArtifactShips(nodes, repo, build, root, p, t, k);
    } else {
      assert PlanSpec(p, t).entries[k] == DocumentEntries()[k - |artifacts|];
      assert IsDocument(DOCUMENTS[k - |artifacts|]);
    }
  }

  lemma ArtifactShips(nodes: Nodes, repo: Path, build: Path, root: Path, p: Platform, t: Texts, k: nat)
    requires Supplied(nodes, repo, build, root, p) && k < |Artifacts(p, t)|
    ensures var e := Artifacts(p, t)[k];
            && SourceReady(nodes, repo, build, root, e)
            && Shipped(nodes, repo, build, p, t, e.dest) == Some(ContentsOf(nodes, repo, build, root, e))
  {
  }

  /** Whatever is to be shipped is the destination of some entry of the plan. */
  lemma ShippedIsPlanned(nodes: Nodes, repo: Path, build: Path, p: Platform, t: Texts, d: Path) returns (k: nat)
    requires Shipped(nodes, repo, build, p, t, d).Some?
    ensures k < |PlanSpec(p, t).entries| && PlanSpec(p, t).entries[k].dest == d
  {
    if d == PluginPath(p) {
      k := if p.MacOs? then 2 else 0;
    } else if d == ApplicationPath(p) {
      k := if p.MacOs? then 5 else 1;
    } else if |d| == 1 && IsDocument(d[0]) {
      k := DocumentPlanned(p, t, d);
      return;
    } else {
      k := (if d[0] == ClapArtifact then 0 else 3) + if d[2] == InfoPlist then 0 else 1;
    }
    assert PlanSpec(p, t).entries[k] == Artifacts(p, t)[k];
  }

  lemma DocumentPlanned(p: Platform, t: Texts, d: Path) returns (k: nat)
    requires |d| == 1 && IsDocument(d[0])
    ensures k < |PlanSpec(p, t).entries| && PlanSpec(p, t).entries[k].dest == d
  {
    var n := |Artifacts(p, t)|;
    k := n + match d[0] case Notices => 0 case LicenseMit => 1 case LicenseApache => 2 case Readme => 3 case _ => 4;
    assert PlanSpec(p, t).entries[k] == DocumentEntries()[k - n];
    assert d == [d[0]];
  }

  lemma SuppliedIsReady(nodes: Nodes, repo: Path, build: Path, root: Path, p: Platform, t: Texts)
    requires Supplied(nodes, repo, build, root, p)
    ensures Ready(nodes, repo, build, root, PlanSpec(p, t).entries)
  {
    var es := PlanSpec(p, t).entries;
    forall k | 0 <= k < |es| ensures SourceReady(nodes, repo, build, root, es[k]) {
      EntryShips(nodes, repo, build, root, p, t, k);
    }
    PlanIsPrefixFree(p, t);
  }

  lemma StagedShips(nodes: Nodes, repo: Path, build: Path, root: Path, p: Platform, t: Texts, after: Nodes)
    requires Supplied(nodes, repo, build, root, p)
    requires var es := PlanSpec(p, t).entries; Midway(Remove(nodes, root), repo, build, root, es, |es|, after)
    ensures Ships(nodes, repo, build, root, p, t, after)
  {
    forall d ensures TextOf(after, root + d) == Shipped(nodes, repo, build, p, t, d) {
      ShipsAt(nodes, repo, build, root, p, t, after, d);
    }
  }

  lemma ShipsAt(nodes: Nodes, repo: Path, build: Path, root: Path, p: Platform, t: Texts, after: Nodes, d: Path)
    requires Supplied(nodes, repo, build, root, p)
    requires var es := PlanSpec(p, t).entries; Midway(Remove(nodes, root), repo, build, root, es, |es|, after)
    ensures TextOf(after, root + d) == Shipped(nodes, repo, build, p, t, d)
  {
    var es, base := PlanSpec(p, t).entries, Remove(nodes, root);
    LeavesExactly(base, repo, build, root, es, after, root + d);
    if Shipped(nodes, repo, build, p, t, d).Some? {
      var k := ShippedIsPlanned(nodes, repo, build, p, t, d);
      EntryStands(nodes, repo, build, root, p, t, after, k);
    } else {
      forall k | 0 <= k < |es| ensures root + d != root + es[k].dest {
        EntryStands(nodes, repo, build, root, p, t, after, k);
        SameBelow(root, d, es[k].dest);
      }
    }
  }

  lemma SameBelow(root: Path, a: Path, b: Path)
    ensures root + a == root + b ==> a == b
  {
    if root + a == root + b {
      DropRoot(root, a, b);
      DropRoot(root, b, a);
    }
  }

  lemma EntryStands(nodes: Nodes, repo: Path, build: Path, root: Path, p: Platform, t: Texts, after: Nodes, k: nat)
    requires Supplied(nodes, repo, build, root, p) && k < |PlanSpec(p, t).entries|
    requires var es := PlanSpec(p, t).entries; Midway(Remove(nodes, root), repo, build, root, es, |es|, after)
    ensures var d := PlanSpec(p, t).entries[k].dest;
            Shipped(nodes, repo, build, p, t, d).Some?
              && TextOf(after, root + d) == Shipped(nodes, repo, build, p, t, d)
  {
    var e, base := PlanSpec(p, t).entries[k], Remove(nodes, root);
    EntryShips(nodes, repo, build, root, p, t, k);
    assert FileStaged(base, repo, build, root, e, after);
  }

  /** Produce, then assert: where everything is supplied, the default run finds nothing wrong and leaves the
      distribution. */
  method Bundle(disk: Disk, repo: Path, build: Path, root: Path, p: Platform, t: Texts)
    returns (r: Result<Option<seq<Violation>>, Failure>)
    modifies disk
    ensures Ready(old(disk.nodes), repo, build, root, PlanSpec(p, t).entries) ==> r == Ok(Some([]))
    ensures Supplied(old(disk.nodes), repo, build, root, p) ==>
              r == Ok(Some([])) && Ships(old(disk.nodes), repo, build, root, p, t, disk.nodes)
  {
    ghost var before := disk.nodes;
    ghost var supplied := Supplied(before, repo, build, root, p);
    if supplied { SuppliedIsReady(before, repo, build, root, p, t); }
    var layout := Plan(p, t);
    ghost var ready := Ready(disk.nodes, repo, build, root, layout.entries);
    ghost var base := Remove(disk.nodes, root);
    var staged := disk.Materialise(repo, build, root, layout);
    if staged.Err? {
      return Err(staged.error);
    }
    if ready {
      StagedIsClean(base, repo, build, root, p, t, disk.nodes);
      if supplied { StagedShips(before, repo, build, root, p, t, disk.nodes); }
    }
    var verdict := Check(disk.nodes, root, layout);
    r := Ok(verdict);
  }

  /** A clean tree stays clean whatever is added to it, unless an application bundle appears off macOS. */
  lemma AdditionsStayClean(nodes: Nodes, more: Nodes, root: Path, l: Layout)
    requires CheckSpec(nodes, root, l) == Some([]) && Keeps(nodes, more)
    ensures CheckSpec(more, root, l) == Some([]) <==> l.platform.MacOs? || root + [AppArtifact] !in more
  {
    CheckIff(nodes, root, l);
    CheckIff(more, root, l);
    forall k | 0 <= k < |l.entries| ensures Holds(more, root, l.entries[k]) {
      assert Holds(nodes, root, l.entries[k]);
    }
  }
}
