/** What each finding of the staging check of xtask/src/bundle.rs says about the tree. */
module BundleFindings {
  import opened Bundle

  /** The tree has something of another form than the loader's at that name, or nothing. */
  predicate FormIs(nodes: Nodes, path: Path, wanted: bool, other: bool) {
    && (wanted ==> !IsDir(nodes, path) && (other <==> IsFile(nodes, path)))
    && (!wanted ==> !IsFile(nodes, path) && (other <==> IsDir(nodes, path)))
  }

  /** What makes a finding on one entry true. */
  predicate OnEntry(nodes: Nodes, root: Path, e: Entry, v: Violation) {
    match v
    case Missing(dest, isDir) =>
      dest == e.dest && !IsFile(nodes, root + dest) && (isDir <==> IsDir(nodes, root + dest))
    case Differs(dest) =>
      && dest == e.dest && IsFile(nodes, root + dest)
      && e.source.Generated? && nodes[root + dest].contents != e.source.contents
    case _ => false
  }

  /** What makes a finding true: the plug-in a directory on macOS only and a file elsewhere; the application
      bundle a directory on macOS and nowhere else anything at all; the file of an entry. */
  ghost predicate IsTrue(nodes: Nodes, root: Path, l: Layout, v: Violation) {
    match v
    case ClapForm(other) => FormIs(nodes, root + [ClapArtifact], l.platform.MacOs?, other)
    case AppForm(other) =>
      if l.platform.MacOs? then FormIs(nodes, root + [AppArtifact], true, other)
      else other && root + [AppArtifact] in nodes
    case _ => exists k :: 0 <= k < |l.entries| && OnEntry(nodes, root, l.entries[k], v)
  }

  lemma EntryIs(nodes: Nodes, root: Path, e: Entry, v: Violation)
    ensures v in CheckEntry(nodes, root, e) <==> OnEntry(nodes, root, e, v)
  {
  }

  lemma {:induction false} EntriesAre(nodes: Nodes, root: Path, es: seq<Entry>, v: Violation)
    ensures v in CheckEntries(nodes, root, es) <==> exists k :: 0 <= k < |es| && OnEntry(nodes, root, es[k], v)
  {
    if es != [] {
      var init := es[..|es| - 1];
      EntriesAre(nodes, root, init, v);
      EntryIs(nodes, root, es[|es| - 1], v);
      assert forall k :: 0 <= k < |init| ==> init[k] == es[k];
    }
  }

  /** A check of a tree that is there reports exactly the findings that are true of it. */
  lemma FindingIff(nodes: Nodes, root: Path, l: Layout, v: Violation)
    requires IsDir(nodes, root)
    ensures CheckSpec(nodes, root, l).Some?
    ensures v in CheckSpec(nodes, root, l).value <==> IsTrue(nodes, root, l, v)
  {
    EntriesAre(nodes, root, l.entries, v);
    FormsAre(nodes, root, l, v);
    var a, b := CheckClapForm(nodes, root, l.platform), CheckAppForm(nodes, root, l.platform);
    InThree(a, b, CheckEntries(nodes, root, l.entries), v);
  }

  lemma FormsAre(nodes: Nodes, root: Path, l: Layout, v: Violation)
    ensures v in CheckClapForm(nodes, root, l.platform) <==> v.ClapForm? && IsTrue(nodes, root, l, v)
    ensures v in CheckAppForm(nodes, root, l.platform) <==> v.AppForm? && IsTrue(nodes, root, l, v)
  {
  }

  lemma InThree(a: seq<Violation>, b: seq<Violation>, c: seq<Violation>, v: Violation)
    ensures v in a + b + c <==> v in a || v in b || v in c
  {
  }
}
