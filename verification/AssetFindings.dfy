/** What each finding of the asset gate of xtask/src/assets.rs says about the tree and the manifest. */
module AssetFindings {
  import opened Text
  import opened Assets
  import opened AssetCheck
  import opened AssetTheorems

  // -------------------------------------------------------------------------------------------
  // Names
  // -------------------------------------------------------------------------------------------

  /** A file's name is what stands behind its last slash, or all of it without one. */
  lemma {:induction false} FileNameIff(path: string, name: string)
    ensures FileName(path) == name <==> '/' !in name && (path == name || EndsWith(path, "/" + name))
    decreases |path|
  {
    if path != "" && path[|path| - 1] != '/' && name != "" {
      var p, n := path[..|path| - 1], name[..|name| - 1];
      FileNameIff(p, n);
      assert path == p + [path[|path| - 1]] && name == n + [name[|name| - 1]];
      EndsStep(p, path[|path| - 1], n, name[|name| - 1]);
    }
  }

  lemma EndsStep(p: string, c: char, n: string, d: char)
    ensures (p + [c] == n + [d] || EndsWith(p + [c], "/" + (n + [d]))) <==> c == d && (p == n || EndsWith(p, "/" + n))
  {
    var a, b := p + [c], n + [d];
    assert a[..|p|] == p && b[..|n|] == n && a[|p|] == c && b[|n|] == d;
    if |b| < |a| {
      var k := |a| - |b| - 1;
      assert a[k..] == p[k..] + [c];
      assert "/" + b == "/" + n + [d];
      if a[k..] == "/" + b {
        assert a[k..][..|n| + 1] == p[k..];
        assert ("/" + b)[..|n| + 1] == "/" + n;
      }
    }
  }

  lemma {:induction false} NoDot(s: string)
    requires '.' !in s
    ensures LastDot(s) == |s|
  {
  }

  ghost predicate HasExtension(name: string, ext: string) {
    exists stem :: stem != "" && name == stem + "." + ext
  }

  /** An extension is what stands behind the last dot, when something stands before it. */
  lemma ExtensionIff(name: string, ext: string)
    ensures Extension(name) == Some(ext) <==>
            '.' !in ext && HasExtension(name, ext)
  {
    if Extension(name) == Some(ext) {
      var d := LastDot(name);
      LastDotIsLast(name);
      assert name == name[..d] + "." + ext;
    }
    if '.' !in ext {
      if stem :| stem != "" && name == stem + "." + ext {
        ExtensionOf(stem, ext);
      }
    }
  }

  lemma {:induction false} LastDotIsLast(s: string)
    ensures LastDot(s) < |s| ==> '.' !in s[LastDot(s) + 1..]
  {
    if '.' in s && s[|s| - 1] != '.' {
      LastDotIsLast(s[..|s| - 1]);
      var d := LastDot(s);
      assert s[d + 1..] == s[..|s| - 1][d + 1..] + [s[|s| - 1]];
    }
  }

  /** Source, configuration and prose are no assets; everything else is. */
  lemma NonAssetIff(path: string, name: string)
    requires '/' !in name && (path == name || EndsWith(path, "/" + name))
    ensures IsNonAsset(path) <==>
            || name == ".gitignore" || name == ".gitattributes"
            || HasExtension(name, "rs") || HasExtension(name, "toml")
            || HasExtension(name, "lock") || HasExtension(name, "md")
  {
    FileNameIff(path, name);
    NoDotIn();
    ExtensionIff(name, "rs");
    ExtensionIff(name, "toml");
    ExtensionIff(name, "lock");
    ExtensionIff(name, "md");
    InLists(name, if Extension(name).Some? then Extension(name).value else "");
  }

  lemma NoDotIn()
    ensures '.' !in "rs" && '.' !in "toml" && '.' !in "lock" && '.' !in "md"
  {
  }

  lemma InLists(name: string, ext: string)
    ensures name in NON_ASSET_NAMES <==> name == ".gitignore" || name == ".gitattributes"
    ensures ext in NON_ASSET_EXTENSIONS <==> ext == "rs" || ext == "toml" || ext == "lock" || ext == "md"
  {
  }

  // -------------------------------------------------------------------------------------------
  // Records
  // -------------------------------------------------------------------------------------------

  /** The record that counts for a path is the first one of that path. */
  predicate IsFirst(es: seq<Entry>, path: string, k: nat) {
    k < |es| && es[k].path == path && forall i :: 0 <= i < k ==> es[i].path != path
  }

  predicate Recorded(es: seq<Entry>, path: string) {
    exists i :: 0 <= i < |es| && es[i].path == path
  }

  lemma {:induction false} LookupFirst(es: seq<Entry>, path: string) returns (k: nat)
    ensures Lookup(es, path).None? <==> !Recorded(es, path)
    ensures Lookup(es, path).Some? ==> IsFirst(es, path, k) && Lookup(es, path).value == es[k]
  {
    if es == [] {
      k := 0;
    } else if es[0].path == path {
      k := 0;
    } else {
      var j := LookupFirst(es[1..], path);
      k := j + 1;
      RecordedRest(es, path);
    }
  }

  lemma RecordedRest(es: seq<Entry>, path: string)
    requires es != [] && es[0].path != path
    ensures Recorded(es, path) <==> Recorded(es[1..], path)
  {
    if i :| 0 <= i < |es| && es[i].path == path {
      assert es[1..][i - 1].path == path;
    }
  }

  /** The first record of the path says `provenance`, `bytes` and `hash`. */
  ghost predicate Says(es: seq<Entry>, path: string, e: Entry) {
    exists k: nat :: IsFirst(es, path, k) && es[k] == e
  }

  lemma {:induction false} LookupIff(es: seq<Entry>, path: string, e: Entry)
    ensures Lookup(es, path) == Some(e) <==> Says(es, path, e)
  {
    var j := LookupFirst(es, path);
    if k: nat :| IsFirst(es, path, k) && es[k] == e {
      assert Recorded(es, path);
      assert k == j;
    }
  }

  // -------------------------------------------------------------------------------------------
  // Findings
  // -------------------------------------------------------------------------------------------

  ghost predicate HasPath(es: seq<Entry>, path: string) {
    exists e :: e in es && e.path == path
  }

  lemma {:induction false} OfActualIs(recorded: seq<Entry>, actual: seq<Entry>, v: Problem)
    ensures v in OfActual(recorded, actual) <==> exists e :: e in actual && v in ProblemOf(recorded, e)
  {
    if actual != [] {
      var init, last := actual[..|actual| - 1], actual[|actual| - 1];
      OfActualIs(recorded, init, v);
      assert actual == init + [last];
    }
  }

  lemma {:induction false} OfRecordedIs(recorded: seq<Entry>, actual: seq<Entry>, v: Problem)
    ensures v in OfRecorded(recorded, actual) <==>
            v.Gone? && HasPath(recorded, v.path) && Lookup(actual, v.path).None?
  {
    if recorded != [] {
      var init, last := recorded[..|recorded| - 1], recorded[|recorded| - 1];
      OfRecordedIs(init, actual, v);
      assert recorded == init + [last];
    }
  }

  // -------------------------------------------------------------------------------------------
  // What a check reports
  // -------------------------------------------------------------------------------------------

  /** The manifest's first record of an asset is declared, and its size or its hash is not the file's. */
  ghost predicate IsChanged(s: Setup, contents: string, recorded: seq<Entry>, p: string, e: Entry) {
    && Says(recorded, p, e) && e.provenance != "unrecorded"
    && (e.bytes != |contents| || e.hash != s.digest(contents))
  }

  /** What makes each finding true of the tree and of the records. */
  ghost predicate Holds(s: Setup, files: Files, recorded: seq<Entry>, v: Problem) {
    match v
    case Missing(p) => IsAsset(files, p) && !Recorded(recorded, p)
    case Undeclared(p) => IsAsset(files, p) && exists e :: Says(recorded, p, e) && e.provenance == "unrecorded"
    case Changed(p) => IsAsset(files, p) && exists e :: IsChanged(s, files[p], recorded, p, e)
    case Gone(p) => Recorded(recorded, p) && !IsAsset(files, p)
    case Stale => false
  }

  ghost predicate NothingHolds(s: Setup, files: Files, recorded: seq<Entry>) {
    forall v :: !Holds(s, files, recorded, v)
  }

  lemma ProblemIs(s: Setup, files: Files, recorded: seq<Entry>, p: string, v: Problem)
    requires IsAsset(files, p)
    ensures v in ProblemOf(recorded, EntryOf(s, files, recorded, p)) <==>
            (v == Missing(p) || v == Undeclared(p) || v == Changed(p)) && Holds(s, files, recorded, v)
  {
    var k := LookupFirst(recorded, p);
    var found := Lookup(recorded, p);
    if found.Some? {
      LookupIff(recorded, p, found.value);
      var r := found.value;
      assert IsChanged(s, files[p], recorded, p, r) <==>
        r.provenance != "unrecorded" && (r.bytes != |files[p]| || r.hash != s.digest(files[p]));
    }
    forall e | Says(recorded, p, e) ensures found == Some(e) {
      LookupIff(recorded, p, e);
    }
  }

  lemma {:induction false} ActualIs(s: Setup, files: Files, walk: seq<string>, recorded: seq<Entry>, v: Problem)
    requires Walks(walk, files)
    ensures v in OfActual(recorded, ScanSpec(s, files, walk, recorded)) <==>
            !v.Gone? && Holds(s, files, recorded, v)
  {
    var actual := ScanSpec(s, files, walk, recorded);
    OfActualIs(recorded, actual, v);
    if e :| e in actual && v in ProblemOf(recorded, e) {
      ScanIs(s, files, walk, recorded, e);
      ProblemIs(s, files, recorded, e.path, v);
    }
    if !v.Gone? && Holds(s, files, recorded, v) {
      var e := EntryOf(s, files, recorded, v.path);
      ScanIs(s, files, walk, recorded, e);
      ProblemIs(s, files, recorded, v.path, v);
    }
  }

  lemma {:induction false} FoundIff(s: Setup, files: Files, walk: seq<string>, recorded: seq<Entry>, p: string)
    requires Walks(walk, files)
    ensures Lookup(ScanSpec(s, files, walk, recorded), p).Some? <==> IsAsset(files, p)
  {
    var actual := ScanSpec(s, files, walk, recorded);
    var k := LookupFirst(actual, p);
    if IsAsset(files, p) {
      var e := EntryOf(s, files, recorded, p);
      ScanIs(s, files, walk, recorded, e);
      var i :| 0 <= i < |actual| && actual[i] == e;
      assert Recorded(actual, p);
    }
    if Lookup(actual, p).Some? {
      ScanIs(s, files, walk, recorded, actual[k]);
    }
  }

  lemma RecordedIff(es: seq<Entry>, p: string)
    ensures HasPath(es, p) <==> Recorded(es, p)
  {
    if e :| e in es && e.path == p {
      var i :| 0 <= i < |es| && es[i] == e;
    }
    if i :| 0 <= i < |es| && es[i].path == p {
      assert es[i] in es;
    }
  }

  lemma {:induction false} GoneIs(s: Setup, files: Files, walk: seq<string>, recorded: seq<Entry>, v: Problem)
    requires Walks(walk, files)
    ensures v in OfRecorded(recorded, ScanSpec(s, files, walk, recorded)) <==> v.Gone? && Holds(s, files, recorded, v)
  {
    OfRecordedIs(recorded, ScanSpec(s, files, walk, recorded), v);
    if v.Gone? {
      FoundIff(s, files, walk, recorded, v.path);
      RecordedIff(recorded, v.path);
    }
  }

  lemma {:induction false} FindingIff(s: Setup, files: Files, walk: seq<string>, recorded: seq<Entry>, v: Problem)
    requires Walks(walk, files)
    ensures v in ViolationsSpec(recorded, ScanSpec(s, files, walk, recorded)) <==> Holds(s, files, recorded, v)
  {
    ActualIs(s, files, walk, recorded, v);
    GoneIs(s, files, walk, recorded, v);
  }

  lemma EmptyIff(vs: seq<Problem>, s: Setup, files: Files, recorded: seq<Entry>)
    requires forall v :: v in vs <==> Holds(s, files, recorded, v)
    ensures vs == [] <==> NothingHolds(s, files, recorded)
  {
    if vs != [] {
      assert vs[0] in vs;
    }
  }

  /** A check of a readable manifest reports exactly the findings that hold; that the file is stale it reports
      only when none does. */
  lemma CheckReports(s: Setup, files: Files, walk: seq<string>, recorded: seq<Entry>, v: Problem)
    requires Walks(walk, files) && ParseSpec(ManifestText(files)) == Ok(recorded)
    ensures CheckSpec(s, files, walk).Ok?
    ensures v in CheckSpec(s, files, walk).value <==>
            || Holds(s, files, recorded, v)
            || (v.Stale? && NothingHolds(s, files, recorded)
                && ManifestText(files) != RenderSpec(s.header, Found(s, files, walk)))
  {
    var vs := ViolationsSpec(recorded, ScanSpec(s, files, walk, recorded));
    forall v ensures v in vs <==> Holds(s, files, recorded, v) {
      FindingIff(s, files, walk, recorded, v);
    }
    EmptyIff(vs, s, files, recorded);
  }
}
