/** What the asset gate of xtask/src/assets.rs guarantees of its checks and of its writes. */
module AssetTheorems {
  import opened Text
  import opened Sorting
  import opened Assets
  import opened AssetCheck

  predicate IsAsset(files: Files, p: string) {
    p in files && Walked(p) && !IsNonAsset(p)
  }

  /** Every asset has a path that survives in the manifest. */
  ghost predicate WordPaths(files: Files) {
    forall p :: IsAsset(files, p) ==> IsWord(p)
  }

  ghost predicate AllDeclared(files: Files, recorded: seq<Entry>) {
    forall p :: IsAsset(files, p) ==> Provenance(recorded, p) != UNRECORDED
  }

  // -------------------------------------------------------------------------------------------
  // The scan does not depend on the order of the walk
  // -------------------------------------------------------------------------------------------

  lemma {:induction false} ScanMembers(s: Setup, files: Files, walk: seq<string>, previous: seq<Entry>, e: Entry)
    requires InFiles(walk, files)
    ensures e in ScanSpec(s, files, walk, previous) <==>
            e.path in walk && !IsNonAsset(e.path) && e == EntryOf(s, files, previous, e.path)
  {
    if walk != [] {
      var init, last := walk[..|walk| - 1], walk[|walk| - 1];
      ScanMembers(s, files, init, previous, e);
      assert walk == init + [last];
    }
  }

  lemma {:induction false} ScanIs(s: Setup, files: Files, walk: seq<string>, previous: seq<Entry>, e: Entry)
    requires Walks(walk, files)
    ensures e in ScanSpec(s, files, walk, previous) <==>
            IsAsset(files, e.path) && e == EntryOf(s, files, previous, e.path)
  {
    ScanMembers(s, files, walk, previous, e);
  }

  lemma {:induction false} ScanDistinct(s: Setup, files: Files, walk: seq<string>, previous: seq<Entry>)
    requires InFiles(walk, files) && forall i, j :: 0 <= i < j < |walk| ==> walk[i] != walk[j]
    ensures Distinct(ScanSpec(s, files, walk, previous))
  {
    if walk != [] {
      var init, last := walk[..|walk| - 1], walk[|walk| - 1];
      ScanDistinct(s, files, init, previous);
      var es := ScanSpec(s, files, init, previous);
      forall i | 0 <= i < |es| ensures PathOf(es[i]) != last {
        ScanMembers(s, files, init, previous, es[i]);
        var k :| 0 <= k < |init| && init[k] == es[i].path;
        assert walk[k] != walk[|walk| - 1];
      }
    }
  }

  lemma DistinctCount(a: seq<Entry>, e: Entry)
    requires Distinct(a)
    ensures multiset(a)[e] == if e in a then 1 else 0
  {
    DistinctOnce(a, PathOf, e);
  }

  lemma SameMembers(a: seq<Entry>, b: seq<Entry>)
    requires Distinct(a) && Distinct(b) && forall e :: e in a <==> e in b
    ensures multiset(a) == multiset(b)
  {
    var x, y := multiset(a), multiset(b);
    forall e: Entry ensures x[e] == y[e] {
      DistinctCount(a, e);
      DistinctCount(b, e);
    }
  }

  // -------------------------------------------------------------------------------------------
  // Looking up
  // -------------------------------------------------------------------------------------------

  lemma {:induction false} LookupFinds(es: seq<Entry>, e: Entry)
    requires e in es && Distinct(es)
    ensures Lookup(es, e.path) == Some(e)
  {
    if es[0] != e {
      var k :| 0 <= k < |es| && es[k] == e;
      assert PathOf(es[0]) != PathOf(es[k]);
      var rest := es[1..];
      assert rest[k - 1] == e;
      assert forall i, j :: 0 <= i < j < |rest| ==> PathOf(rest[i]) != PathOf(rest[j]);
      LookupFinds(rest, e);
    }
  }

  lemma {:induction false} LookupSome(es: seq<Entry>, e: Entry)
    requires e in es
    ensures Lookup(es, e.path).Some?
  {
    if es[0].path != e.path {
      assert e in es[1..];
      LookupSome(es[1..], e);
    }
  }

  lemma {:induction false} SortedDistinct(es: seq<Entry>)
    requires Distinct(es)
    ensures Distinct(Sort(es, PathOf))
  {
    SortSorts(es, PathOf);
    DistinctByMembers(es, Sort(es, PathOf), PathOf);
  }

  // -------------------------------------------------------------------------------------------
  // When a scan reads back
  // -------------------------------------------------------------------------------------------

  lemma WalkedIsNotSkipped(p: string)
    requires "crates/" <= p
    ensures !Skipped(p)
  {
    assert p[0] == "crates/"[0];
    assert VERSION_TAG[0] != p[0];
  }

  lemma UnrecordedIsWord()
    ensures IsWord(UNRECORDED)
  {
  }

  lemma ProvenanceIsWord(recorded: seq<Entry>, p: string)
    requires AllPlain(recorded)
    ensures IsWord(Provenance(recorded, p))
  {
    UnrecordedIsWord();
  }

  lemma {:induction false} ScanPlain(s: Setup, files: Files, walk: seq<string>, recorded: seq<Entry>)
    requires SetupOk(s) && Walks(walk, files) && AllPlain(recorded)
    ensures AllPlain(ScanSpec(s, files, walk, recorded)) <==> WordPaths(files)
  {
    var actual := ScanSpec(s, files, walk, recorded);
    forall e | e in actual && IsWord(e.path) ensures Plain(e) {
      ScanIs(s, files, walk, recorded, e);
      WalkedIsNotSkipped(e.path);
      ProvenanceIsWord(recorded, e.path);
    }
    forall p | IsAsset(files, p) ensures EntryOf(s, files, recorded, p) in actual {
      ScanIs(s, files, walk, recorded, EntryOf(s, files, recorded, p));
    }
    if WordPaths(files) {
      forall i | 0 <= i < |actual| ensures Plain(actual[i]) {
        ScanIs(s, files, walk, recorded, actual[i]);
      }
    }
  }

  lemma RecordedIsPlain(text: string)
    requires ParseSpec(text).Ok?
    ensures AllPlain(ParseSpec(text).value)
  {
    ParsedIsPlain(Lines(text), 1);
  }

  // -------------------------------------------------------------------------------------------
  // The check
  // -------------------------------------------------------------------------------------------

  /** The scan of a tree against the manifest it was just written to shows nothing but undeclared assets. */
  lemma {:induction false} FreshViolations(s: Setup, files: Files, walk: seq<string>, recorded: seq<Entry>)
    requires SetupOk(s) && Walks(walk, files)
    ensures var actual := ScanSpec(s, files, walk, recorded);
            ViolationsSpec(Sort(actual, PathOf), actual) == [] <==> AllDeclared(files, recorded)
  {
    var actual := ScanSpec(s, files, walk, recorded);
    ScanDistinct(s, files, walk, recorded);
    ViolationsOfSorted(actual);
    ScanDeclares(s, files, walk, recorded, actual);
  }

  predicate EachDeclared(es: seq<Entry>) {
    forall e :: e in es ==> e.provenance != UNRECORDED
  }

  lemma {:induction false} ViolationsOfSorted(actual: seq<Entry>)
    requires Distinct(actual)
    ensures ViolationsSpec(Sort(actual, PathOf), actual) == [] <==> EachDeclared(actual)
  {
    var sorted := Sort(actual, PathOf);
    SortedDistinct(actual);
    NoViolations(sorted, actual);
    forall i | 0 <= i < |actual| ensures Declared(sorted, actual[i]) <==> actual[i].provenance != UNRECORDED {
      SortedDeclares(actual, actual[i]);
    }
    forall i | 0 <= i < |sorted| ensures Lookup(actual, sorted[i].path).Some? {
      SortedIsThere(actual, i);
    }
  }

  lemma {:induction false} ScanDeclares(s: Setup, files: Files, walk: seq<string>, recorded: seq<Entry>,
                                        actual: seq<Entry>)
    requires Walks(walk, files) && actual == ScanSpec(s, files, walk, recorded)
    ensures EachDeclared(actual) <==> AllDeclared(files, recorded)
  {
    ScanHasAssets(s, files, walk, recorded);
    forall e | e in actual ensures e.provenance == Provenance(recorded, e.path) {
      ScanIs(s, files, walk, recorded, e);
    }
    forall p | IsAsset(files, p) ensures EntryOf(s, files, recorded, p) in actual
      && EntryOf(s, files, recorded, p).provenance == Provenance(recorded, p) {
    }
  }

  lemma {:induction false} SortedDeclares(actual: seq<Entry>, e: Entry)
    requires e in actual && Distinct(Sort(actual, PathOf))
    ensures Declared(Sort(actual, PathOf), e) <==> e.provenance != UNRECORDED
  {
    SortMembers(actual, PathOf, e);
    LookupFinds(Sort(actual, PathOf), e);
  }

  lemma {:induction false} SortedIsThere(actual: seq<Entry>, i: nat)
    requires i < |Sort(actual, PathOf)|
    ensures Lookup(actual, Sort(actual, PathOf)[i].path).Some?
  {
    var e := Sort(actual, PathOf)[i];
    SortMembers(actual, PathOf, e);
    LookupSome(actual, e);
  }

  lemma {:induction false} ScanHasAssets(s: Setup, files: Files, walk: seq<string>, recorded: seq<Entry>)
    requires Walks(walk, files)
    ensures var actual := ScanSpec(s, files, walk, recorded);
            && (forall e :: e in actual ==> IsAsset(files, e.path))
            && (forall p :: IsAsset(files, p) ==> EntryOf(s, files, recorded, p) in actual)
  {
    var actual := ScanSpec(s, files, walk, recorded);
    forall e | e in actual ensures IsAsset(files, e.path) {
      ScanIs(s, files, walk, recorded, e);
    }
    forall p | IsAsset(files, p) ensures EntryOf(s, files, recorded, p) in actual {
      ScanIs(s, files, walk, recorded, EntryOf(s, files, recorded, p));
    }
  }

  /** Without violations every asset is found in what was recorded, so its path is a word and it is declared. */
  lemma {:induction false} CleanIsDeclared(s: Setup, files: Files, walk: seq<string>, recorded: seq<Entry>,
                                           again: seq<Entry>)
    requires Walks(walk, files) && AllPlain(again)
    requires ViolationsSpec(again, ScanSpec(s, files, walk, recorded)) == []
    ensures WordPaths(files) && AllDeclared(files, again)
  {
    var actual := ScanSpec(s, files, walk, recorded);
    ScanHasAssets(s, files, walk, recorded);
    forall p | IsAsset(files, p) ensures IsWord(p) && Provenance(again, p) != UNRECORDED {
      CleanMember(again, actual, EntryOf(s, files, recorded, p));
    }
  }

  lemma CleanMember(recorded: seq<Entry>, actual: seq<Entry>, e: Entry)
    requires e in actual && AllPlain(recorded) && ViolationsSpec(recorded, actual) == []
    ensures IsWord(e.path) && Provenance(recorded, e.path) != UNRECORDED
  {
    NoViolations(recorded, actual);
    var i :| 0 <= i < |actual| && actual[i] == e;
    assert Declared(recorded, actual[i]);
  }

  /** A check is clean exactly when the manifest is a fresh render of the tree, every asset's path is a word
      and every asset is declared. */
  lemma CheckIff(s: Setup, files: Files, walk: seq<string>)
    requires SetupOk(s) && Walks(walk, files)
    ensures CheckSpec(s, files, walk) == Ok([]) <==>
            && ParseSpec(ManifestText(files)).Ok?
            && ManifestText(files) == RenderSpec(s.header, Found(s, files, walk))
            && WordPaths(files)
            && AllDeclared(files, ParseSpec(ManifestText(files)).value)
  {
    var text := ManifestText(files);
    if ParseSpec(text).Ok? {
      var recorded, actual := ParseSpec(text).value, Found(s, files, walk);
      RecordedIsPlain(text);
      if ViolationsSpec(recorded, actual) == [] {
        CleanIsDeclared(s, files, walk, recorded, recorded);
      }
      if text == RenderSpec(s.header, actual) && WordPaths(files) && AllDeclared(files, recorded) {
        ScanPlain(s, files, walk, recorded);
        PlainReadsBack(s.header, actual);
        FreshViolations(s, files, walk, recorded);
      }
    }
  }

  // -------------------------------------------------------------------------------------------
  // The write
  // -------------------------------------------------------------------------------------------

  lemma SameAssets(s: Setup, files: Files, walk: seq<string>, p: string)
    requires InFiles(walk, files)
    ensures IsAsset(Written(s, files, walk), p) <==> IsAsset(files, p)
    ensures IsAsset(files, p) ==> Written(s, files, walk)[p] == files[p]
  {
    ManifestIsNoAsset();
  }

  /** A write changes nobody's provenance: what the new manifest says of a path is what the old one said,
      or `unrecorded`; of a file that is no asset it says nothing. */
  lemma ProvenanceIsCarried(s: Setup, files: Files, walk: seq<string>, p: string)
    requires SetupOk(s) && Walks(walk, files) && WordPaths(files)
    requires ParseSpec(ManifestText(files)).Ok?
    ensures var recorded, again := ParseSpec(ManifestText(files)).value,
            ParseSpec(ManifestText(Written(s, files, walk)));
            && again.Ok?
            && Provenance(again.value, p) == if IsAsset(files, p) then Provenance(recorded, p) else UNRECORDED
  {
    var recorded, actual := ParseSpec(ManifestText(files)).value, Found(s, files, walk);
    RecordedIsPlain(ManifestText(files));
    ScanPlain(s, files, walk, recorded);
    PlainReadsBack(s.header, actual);
    ScanDistinct(s, files, walk, recorded);
    var sorted := Sort(actual, PathOf);
    if IsAsset(files, p) {
      var e := EntryOf(s, files, recorded, p);
      ScanIs(s, files, walk, recorded, e);
      SortMembers(actual, PathOf, e);
      SortedDistinct(actual);
      LookupFinds(sorted, e);
    } else if Lookup(sorted, p).Some? {
      var e := Lookup(sorted, p).value;
      SortMembers(actual, PathOf, e);
      ScanIs(s, files, walk, recorded, e);
    }
  }

  /** A second scan, after the write and in any order, finds the same entries. */
  lemma ScanAfterWrite(s: Setup, files: Files, walk: seq<string>, walk2: seq<string>)
    requires SetupOk(s) && Walks(walk, files) && WordPaths(files)
    requires ParseSpec(ManifestText(files)).Ok? && Walks(walk2, Written(s, files, walk))
    ensures ParseSpec(ManifestText(Written(s, files, walk))).Ok?
    ensures multiset(Found(s, Written(s, files, walk), walk2)) == multiset(Found(s, files, walk))
    ensures Distinct(Found(s, files, walk))
  {
    var recorded, after := ParseSpec(ManifestText(files)).value, Written(s, files, walk);
    ProvenanceIsCarried(s, files, walk, "");
    var again := ParseSpec(ManifestText(after)).value;
    var a, b := Found(s, files, walk), Found(s, after, walk2);
    forall e ensures e in a <==> e in b {
      ScanIs(s, files, walk, recorded, e);
      ScanIs(s, after, walk2, again, e);
      SameAssets(s, files, walk, e.path);
      ProvenanceIsCarried(s, files, walk, e.path);
    }
    ScanDistinct(s, files, walk, recorded);
    ScanDistinct(s, after, walk2, again);
    SameMembers(a, b);
  }

  lemma WordPathsKept(s: Setup, files: Files, walk: seq<string>)
    requires InFiles(walk, files)
    ensures WordPaths(Written(s, files, walk)) <==> WordPaths(files)
  {
    forall p ensures IsAsset(Written(s, files, walk), p) <==> IsAsset(files, p) {
      SameAssets(s, files, walk, p);
    }
  }

  /** A check right after a write is clean exactly when every asset's path is a word and none is
      `unrecorded`: the write alone never makes the gate pass. */
  lemma WriteThenCheck(s: Setup, files: Files, walk: seq<string>, walk2: seq<string>)
    requires SetupOk(s) && Walks(walk, files) && Walks(walk2, Written(s, files, walk))
    requires ParseSpec(ManifestText(files)).Ok?
    ensures CheckSpec(s, Written(s, files, walk), walk2) == Ok([]) <==>
            WordPaths(files) && AllDeclared(files, ParseSpec(ManifestText(files)).value)
  {
    var recorded, after := ParseSpec(ManifestText(files)).value, Written(s, files, walk);
    CheckIff(s, after, walk2);
    WordPathsKept(s, files, walk);
    if WordPaths(files) {
      ScanAfterWrite(s, files, walk, walk2);
      RenderIgnoresOrder(s.header, Found(s, files, walk), Found(s, after, walk2));
      forall p | IsAsset(files, p)
        ensures IsAsset(after, p) && Provenance(ParseSpec(ManifestText(after)).value, p) == Provenance(recorded, p)
      {
        SameAssets(s, files, walk, p);
        ProvenanceIsCarried(s, files, walk, p);
      }
      forall p | IsAsset(after, p) ensures IsAsset(files, p) {
        SameAssets(s, files, walk, p);
      }
    }
  }

  /** The write reports a clean tree under the same condition. */
  lemma WriteReportIff(s: Setup, files: Files, walk: seq<string>)
    requires SetupOk(s) && Walks(walk, files) && ParseSpec(ManifestText(files)).Ok?
    ensures WriteReport(s, files, walk) == Ok([]) <==>
            WordPaths(files) && AllDeclared(files, ParseSpec(ManifestText(files)).value)
  {
    var recorded, actual := ParseSpec(ManifestText(files)).value, Found(s, files, walk);
    var again := ParseSpec(RenderSpec(s.header, actual));
    RecordedIsPlain(ManifestText(files));
    if WordPaths(files) {
      ScanPlain(s, files, walk, recorded);
      PlainReadsBack(s.header, actual);
      FreshViolations(s, files, walk, recorded);
    } else if again.Ok? && ViolationsSpec(again.value, actual) == [] {
      RecordedIsPlain(RenderSpec(s.header, actual));
      CleanIsDeclared(s, files, walk, recorded, again.value);
    }
  }

  /** Writing again changes nothing. */
  lemma WriteTwice(s: Setup, files: Files, walk: seq<string>, walk2: seq<string>)
    requires SetupOk(s) && Walks(walk, files) && WordPaths(files)
    requires ParseSpec(ManifestText(files)).Ok? && Walks(walk2, Written(s, files, walk))
    ensures Written(s, Written(s, files, walk), walk2) == Written(s, files, walk)
  {
    var after := Written(s, files, walk);
    ScanAfterWrite(s, files, walk, walk2);
    RenderIgnoresOrder(s.header, Found(s, files, walk), Found(s, after, walk2));
    SameAgain(after, RenderSpec(s.header, Found(s, after, walk2)));
  }

  lemma SameAgain(files: Files, text: string)
    requires MANIFEST in files && files[MANIFEST] == text
    ensures files[MANIFEST := text] == files
  {
  }

  // -------------------------------------------------------------------------------------------
  // A path with a space in it
  // -------------------------------------------------------------------------------------------

  const SPACED := "crates/a b.wav"

  lemma SpacedIsWalked()
    ensures Walked(SPACED) && !IsNonAsset(SPACED) && SPACED != MANIFEST
  {
    var path := SPACED;
    assert path[7] == 'a';
    forall i | 0 <= i <= |path| ensures !("/target/" <= path[i..]) {
      assert i < |path| ==> path[i..][0] == path[i];
      assert path[6..][1] == 'a';
      assert "/target/"[0] == '/' && "/target/"[1] == 't';
    }
    assert path == "crates" + "/" + "a b.wav";
    FileNameOf("crates", "a b.wav");
    assert "a b.wav" == "a b" + "." + "wav";
    ExtensionOf("a b", "wav");
  }

  /** One asset whose name holds a space: the manifest written for it cannot be read, by the write's own
      report or by any later check. */
  lemma {:induction false} SpacedPathIsNotReadBack(s: Setup)
    requires SetupOk(s)
    ensures var files, walk := map[SPACED := "x"], [SPACED];
            && Walks(walk, files) && IsAsset(files, SPACED) && ParseSpec(ManifestText(files)) == Ok([])
            && ParseSpec(ManifestText(Written(s, files, walk))) == Err(2 + |s.header|)
            && WriteReport(s, files, walk) == Err(2 + |s.header|)
  {
    var files, walk, e := map[SPACED := "x"], [SPACED], Entry(SPACED, 1, s.digest("x"), UNRECORDED);
    SpacedIsWalked();
    SpacedTree(files, walk);
    FoundSpaced(s, files, walk, e);
    SpacedManifest(s, e);
    BadWrite(s, files, walk, e, 2 + |s.header|);
  }

  lemma {:induction false} SpacedTree(files: Files, walk: seq<string>)
    requires files == map[SPACED := "x"] && walk == [SPACED] && Walked(SPACED) && !IsNonAsset(SPACED)
             && SPACED != MANIFEST
    ensures Walks(walk, files) && IsAsset(files, SPACED) && ParseSpec(ManifestText(files)) == Ok([])
  {
    assert ParseSpec("") == Ok([]);
  }

  lemma {:induction false} SpacedManifest(s: Setup, e: Entry)
    requires SetupOk(s) && e == Entry(SPACED, 1, s.digest("x"), UNRECORDED)
    ensures ParseSpec(RenderSpec(s.header, [e])) == Err(2 + |s.header|)
  {
    SortOfOne(e);
    SpacedLineIsBad("crates/a", "b.wav", e);
    BadManifest(s.header, e);
  }

  /** A manifest that cannot be read is written all the same. */
  lemma {:induction false} BadWrite(s: Setup, files: Files, walk: seq<string>, e: Entry, line: nat)
    requires InFiles(walk, files) && ParseSpec(ManifestText(files)).Ok? && Found(s, files, walk) == [e]
    requires ParseSpec(RenderSpec(s.header, [e])) == Err(line)
    ensures ParseSpec(ManifestText(Written(s, files, walk))) == Err(line) && WriteReport(s, files, walk) == Err(line)
  {
  }

  lemma {:induction false} FoundSpaced(s: Setup, files: Files, walk: seq<string>, e: Entry)
    requires files == map[SPACED := "x"] && walk == [SPACED] && !IsNonAsset(SPACED) && SPACED != MANIFEST
    requires ParseSpec(ManifestText(files)) == Ok([]) && e == Entry(SPACED, 1, s.digest("x"), UNRECORDED)
    ensures Found(s, files, walk) == [e]
  {
    assert walk[..0] == [];
    assert ScanSpec(s, files, walk[..0], []) == [];
    assert Provenance([], SPACED) == UNRECORDED;
  }

  lemma {:induction false} SortOfOne(e: Entry)
    ensures Sort([e], PathOf) == [e]
  {
    SortOfSorted([e], PathOf);
  }

  lemma {:induction false} BadManifest(header: seq<string>, e: Entry)
    requires IsHeader(header) && ParseLine(RenderLine(e)) == Bad && OneLine(RenderLine(e)) && Sort([e], PathOf) == [e]
    ensures ParseSpec(RenderSpec(header, [e])) == Err(2 + |header|)
  {
    RenderedLines(header, [e]);
    TopIsSkipped(header, RenderLines([e]));
    assert RenderLines([e]) == [RenderLine(e)];
  }
}
