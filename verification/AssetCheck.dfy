/** The scan, the check and the write of xtask/src/assets.rs over a map of files. */
module AssetCheck {
  import opened Text
  import opened Assets

  // -------------------------------------------------------------------------------------------
  // Which files are assets
  // -------------------------------------------------------------------------------------------

  const NON_ASSET_EXTENSIONS := ["rs", "toml", "lock", "md"]
  const NON_ASSET_NAMES := [".gitignore", ".gitattributes"]

  /** `Path::file_name`: what follows the last slash. */
  function FileName(path: string): string {
    if path == "" || path[|path| - 1] == '/' then "" else FileName(path[..|path| - 1]) + [path[|path| - 1]]
  }

  /** `Path::extension`: what follows the last dot of a name, unless that dot is its first character. */
  function Extension(name: string): Option<string> {
    var d := LastDot(name);
    if d == |name| || d == 0 then None else Some(name[d + 1..])
  }

  /** Where the last dot is, or the length. */
  function LastDot(s: string): (d: nat)
    ensures d <= |s| && (d < |s| ==> s[d] == '.')
  {
    if '.' !in s then |s| else if s[|s| - 1] == '.' then |s| - 1 else LastDot(s[..|s| - 1])
  }

  predicate IsNonAsset(path: string) {
    var name := FileName(path);
    name in NON_ASSET_NAMES || (Extension(name).Some? && Extension(name).value in NON_ASSET_EXTENSIONS)
  }

  /** Under `crates/`, with nothing named `target` on the way. */
  predicate Walked(path: string) {
    "crates/" <= path && !Contains(path, "/target/") && !EndsWith(path, "/target")
  }

  lemma {:induction false} FileNameOf(dir: string, name: string)
    requires '/' !in name
    ensures FileName(dir + "/" + name) == name
  {
    var path := dir + "/" + name;
    if name != "" {
      assert path[..|path| - 1] == dir + "/" + name[..|name| - 1];
      FileNameOf(dir, name[..|name| - 1]);
    }
  }

  lemma {:induction false} ExtensionOf(stem: string, ext: string)
    requires stem != "" && '.' !in ext
    ensures LastDot(stem + "." + ext) == |stem| && Extension(stem + "." + ext) == Some(ext)
  {
    var name := stem + "." + ext;
    assert name[|stem|] == '.';
    if ext != "" {
      assert name[..|name| - 1] == stem + "." + ext[..|ext| - 1];
      ExtensionOf(stem, ext[..|ext| - 1]);
    }
  }

  /** The manifest does not list itself. */
  lemma ManifestIsNoAsset()
    ensures IsNonAsset(MANIFEST)
  {
    assert MANIFEST == "crates/namir-fixtures" + "/" + "assets.lock";
    FileNameOf("crates/namir-fixtures", "assets.lock");
    assert "assets.lock" == "assets" + "." + "lock";
    ExtensionOf("assets", "lock");
    assert NON_ASSET_EXTENSIONS[2] == "lock";
  }

  // -------------------------------------------------------------------------------------------
  // Scanning
  // -------------------------------------------------------------------------------------------

  /** What the check is given besides the files: the manifest's comment lines and the content hash. */
  datatype Setup = Setup(header: seq<string>, digest: string -> string)

  ghost predicate SetupOk(s: Setup) {
    IsHeader(s.header) && forall c: string :: IsWord(s.digest(c))
  }

  type Files = map<string, string>

  /** Every walked file once, in the order the walk came to them. */
  ghost predicate Walks(walk: seq<string>, files: Files) {
    && (forall i, j :: 0 <= i < j < |walk| ==> walk[i] != walk[j])
    && (forall i :: 0 <= i < |walk| ==> walk[i] in files && Walked(walk[i]))
    && (forall p :: p in files && Walked(p) ==> p in walk)
    && (forall p :: p in files ==> |files[p]| < U64_END)
  }

  predicate InFiles(walk: seq<string>, files: Files) {
    forall i :: 0 <= i < |walk| ==> walk[i] in files
  }

  /** The first entry with that path. */
  function Lookup(es: seq<Entry>, path: string): (r: Option<Entry>)
    ensures r.Some? ==> r.value in es && r.value.path == path
  {
    if es == [] then None else if es[0].path == path then Some(es[0]) else Lookup(es[1..], path)
  }

  function Provenance(previous: seq<Entry>, path: string): string {
    match Lookup(previous, path)
    case None => UNRECORDED
    case Some(e) => e.provenance
  }

  function EntryOf(s: Setup, files: Files, previous: seq<Entry>, path: string): Entry
    requires path in files
  {
    Entry(path, |files[path]|, s.digest(files[path]), Provenance(previous, path))
  }

  function ScanSpec(s: Setup, files: Files, walk: seq<string>, previous: seq<Entry>): seq<Entry>
    requires InFiles(walk, files)
  {
    if walk == [] then []
    else
      var init, last := walk[..|walk| - 1], walk[|walk| - 1];
      ScanSpec(s, files, init, previous) + if IsNonAsset(last) then [] else [EntryOf(s, files, previous, last)]
  }

  method Scan(s: Setup, files: Files, walk: seq<string>, previous: seq<Entry>) returns (entries: seq<Entry>)
    requires InFiles(walk, files)
    ensures entries == ScanSpec(s, files, walk, previous)
  {
    entries := [];
    for i := 0 to |walk|
      invariant entries == ScanSpec(s, files, walk[..i], previous)
    {
      assert walk[..i + 1][..i] == walk[..i];
      if !IsNonAsset(walk[i]) {
        entries := entries + [EntryOf(s, files, previous, walk[i])];
      }
    }
    assert walk[..|walk|] == walk;
  }

  // -------------------------------------------------------------------------------------------
  // Violations
  // -------------------------------------------------------------------------------------------

  datatype Problem =
    | Missing(path: string)
    | Undeclared(path: string)
    | Changed(path: string)
    | Gone(path: string)
    | Stale

  function ProblemOf(recorded: seq<Entry>, e: Entry): seq<Problem> {
    match Lookup(recorded, e.path)
    case None => [Missing(e.path)]
    case Some(r) =>
      if r.provenance == UNRECORDED then [Undeclared(e.path)]
      else if r.hash != e.hash || r.bytes != e.bytes then [Changed(e.path)]
      else []
  }

  function OfActual(recorded: seq<Entry>, actual: seq<Entry>): seq<Problem> {
    if actual == [] then []
    else OfActual(recorded, actual[..|actual| - 1]) + ProblemOf(recorded, actual[|actual| - 1])
  }

  function OfRecorded(recorded: seq<Entry>, actual: seq<Entry>): seq<Problem> {
    if recorded == [] then []
    else
      var last := recorded[|recorded| - 1];
      OfRecorded(recorded[..|recorded| - 1], actual) + if Lookup(actual, last.path).None? then [Gone(last.path)] else []
  }

  function ViolationsSpec(recorded: seq<Entry>, actual: seq<Entry>): seq<Problem> {
    OfActual(recorded, actual) + OfRecorded(recorded, actual)
  }

  method Violations(recorded: seq<Entry>, actual: seq<Entry>) returns (out: seq<Problem>)
    ensures out == ViolationsSpec(recorded, actual)
  {
    out := [];
    for i := 0 to |actual|
      invariant out == OfActual(recorded, actual[..i])
    {
      assert actual[..i + 1][..i] == actual[..i];
      var found := Lookup(recorded, actual[i].path);
      if found.None? {
        out := out + [Missing(actual[i].path)];
      } else if found.value.provenance == UNRECORDED {
        out := out + [Undeclared(actual[i].path)];
      } else if found.value.hash != actual[i].hash || found.value.bytes != actual[i].bytes {
        out := out + [Changed(actual[i].path)];
      }
    }
    assert actual[..|actual|] == actual;
    for i := 0 to |recorded|
      invariant out == OfActual(recorded, actual) + OfRecorded(recorded[..i], actual)
    {
      assert recorded[..i + 1][..i] == recorded[..i];
      if Lookup(actual, recorded[i].path).None? {
        out := out + [Gone(recorded[i].path)];
      }
    }
    assert recorded[..|recorded|] == recorded;
  }

  /** The manifest has a declared, up-to-date entry for `e`. */
  predicate Declared(recorded: seq<Entry>, e: Entry) {
    var r := Lookup(recorded, e.path);
    r.Some? && r.value.provenance != UNRECORDED && r.value.hash == e.hash && r.value.bytes == e.bytes
  }

  lemma {:induction false} OfActualEmpty(recorded: seq<Entry>, actual: seq<Entry>)
    ensures OfActual(recorded, actual) == [] <==> forall i :: 0 <= i < |actual| ==> Declared(recorded, actual[i])
  {
    if actual != [] {
      var init := actual[..|actual| - 1];
      OfActualEmpty(recorded, init);
      assert forall i :: 0 <= i < |init| ==> init[i] == actual[i];
      assert ProblemOf(recorded, actual[|actual| - 1]) == [] <==> Declared(recorded, actual[|actual| - 1]);
    }
  }

  lemma {:induction false} OfRecordedEmpty(recorded: seq<Entry>, actual: seq<Entry>)
    ensures OfRecorded(recorded, actual) == [] <==>
            forall i :: 0 <= i < |recorded| ==> Lookup(actual, recorded[i].path).Some?
  {
    if recorded != [] {
      var init := recorded[..|recorded| - 1];
      OfRecordedEmpty(init, actual);
      assert forall i :: 0 <= i < |init| ==> init[i] == recorded[i];
    }
  }

  /** No violation: every asset is declared as it is, and nothing else is recorded. */
  lemma {:induction false} NoViolations(recorded: seq<Entry>, actual: seq<Entry>)
    ensures ViolationsSpec(recorded, actual) == [] <==>
            && (forall i :: 0 <= i < |actual| ==> Declared(recorded, actual[i]))
            && (forall i :: 0 <= i < |recorded| ==> Lookup(actual, recorded[i].path).Some?)
  {
    OfActualEmpty(recorded, actual);
    OfRecordedEmpty(recorded, actual);
  }

  // -------------------------------------------------------------------------------------------
  // Check and write
  // -------------------------------------------------------------------------------------------

  function ManifestText(files: Files): string {
    if MANIFEST in files then files[MANIFEST] else ""
  }

  function CheckSpec(s: Setup, files: Files, walk: seq<string>): Result<seq<Problem>, nat>
    requires InFiles(walk, files)
  {
    match ParseSpec(ManifestText(files))
    case Err(n) => Err(n)
    case Ok(recorded) => Ok(Verdict(s, ManifestText(files), recorded, ScanSpec(s, files, walk, recorded)))
  }

  function Verdict(s: Setup, text: string, recorded: seq<Entry>, actual: seq<Entry>): seq<Problem> {
    var out := ViolationsSpec(recorded, actual);
    if out == [] && text != RenderSpec(s.header, actual) then [Stale] else out
  }

  /** What the write finds in the tree. */
  function Found(s: Setup, files: Files, walk: seq<string>): seq<Entry>
    requires InFiles(walk, files) && ParseSpec(ManifestText(files)).Ok?
  {
    ScanSpec(s, files, walk, ParseSpec(ManifestText(files)).value)
  }

  function Written(s: Setup, files: Files, walk: seq<string>): Files
    requires InFiles(walk, files)
  {
    if ParseSpec(ManifestText(files)).Err? then files
    else files[MANIFEST := RenderSpec(s.header, Found(s, files, walk))]
  }

  function WriteReport(s: Setup, files: Files, walk: seq<string>): Result<seq<Problem>, nat>
    requires InFiles(walk, files)
  {
    match ParseSpec(ManifestText(files))
    case Err(n) => Err(n)
    case Ok(_) =>
      match ParseSpec(RenderSpec(s.header, Found(s, files, walk)))
      case Err(n) => Err(n)
      case Ok(again) => Ok(ViolationsSpec(again, Found(s, files, walk)))
  }

  /** The repository's files, which a write changes. */
  class Repository {
    var files: Files
    const setup: Setup

    constructor (files: Files, setup: Setup)
      ensures this.files == files && this.setup == setup
    {
      this.files := files;
      this.setup := setup;
    }

    method CheckOrWrite(walk: seq<string>, write: bool) returns (r: Result<seq<Problem>, nat>)
      requires InFiles(walk, files)
      modifies this`files
      ensures !write ==> files == old(files) && r == CheckSpec(setup, old(files), walk)
      ensures write ==> files == Written(setup, old(files), walk) && r == WriteReport(setup, old(files), walk)
    {
      var text := ManifestText(files);
      var parsed := Parse(text);
      if parsed.Err? {
        return Err(parsed.error);
      }
      var actual := Scan(setup, files, walk, parsed.value);
      if write {
        var rendered := Render(setup.header, actual);
        files := files[MANIFEST := rendered];
        var again := Parse(rendered);
        if again.Err? {
          return Err(again.error);
        }
        var problems := Violations(again.value, actual);
        return Ok(problems);
      }
      var out := Violations(parsed.value, actual);
      var current := Render(setup.header, actual);
      if out == [] && text != current {
        out := [Stale];
      }
      r := Ok(out);
    }
  }
}
