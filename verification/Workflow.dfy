/**
  Clause 3 of xtask/src/release_workflow.rs: every published distribution is an artifact of the workflow.
  Here is what the checks read out of the parsed document and what it is for a document to break the clause;
  `WorkflowCheck` holds the checks, which push violations as they walk the document.
*/
module Workflow {
  import opened Text
  import opened Yaml

  // -------------------------------------------------------------------------------------------
  // Reading the document
  // -------------------------------------------------------------------------------------------

  function Lookup(entries: seq<(string, Yaml)>, key: string): Option<Yaml> {
    if entries == [] then None
    else if entries[0].0 == key then Some(entries[0].1) else Lookup(entries[1..], key)
  }

  function Get(y: Yaml, key: string): Option<Yaml> {
    match y
    case Map(entries) => Lookup(entries, key)
    case _ => None
  }

  function StrAt(y: Yaml, key: string): Option<string> {
    match Get(y, key)
    case Some(Scalar(text)) => Some(text)
    case _ => None
  }

  function SeqAt(y: Yaml, key: string): seq<Yaml> {
    match Get(y, key)
    case Some(Seq(items)) => items
    case Some(Scalar(text)) => [Scalar(text)]
    case _ => []
  }

  datatype Job = Job(id: string, node: Yaml)

  function RunsOn(job: Job): Option<string> { StrAt(job.node, "runs-on") }

  function Steps(job: Job): seq<Yaml> {
    match Get(job.node, "steps")
    case Some(Seq(items)) => items
    case _ => []
  }

  function Texts(items: seq<Yaml>): seq<string> {
    if items == [] then []
    else (match items[0] case Scalar(text) => [text] case _ => []) + Texts(items[1..])
  }

  /** Every scalar of the sequence, and nothing else. */
  lemma {:induction false} TextsAre(items: seq<Yaml>, t: string)
    ensures t in Texts(items) <==> exists i :: 0 <= i < |items| && items[i] == Scalar(t)
  {
    if items != [] {
      TextsAre(items[1..], t);
      assert forall i :: 0 < i < |items| ==> items[i] == items[1..][i - 1];
    }
  }

  function Needs(job: Job): seq<string> { Texts(SeqAt(job.node, "needs")) }

  predicate RunContains(step: Yaml, needle: string) {
    var run := StrAt(step, "run");
    run.Some? && Contains(run.value, needle)
  }

  predicate Uses(step: Yaml, action: string) {
    var uses := StrAt(step, "uses");
    uses.Some? && action <= uses.value
  }

  /** The first step from `i` on whose `run:` contains `needle`. */
  function RunIndex(steps: seq<Yaml>, needle: string, i: nat): (r: Option<nat>)
    requires i <= |steps|
    ensures match r
            case Some(k) =>
              && i <= k < |steps| && RunContains(steps[k], needle)
              && forall j :: i <= j < k ==> !RunContains(steps[j], needle)
            case None => forall j :: i <= j < |steps| ==> !RunContains(steps[j], needle)
    decreases |steps| - i
  {
    if i == |steps| then None else if RunContains(steps[i], needle) then Some(i) else RunIndex(steps, needle, i + 1)
  }

  function IndexOfRun(job: Job, needle: string): Option<nat> { RunIndex(Steps(job), needle, 0) }

  /** The first step from `i` on that uses `action`. */
  function UsesIndex(steps: seq<Yaml>, action: string, i: nat): (r: Option<nat>)
    requires i <= |steps|
    ensures match r
            case Some(k) =>
              i <= k < |steps| && Uses(steps[k], action) && forall j :: i <= j < k ==> !Uses(steps[j], action)
            case None => forall j :: i <= j < |steps| ==> !Uses(steps[j], action)
    decreases |steps| - i
  {
    if i == |steps| then None else if Uses(steps[i], action) then Some(i) else UsesIndex(steps, action, i + 1)
  }

  function IndexOfUses(job: Job, action: string): Option<nat> { UsesIndex(Steps(job), action, 0) }

  function JobsOf(entries: seq<(string, Yaml)>): (r: seq<Job>)
    ensures |r| == |entries| && forall i :: 0 <= i < |r| ==> r[i] == Job(entries[i].0, entries[i].1)
  {
    if entries == [] then [] else [Job(entries[0].0, entries[0].1)] + JobsOf(entries[1..])
  }

  function Jobs(doc: Yaml): Option<seq<Job>> {
    match Get(doc, "jobs")
    case Some(Map(entries)) => Some(JobsOf(entries))
    case _ => None
  }

  const UPLOAD := "actions/upload-artifact"
  const DOWNLOAD := "actions/download-artifact"
  const CHECKOUT := "actions/checkout"
  const RELEASE := "gh release create"

  predicate IsBuildJob(job: Job) { exists i :: 0 <= i < |Steps(job)| && Uses(Steps(job)[i], UPLOAD) }

  predicate IsPublishJob(job: Job) { exists i :: 0 <= i < |Steps(job)| && RunContains(Steps(job)[i], RELEASE) }

  /** The packaging command of the platform a runner provides. */
  function Packaging(runner: string): Option<string> {
    if "windows-" <= runner then Some("iscc")
    else if "macos-" <= runner then Some("make_installer.sh")
    else if "ubuntu-" <= runner then Some("tar --create")
    else None
  }

  /** The three runners that package, each with its own command. */
  lemma PackagingIs(runner: string)
    ensures Packaging(runner) == Some("iscc") <==> "windows-" <= runner
    ensures Packaging(runner) == Some("make_installer.sh") <==> "macos-" <= runner
    ensures Packaging(runner) == Some("tar --create") <==> "ubuntu-" <= runner
    ensures Packaging(runner).None? <==> !("windows-" <= runner) && !("macos-" <= runner) && !("ubuntu-" <= runner)
  {
    var w, m, u := "windows-", "macos-", "ubuntu-";
    assert w[0] != m[0] && m[0] != u[0] && w[0] != u[0];
    assert w <= runner ==> runner[0] == w[0];
    assert m <= runner ==> runner[0] == m[0];
    assert u <= runner ==> runner[0] == u[0];
    var a, b, c := "iscc", "make_installer.sh", "tar --create";
    assert |a| != |b| && |b| != |c| && |a| != |c|;
  }

  const BUILD_COMMANDS := ["cargo build", "cargo run", "iscc", "make_installer.sh", "tar --create", "Compress-Archive"]
  const REPOSITORY_PATHS := ["target/", "packaging/", "crates/", "images/"]
  const FOREIGN_INPUTS := ["run-id", "repository", "github-token"]

  // -------------------------------------------------------------------------------------------
  // What is broken
  // -------------------------------------------------------------------------------------------

  datatype Violation =
    | NoJobs
    | NothingBuilt
    | NoRelease
    | ManyReleases
    | DoesNotNeed(build: string)
    | PublishUploads
    | PublishChecksOut
    | NoDownload
    | ForeignInput(input: string)
    | DownloadWithoutPath
    | PublishBuilds(command: string)
    | PublishNames(path: string)
    | NotFromDownloads
    | NoRunner(id: string)
    | UnknownRunner(id: string)
    | OutOfOrder(id: string)
    | MissingStep(id: string, what: string)
    | UploadWithoutWith(id: string)
    | MissingFilesAllowed(id: string)
    | UploadWithoutPath(id: string)
    | UploadOutsideTarget(id: string, path: string)

  /** The lines of an upload's `path:`, trimmed, without the blank ones. */
  function PathLines(lines: seq<string>): seq<string> {
    if lines == [] then []
    else (if Trim(lines[0]) == "" then [] else [Trim(lines[0])]) + PathLines(lines[1..])
  }

  /** What is collected: every line's trimmed text that is not empty. */
  lemma {:induction false} PathLinesAre(lines: seq<string>, path: string)
    ensures path in PathLines(lines) <==> path != "" && exists i :: 0 <= i < |lines| && Trim(lines[i]) == path
  {
    if lines != [] {
      PathLinesAre(lines[1..], path);
      assert forall i :: 0 < i < |lines| ==> lines[i] == lines[1..][i - 1];
    }
  }

  ghost predicate UploadBroken(id: string, step: Yaml, v: Violation) {
    match Get(step, "with")
    case None => v == UploadWithoutWith(id)
    case Some(with) =>
      || (v == MissingFilesAllowed(id) && StrAt(with, "if-no-files-found") != Some("error"))
      || (v == UploadWithoutPath(id) && StrAt(with, "path").None?)
      || (v.UploadOutsideTarget? && v.id == id && StrAt(with, "path").Some?
          && v.path in PathLines(Lines(StrAt(with, "path").value)) && !("target/" <= v.path))
  }

  /** The four stages of a build job, by first step: build, bundle, package, upload. */
  function Stage(job: Job, packaging: string, k: nat): Option<nat>
    requires k < 4
  {
    if k == 0 then IndexOfRun(job, "cargo build --release")
    else if k == 1 then IndexOfRun(job, "xtask -- bundle")
    else if k == 2 then IndexOfRun(job, packaging)
    else IndexOfUses(job, UPLOAD)
  }

  function StageName(packaging: string, k: nat): string
    requires k < 4
  {
    ["cargo build --release", "xtask -- bundle", packaging, UPLOAD][k]
  }

  predicate AllStages(job: Job, packaging: string) {
    forall k :: 0 <= k < 4 ==> Stage(job, packaging, k).Some?
  }

  predicate InOrder(job: Job, packaging: string)
    requires AllStages(job, packaging)
  {
    forall k :: 0 <= k < 3 ==> Stage(job, packaging, k).value < Stage(job, packaging, k + 1).value
  }

  ghost predicate BuildBroken(job: Job, v: Violation) {
    match RunsOn(job)
    case None => v == NoRunner(job.id)
    case Some(runner) =>
      match Packaging(runner)
      case None => v == UnknownRunner(job.id)
      case Some(packaging) =>
        || (v == OutOfOrder(job.id) && AllStages(job, packaging) && !InOrder(job, packaging))
        || (exists k ::
              0 <= k < 4 && Stage(job, packaging, k).None? && v == MissingStep(job.id, StageName(packaging, k)))
        || (exists i :: 0 <= i < |Steps(job)| && Uses(Steps(job)[i], UPLOAD) && UploadBroken(job.id, Steps(job)[i], v))
  }

  function WithPath(step: Yaml): Option<string> {
    match Get(step, "with")
    case Some(with) => StrAt(with, "path")
    case None => None
  }

  ghost predicate DownloadBroken(step: Yaml, v: Violation) {
    || (v == DownloadWithoutPath && WithPath(step).None?)
    || (v.ForeignInput? && v.input in FOREIGN_INPUTS && Get(step, "with").Some?
        && Get(Get(step, "with").value, v.input).Some?)
  }

  ghost predicate RunBroken(step: Yaml, v: Violation) {
    || (v.PublishBuilds? && v.command in BUILD_COMMANDS && RunContains(step, v.command))
    || (v.PublishNames? && v.path in REPOSITORY_PATHS && RunContains(step, v.path))
  }

  /** The release step draws on the path of some download step. */
  predicate DrawsOn(job: Job, release: Yaml) {
    exists i :: 0 <= i < |Steps(job)| && DrawsFrom(job, i, release)
  }

  /** Step `i` of the job is a download, and the release step names its path. */
  predicate DrawsFrom(job: Job, i: nat, release: Yaml)
    requires i < |Steps(job)|
  {
    && Uses(Steps(job)[i], DOWNLOAD) && WithPath(Steps(job)[i]).Some?
    && RunContains(release, TrimEndChar(WithPath(Steps(job)[i]).value, '/') + "/")
  }

  ghost predicate PublishBroken(publish: Job, builds: seq<Job>, v: Violation) {
    || (v.DoesNotNeed? && v.build !in Needs(publish) && exists i :: 0 <= i < |builds| && builds[i].id == v.build)
    || (v == PublishUploads && IsBuildJob(publish))
    || (v == PublishChecksOut && IndexOfUses(publish, CHECKOUT).Some?)
    || (v == NoDownload && IndexOfUses(publish, DOWNLOAD).None?)
    || (exists i ::
          0 <= i < |Steps(publish)| && Uses(Steps(publish)[i], DOWNLOAD) && DownloadBroken(Steps(publish)[i], v))
    || (exists i :: 0 <= i < |Steps(publish)| && RunBroken(Steps(publish)[i], v))
    || (v == NotFromDownloads && IndexOfRun(publish, RELEASE).Some?
        && !DrawsOn(publish, Steps(publish)[IndexOfRun(publish, RELEASE).value]))
  }

  function BuildJobs(jobs: seq<Job>): (r: seq<Job>)
    ensures forall i :: 0 <= i < |r| ==> IsBuildJob(r[i]) && r[i] in jobs
    ensures forall i :: 0 <= i < |jobs| && IsBuildJob(jobs[i]) ==> jobs[i] in r
  {
    if jobs == [] then [] else (if IsBuildJob(jobs[0]) then [jobs[0]] else []) + BuildJobs(jobs[1..])
  }

  function PublishJobs(jobs: seq<Job>): (r: seq<Job>)
    ensures forall i :: 0 <= i < |r| ==> IsPublishJob(r[i])
  {
    if jobs == [] then [] else (if IsPublishJob(jobs[0]) then [jobs[0]] else []) + PublishJobs(jobs[1..])
  }

  ghost predicate Broken(doc: Yaml, v: Violation) {
    match Jobs(doc)
    case None => v == NoJobs
    case Some(jobs) =>
      var builds, publishers := BuildJobs(jobs), PublishJobs(jobs);
      || (v == NothingBuilt && builds == [])
      || (v == NoRelease && publishers == [])
      || (v == ManyReleases && |publishers| > 1)
      || (|publishers| == 1 && PublishBroken(publishers[0], builds, v))
      || (exists i :: 0 <= i < |builds| && BuildBroken(builds[i], v))
  }
}
