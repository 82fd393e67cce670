/** What clause 3 leaves open about the releasing job, and a workflow that shows it. */
module WorkflowReleases {
  import opened Text
  import opened Yaml
  import opened Workflow
  import opened WorkflowRuns

  // -------------------------------------------------------------------------------------------
  // Which steps of its own job a step comes after
  // -------------------------------------------------------------------------------------------

  /** A job that was started stays started, and its count of steps done never falls. */
  lemma {:induction false} ProgressGrows(jobs: seq<Job>, run: seq<Event>, q: nat, j: nat)
    requires IsRun(jobs, run) && q <= |run| && j < |jobs|
    ensures IsRun(jobs, run[..q])
    ensures var early, late := After(jobs, run[..q]).value[j], After(jobs, run).value[j];
            early.Some? ==> late.Some? && early.value <= late.value
    decreases |run|
  {
    PrefixIsRun(jobs, run, q);
    if q < |run| {
      var init := run[..|run| - 1];
      ProgressGrows(jobs, init, q, j);
      assert init[..q] == run[..q];
    } else {
      assert run[..q] == run;
    }
  }

  /** The run `now` that a step of job `j` ends has one step more of that job done. */
  lemma {:induction false} StepIsCounted(jobs: seq<Job>, before: seq<Event>, now: seq<Event>, j: nat, i: nat)
    requires IsRun(jobs, before) && Enabled(jobs, After(jobs, before).value, Step(j, i)) && now == before + [Step(j, i)]
    ensures IsRun(jobs, now) && j < |jobs| && After(jobs, now).value[j] == Some(i + 1)
  {
    OneMoreEvent(jobs, before, Step(j, i));
  }

  /** Once a step has happened it stays counted. */
  lemma {:induction false} StepStaysCounted(jobs: seq<Job>, run: seq<Event>, q: nat, j: nat, i: nat)
    requires IsRun(jobs, run) && q < |run| && run[q] == Step(j, i)
    ensures j < |jobs| && After(jobs, run).value[j].Some? && i < After(jobs, run).value[j].value
  {
    EventWasEnabled(jobs, run, q);
    assert run[..q + 1] == run[..q] + [Step(j, i)];
    StepIsCounted(jobs, run[..q], run[..q + 1], j, i);
    ProgressGrows(jobs, run, q + 1, j);
  }

  lemma {:induction false} OneMoreEvent(jobs: seq<Job>, run: seq<Event>, e: Event)
    requires IsRun(jobs, run) && Enabled(jobs, After(jobs, run).value, e)
    ensures var st := After(jobs, run).value;
            After(jobs, run + [e]) == Some(st[e.job := if e.Start? then Some(0) else Some(e.step + 1)])
  {
    assert (run + [e])[..|run|] == run;
  }

  /** Before a step of a job exactly the steps listed before it have happened. */
  lemma StepBeforeIff(jobs: seq<Job>, run: seq<Event>, p: nat, i: nat)
    requires IsRun(jobs, run) && p < |run| && run[p].Step?
    ensures HappensBefore(run, Step(run[p].job, i), p) <==> i < run[p].step
  {
    var j := run[p].job;
    if i < run[p].step {
      EarlierSteps(jobs, run, p, i);
    }
    EventWasEnabled(jobs, run, p);
    if q :| 0 <= q < p && q < |run| && run[q] == Step(j, i) {
      StepStaysCounted(jobs, run[..p], q, j, i);
    }
  }

  /** The releasing event draws on what a download that has happened put there. */
  ghost predicate DrawsOnDone(jobs: seq<Job>, run: seq<Event>, p: nat)
    requires p < |run| && Releases(jobs, run[p])
  {
    var job := jobs[run[p].job];
    exists i :: 0 <= i < |Steps(job)| && DrawsFrom(job, i, Steps(job)[run[p].step])
      && HappensBefore(run, Step(run[p].job, i), p)
  }

  /** Some download listed before release step `r` of the job provides it. */
  predicate DrawsOnEarlier(job: Job, r: nat)
    requires r < |Steps(job)|
  {
    exists i :: 0 <= i < r && DrawsFrom(job, i, Steps(job)[r])
  }

  /** Of the release steps of a workflow that passes, the first names the path of some download; and each draws
      on a download that has happened exactly when one that is listed before it provides its path. */
  lemma ReleaseDrawsIff(doc: Yaml, run: seq<Event>, p: nat)
    requires Clean(doc) && Jobs(doc).Some? && IsRun(Jobs(doc).value, run) && p < |run|
    requires Releases(Jobs(doc).value, run[p])
    ensures var jobs := Jobs(doc).value;
            var job := jobs[run[p].job];
            && (DrawsOnDone(jobs, run, p) <==> DrawsOnEarlier(job, run[p].step))
            && IndexOfRun(job, RELEASE).Some? && DrawsOn(job, Steps(job)[IndexOfRun(job, RELEASE).value])
  {
    var jobs, j, r := Jobs(doc).value, run[p].job, run[p].step;
    var job := jobs[j];
    ReleaseJob(doc, j);
    assert !PublishBroken(job, BuildJobs(jobs), NotFromDownloads);
    if i :| 0 <= i < |Steps(job)| && DrawsFrom(job, i, Steps(job)[r]) && HappensBefore(run, Step(j, i), p) {
      StepBeforeIff(jobs, run, p, i);
    }
    if i :| 0 <= i < r && DrawsFrom(job, i, Steps(job)[r]) {
      StepBeforeIff(jobs, run, p, i);
    }
  }

  // -------------------------------------------------------------------------------------------
  // A workflow
  // -------------------------------------------------------------------------------------------

  function RunStep(text: string): Yaml { Map([("run", Scalar(text))]) }

  function UsesStep(action: string, with: seq<(string, Yaml)>): Yaml {
    Map([("uses", Scalar(action)), ("with", Map(with))])
  }

  const BUILD_STEPS := [
    RunStep("cargo build --release"), RunStep("xtask -- bundle"), RunStep("tar --create"),
    UsesStep(UPLOAD, [("if-no-files-found", Scalar("error")), ("path", Scalar("target/a"))])]

  /** Release, then download, then release again without drawing on anything. */
  const PUBLISH_STEPS := [
    RunStep("gh release create d/"), UsesStep(DOWNLOAD, [("path", Scalar("d"))]), RunStep("gh release create")]

  function BuildJob(): Job {
    Job("build", Map([("runs-on", Scalar("ubuntu-24.04")), ("steps", Seq(BUILD_STEPS))]))
  }

  function PublishJob(): Job {
    Job("publish", Map([("needs", Seq([Scalar("build")])), ("steps", Seq(PUBLISH_STEPS))]))
  }

  function Example(): Yaml {
    Map([("jobs", Map([(BuildJob().id, BuildJob().node), (PublishJob().id, PublishJob().node)]))])
  }

  const EXAMPLE_RUN := [
    Start(0), Step(0, 0), Step(0, 1), Step(0, 2), Step(0, 3), Start(1), Step(1, 0), Step(1, 1), Step(1, 2)]

  // Reading it.

  lemma {:induction false} OneEntry(k: string, v: Yaml, key: string)
    ensures Get(Map([(k, v)]), key) == if k == key then Some(v) else None
  {
    var entries: seq<(string, Yaml)> := [(k, v)];
    assert entries[1..] == [];
    assert Lookup(entries, key) == if k == key then Some(v) else None;
  }

  lemma {:induction false} TwoEntries(k: string, v: Yaml, l: string, w: Yaml, key: string)
    ensures Get(Map([(k, v), (l, w)]), key) == if k == key then Some(v) else if l == key then Some(w) else None
  {
    var entries: seq<(string, Yaml)> := [(k, v), (l, w)];
    assert entries[1..] == [(l, w)];
    OneEntry(l, w, key);
    assert Lookup(entries, key) == if k == key then Some(v) else Lookup([(l, w)], key);
  }

  lemma RunStepIs(text: string)
    ensures var step := RunStep(text);
            StrAt(step, "run") == Some(text) && StrAt(step, "uses") == None && Get(step, "with") == None
  {
    OneEntry("run", Scalar(text), "run");
    OneEntry("run", Scalar(text), "uses");
    OneEntry("run", Scalar(text), "with");
  }

  lemma UsesStepIs(action: string, with: seq<(string, Yaml)>)
    ensures var step := UsesStep(action, with);
            StrAt(step, "uses") == Some(action) && StrAt(step, "run") == None && Get(step, "with") == Some(Map(with))
  {
    TwoEntries("uses", Scalar(action), "with", Map(with), "uses");
    TwoEntries("uses", Scalar(action), "with", Map(with), "run");
    TwoEntries("uses", Scalar(action), "with", Map(with), "with");
    assert "uses"[0] != "with"[0];
  }

  lemma BuildJobIs()
    ensures RunsOn(BuildJob()) == Some("ubuntu-24.04") && Steps(BuildJob()) == BUILD_STEPS
  {
    TwoEntries("runs-on", Scalar("ubuntu-24.04"), "steps", Seq(BUILD_STEPS), "runs-on");
    TwoEntries("runs-on", Scalar("ubuntu-24.04"), "steps", Seq(BUILD_STEPS), "steps");
  }

  lemma PublishJobIs()
    ensures Needs(PublishJob()) == ["build"] && Steps(PublishJob()) == PUBLISH_STEPS
  {
    TwoEntries("needs", Seq([Scalar("build")]), "steps", Seq(PUBLISH_STEPS), "needs");
    TwoEntries("needs", Seq([Scalar("build")]), "steps", Seq(PUBLISH_STEPS), "steps");
    assert "needs"[0] != "steps"[0];
    OneText("build");
  }

  lemma {:induction false} OneText(t: string)
    ensures Texts([Scalar(t)]) == [t]
  {
    var items := [Scalar(t)];
    assert items[1..] == [];
  }

  lemma {:induction false} ExampleJobs()
    ensures Jobs(Example()) == Some([BuildJob(), PublishJob()])
  {
    var entries := [(BuildJob().id, BuildJob().node), (PublishJob().id, PublishJob().node)];
    OneEntry("jobs", Map(entries), "jobs");
    assert JobsOf(entries) == [BuildJob(), PublishJob()];
  }

  // What its commands hold.

  lemma Lacks(s: string, needle: string, k: nat)
    requires k < |needle| && needle[k] !in s
    ensures !Contains(s, needle)
  {
    forall i | 0 <= i <= |s| ensures !(needle <= s[i..]) {
      assert i + k < |s| ==> s[i..][k] == s[i + k] && s[i + k] in s;
    }
  }

  predicate SlashesBehindD(s: string) {
    forall i :: 0 <= i < |s| && s[i] == '/' ==> i > 0 && s[i - 1] == 'd'
  }

  lemma ReleaseTexts()
    ensures NoneOf("gh release create d/") && SlashesBehindD("gh release create d/")
    ensures NoneOf("gh release create") && SlashesBehindD("gh release create")
  {
    SlashBehindD();
  }

  lemma SlashBehindD()
    ensures SlashesBehindD("gh release create d/") && SlashesBehindD("gh release create")
  {
  }

  lemma LacksSlash(s: string, needle: string)
    requires SlashesBehindD(s)
    requires |needle| > 1 && needle[|needle| - 1] == '/' && needle[|needle| - 2] != 'd'
    ensures !Contains(s, needle)
  {
    var n := |needle|;
    forall i | 0 <= i <= |s| ensures !(needle <= s[i..]) {
      assert i + n <= |s| ==> s[i..][n - 1] == s[i + n - 1] && s[i..][n - 2] == s[i + n - 2];
    }
  }

  lemma Whole(s: string)
    ensures Contains(s, s)
  {
    assert s[0..] == s;
  }

  /** Neither release command builds anything or names a path of the repository. */
  lemma ReleaseIsPlain(text: string, needle: string)
    requires NoneOf(text) && SlashesBehindD(text)
    requires needle in BUILD_COMMANDS || needle in REPOSITORY_PATHS
    ensures !Contains(text, needle)
  {
    if needle in BUILD_COMMANDS {
      LacksCommand(text, needle);
    } else {
      LacksPath(text, needle);
    }
  }

  /** The letters and the dash that tell the commands apart from it. */
  predicate NoneOf(text: string) {
    'o' !in text && 'i' !in text && 'm' !in text && '-' !in text && 'C' !in text
  }

  lemma LacksCommand(text: string, command: string)
    requires NoneOf(text) && command in BUILD_COMMANDS
    ensures !Contains(text, command)
  {
    var k := if command in [BUILD_COMMANDS[0], BUILD_COMMANDS[1], BUILD_COMMANDS[4]] then 4 else 0;
    Lacks(text, command, k);
  }

  lemma LacksPath(text: string, path: string)
    requires path in REPOSITORY_PATHS && SlashesBehindD(text)
    ensures !Contains(text, path)
  {
    LacksSlash(text, path);
  }

  lemma ReleasesAre()
    ensures Contains("gh release create d/", RELEASE) && Contains("gh release create", RELEASE)
    ensures Contains("gh release create d/", "d/") && !Contains("gh release create", "d/")
  {
    assert RELEASE <= "gh release create d/"[0..];
    Whole(RELEASE);
    assert "d/" <= "gh release create d/"[18..];
    Lacks("gh release create", "d/", 1);
  }

  // Nothing is wrong with it.

  lemma CommandsDiffer()
    ensures !Contains("cargo build --release", "xtask -- bundle") && !Contains("cargo build --release", "tar --create")
    ensures !Contains("xtask -- bundle", "tar --create")
  {
    Lacks("cargo build --release", "xtask -- bundle", 0);
    Lacks("cargo build --release", "tar --create", 0);
    Lacks("xtask -- bundle", "tar --create", 2);
  }

  lemma NoReleaseIn(i: nat)
    requires i < 4
    ensures !RunContains(BUILD_STEPS[i], RELEASE)
  {
    BuildSteps();
    NoReleaseText();
  }

  lemma NoReleaseText()
    ensures !Contains("cargo build --release", RELEASE)
    ensures !Contains("xtask -- bundle", RELEASE) && !Contains("tar --create", RELEASE)
  {
    Lacks("cargo build --release", RELEASE, 1);
    Lacks("xtask -- bundle", RELEASE, 1);
    Lacks("tar --create", RELEASE, 1);
  }

  lemma BuildSteps()
    ensures StrAt(BUILD_STEPS[0], "run") == Some("cargo build --release")
    ensures StrAt(BUILD_STEPS[1], "run") == Some("xtask -- bundle")
    ensures StrAt(BUILD_STEPS[2], "run") == Some("tar --create") && StrAt(BUILD_STEPS[3], "run") == None
    ensures StrAt(BUILD_STEPS[3], "uses") == Some(UPLOAD) && forall i :: 0 <= i < 3 ==>
            StrAt(BUILD_STEPS[i], "uses") == None
  {
    RunStepIs("cargo build --release");
    RunStepIs("xtask -- bundle");
    RunStepIs("tar --create");
    UsesStepIs(UPLOAD, [("if-no-files-found", Scalar("error")), ("path", Scalar("target/a"))]);
  }

  lemma {:induction false} FirstRun(steps: seq<Yaml>, needle: string, k: nat)
    requires k < |steps| && RunContains(steps[k], needle) && forall i :: 0 <= i < k ==> !RunContains(steps[i], needle)
    ensures RunIndex(steps, needle, 0) == Some(k)
  {
  }

  lemma {:induction false} FirstUse(steps: seq<Yaml>, action: string, k: nat)
    requires k < |steps| && Uses(steps[k], action) && forall i :: 0 <= i < k ==> !Uses(steps[i], action)
    ensures UsesIndex(steps, action, 0) == Some(k)
  {
  }

  lemma BuildStages(k: nat)
    requires k < 4
    ensures Stage(BuildJob(), "tar --create", k) == Some(k)
  {
    BuildJobIs();
    if k == 3 {
      BuildSteps();
      FirstUse(BUILD_STEPS, UPLOAD, 3);
    } else {
      StageRun(k);
      FirstRun(BUILD_STEPS, StageName("tar --create", k), k);
    }
  }

  lemma StageRun(k: nat)
    requires k < 3
    ensures RunContains(BUILD_STEPS[k], StageName("tar --create", k))
    ensures forall i :: 0 <= i < k ==> !RunContains(BUILD_STEPS[i], StageName("tar --create", k))
  {
    BuildSteps();
    CommandsDiffer();
    Whole(StageName("tar --create", k));
  }

  lemma UploadIsOk(v: Violation)
    ensures !UploadBroken("build", BUILD_STEPS[3], v)
  {
    var with := [("if-no-files-found", Scalar("error")), ("path", Scalar("target/a"))];
    UsesStepIs(UPLOAD, with);
    TwoEntries("if-no-files-found", Scalar("error"), "path", Scalar("target/a"), "if-no-files-found");
    TwoEntries("if-no-files-found", Scalar("error"), "path", Scalar("target/a"), "path");
    OnePathLine();
    UploadFine("build", BUILD_STEPS[3], Map(with), "target/a", v);
  }

  lemma {:induction false} UploadFine(id: string, step: Yaml, with: Yaml, path: string, v: Violation)
    requires Get(step, "with") == Some(with) && StrAt(with, "if-no-files-found") == Some("error")
    requires StrAt(with, "path") == Some(path) && PathLines(Lines(path)) == [path] && "target/" <= path
    ensures !UploadBroken(id, step, v)
  {
  }

  lemma {:induction false} OnePathLine()
    ensures PathLines(Lines("target/a")) == ["target/a"]
  {
    OneLineOnly("target/a");
    TrimStartId("target/a");
    TrimEndId("target/a");
    OneTrimmed("target/a");
  }

  lemma {:induction false} OneLineOnly(l: string)
    requires l != "" && '\n' !in l
    ensures Lines(l) == [l]
  {
    assert LineLength(l) == |l|;
  }

  lemma {:induction false} OneTrimmed(l: string)
    requires Trim(l) == l != ""
    ensures PathLines([l]) == [l]
  {
    assert [l][1..] == [];
  }

  lemma BuildIsOk(v: Violation)
    ensures !BuildBroken(BuildJob(), v)
  {
    BuildJobIs();
    BuildSteps();
    forall k | 0 <= k < 4 ensures Stage(BuildJob(), "tar --create", k) == Some(k) {
      BuildStages(k);
    }
    UploadIsOk(v);
    UbuntuPackages();
  }

  lemma UbuntuPackages()
    ensures Packaging("ubuntu-24.04") == Some("tar --create")
  {
    var runner := "ubuntu-24.04";
    assert runner[0] != "windows-"[0] && runner[0] != "macos-"[0];
    assert runner[..7] == "ubuntu-";
  }

  lemma PublishSteps()
    ensures StrAt(PUBLISH_STEPS[0], "run") == Some("gh release create d/")
    ensures StrAt(PUBLISH_STEPS[1], "run") == None && StrAt(PUBLISH_STEPS[2], "run") == Some("gh release create")
    ensures StrAt(PUBLISH_STEPS[0], "uses") == None && StrAt(PUBLISH_STEPS[2], "uses") == None
    ensures StrAt(PUBLISH_STEPS[1], "uses") == Some(DOWNLOAD)
    ensures Get(PUBLISH_STEPS[1], "with") == Some(Map([("path", Scalar("d"))]))
            && WithPath(PUBLISH_STEPS[1]) == Some("d")
  {
    RunStepIs("gh release create d/");
    RunStepIs("gh release create");
    UsesStepIs(DOWNLOAD, [("path", Scalar("d"))]);
    OneEntry("path", Scalar("d"), "path");
  }

  lemma PublishUses(i: nat)
    requires i < 3
    ensures Uses(PUBLISH_STEPS[i], DOWNLOAD) <==> i == 1
    ensures !Uses(PUBLISH_STEPS[i], UPLOAD) && !Uses(PUBLISH_STEPS[i], CHECKOUT)
  {
    PublishSteps();
    assert DOWNLOAD[8] != UPLOAD[8] && DOWNLOAD[8] != CHECKOUT[8];
  }

  lemma PublishStepIsOk(i: nat, v: Violation)
    requires i < 3
    ensures !RunBroken(PUBLISH_STEPS[i], v)
  {
    PublishSteps();
    ReleaseTexts();
    if v.PublishBuilds? && v.command in BUILD_COMMANDS {
      ReleaseIsPlain("gh release create d/", v.command);
      ReleaseIsPlain("gh release create", v.command);
    } else if v.PublishNames? && v.path in REPOSITORY_PATHS {
      ReleaseIsPlain("gh release create d/", v.path);
      ReleaseIsPlain("gh release create", v.path);
    }
  }

  lemma DownloadIsOk(v: Violation)
    ensures !DownloadBroken(PUBLISH_STEPS[1], v)
  {
    PublishSteps();
    if v.ForeignInput? && v.input in FOREIGN_INPUTS {
      OneEntry("path", Scalar("d"), v.input);
      assert FOREIGN_INPUTS[0] != "path" && FOREIGN_INPUTS[1] != "path" && FOREIGN_INPUTS[2] != "path";
    }
  }

  lemma FirstDraws()
    ensures IndexOfRun(PublishJob(), RELEASE) == Some(0) && RunContains(PUBLISH_STEPS[2], RELEASE)
    ensures Steps(PublishJob()) == PUBLISH_STEPS
    ensures DrawsFrom(PublishJob(), 1, PUBLISH_STEPS[0]) && !DrawsOn(PublishJob(), PUBLISH_STEPS[2])
  {
    PublishJobIs();
    PublishReleases();
    FirstRun(PUBLISH_STEPS, RELEASE, 0);
    forall i | 0 <= i < 3 ensures DrawsFrom(PublishJob(), i, PUBLISH_STEPS[0]) <==> i == 1 {
      DownloadOf(i, PUBLISH_STEPS[0]);
    }
    forall i | 0 <= i < 3 ensures !DrawsFrom(PublishJob(), i, PUBLISH_STEPS[2]) {
      DownloadOf(i, PUBLISH_STEPS[2]);
    }
  }

  lemma PublishReleases()
    ensures RunContains(PUBLISH_STEPS[0], RELEASE) && RunContains(PUBLISH_STEPS[2], RELEASE)
    ensures RunContains(PUBLISH_STEPS[0], "d/") && !RunContains(PUBLISH_STEPS[2], "d/")
  {
    PublishSteps();
    ReleasesAre();
  }

  lemma DownloadOf(i: nat, release: Yaml)
    requires i < 3 && Steps(PublishJob()) == PUBLISH_STEPS
    ensures DrawsFrom(PublishJob(), i, release) <==> i == 1 && RunContains(release, "d/")
  {
    PublishUses(i);
    PublishSteps();
    assert TrimEndChar("d", '/') == "d";
    assert "d" + "/" == "d/";
  }

  lemma PublishIsOk(v: Violation)
    ensures !PublishBroken(PublishJob(), [BuildJob()], v)
  {
    PublishJobIs();
    FirstDraws();
    forall i | 0 <= i < 3
      ensures !RunBroken(PUBLISH_STEPS[i], v)
      ensures Uses(PUBLISH_STEPS[i], DOWNLOAD) ==> !DownloadBroken(PUBLISH_STEPS[i], v)
      ensures !Uses(PUBLISH_STEPS[i], UPLOAD) && !Uses(PUBLISH_STEPS[i], CHECKOUT)
    {
      PublishStepIsOk(i, v);
      PublishUses(i);
      DownloadIsOk(v);
    }
    PublishUses(1);
    NothingAgainst(PublishJob(), BuildJob(), v);
  }

  lemma NothingAgainst(publish: Job, build: Job, v: Violation)
    requires build.id in Needs(publish) && IndexOfUses(publish, DOWNLOAD).Some?
    requires IndexOfRun(publish, RELEASE).Some? && DrawsOn(publish, Steps(publish)[IndexOfRun(publish, RELEASE).value])
    requires forall i :: 0 <= i < |Steps(publish)| ==> StepFine(Steps(publish)[i], v)
    ensures !PublishBroken(publish, [build], v)
  {
  }

  ghost predicate StepFine(step: Yaml, v: Violation) {
    && !RunBroken(step, v) && (Uses(step, DOWNLOAD) ==> !DownloadBroken(step, v))
    && !Uses(step, UPLOAD) && !Uses(step, CHECKOUT)
  }

  lemma ExampleIsClean()
    ensures Clean(Example())
  {
    ExampleJobs();
    ExampleKinds();
    forall v ensures !Broken(Example(), v) {
      BuildIsOk(v);
      PublishIsOk(v);
    }
  }

  lemma {:induction false} ExampleKinds()
    ensures BuildJobs([BuildJob(), PublishJob()]) == [BuildJob()]
    ensures PublishJobs([BuildJob(), PublishJob()]) == [PublishJob()]
  {
    KindOfBuild();
    KindOfPublish();
    var jobs := [BuildJob(), PublishJob()];
    assert jobs[1..] == [PublishJob()] && jobs[1..][1..] == [];
  }

  lemma KindOfBuild()
    ensures IsBuildJob(BuildJob()) && !IsPublishJob(BuildJob())
  {
    BuildJobIs();
    BuildSteps();
    assert Uses(BUILD_STEPS[3], UPLOAD);
    forall i | 0 <= i < 4 ensures !RunContains(BUILD_STEPS[i], RELEASE) {
      NoReleaseIn(i);
    }
  }

  lemma KindOfPublish()
    ensures IsPublishJob(PublishJob()) && !IsBuildJob(PublishJob())
  {
    FirstDraws();
    forall i | 0 <= i < 3 ensures !Uses(PUBLISH_STEPS[i], UPLOAD) {
      PublishUses(i);
    }
  }

  // A run of it.

  lemma {:induction false} NothingYet(jobs: seq<Job>)
    requires |jobs| == 2
    ensures After(jobs, []) == Some([None, None])
  {
    var st: Progress := seq(|jobs|, _ => None);
    assert st == [None, None];
  }

  lemma {:induction false} Happens(jobs: seq<Job>, run: seq<Event>, e: Event, st: Progress, next: Progress)
    requires |st| == |jobs| && After(jobs, run) == Some(st) && Enabled(jobs, st, e)
    requires next == st[e.job := if e.Start? then Some(0) else Some(e.step + 1)]
    ensures After(jobs, run + [e]) == Some(next)
  {
    OneMoreEvent(jobs, run, e);
  }

  lemma {:induction false} BuildRuns(jobs: seq<Job>)
    requires |jobs| == 2 && |Steps(jobs[0])| == 4 && Needs(jobs[0]) == []
    ensures After(jobs, [Start(0)] + [Step(0, 0)] + [Step(0, 1)] + [Step(0, 2)] + [Step(0, 3)]) == Some([Some(4), None])
  {
    NothingYet(jobs);
    assert [] + [Start(0)] == [Start(0)];
    var a: seq<Event> := [Start(0)];
    var b := a + [Step(0, 0)];
    var c := b + [Step(0, 1)];
    var d := c + [Step(0, 2)];
    Happens(jobs, [], Start(0), [None, None], [Some(0), None]);
    Happens(jobs, a, Step(0, 0), [Some(0), None], [Some(1), None]);
    Happens(jobs, b, Step(0, 1), [Some(1), None], [Some(2), None]);
    Happens(jobs, c, Step(0, 2), [Some(2), None], [Some(3), None]);
    Happens(jobs, d, Step(0, 3), [Some(3), None], [Some(4), None]);
  }

  lemma {:induction false} PublishRuns(jobs: seq<Job>, built: seq<Event>)
    requires |jobs| == 2 && |Steps(jobs[0])| == 4 && |Steps(jobs[1])| == 3 && jobs[1].id !in Needs(jobs[1])
    requires After(jobs, built) == Some([Some(4), None])
    ensures After(jobs, built + [Start(1)] + [Step(1, 0)] + [Step(1, 1)] + [Step(1, 2)]) == Some([Some(4), Some(3)])
  {
    Happens(jobs, built, Start(1), [Some(4), None], [Some(4), Some(0)]);
    Happens(jobs, built + [Start(1)], Step(1, 0), [Some(4), Some(0)], [Some(4), Some(1)]);
    Happens(jobs, built + [Start(1)] + [Step(1, 0)], Step(1, 1), [Some(4), Some(1)], [Some(4), Some(2)]);
    Happens(jobs, built + [Start(1)] + [Step(1, 0)] + [Step(1, 1)], Step(1, 2), [Some(4), Some(2)], [Some(4), Some(3)]);
  }

  lemma BuildNeedsNothing()
    ensures Needs(BuildJob()) == []
  {
    TwoEntries("runs-on", Scalar("ubuntu-24.04"), "steps", Seq(BUILD_STEPS), "needs");
    assert "steps"[0] != "needs"[0];
  }

  lemma ExampleRuns()
    ensures IsRun([BuildJob(), PublishJob()], EXAMPLE_RUN)
  {
    var jobs := [BuildJob(), PublishJob()];
    BuildJobIs();
    PublishJobIs();
    BuildNeedsNothing();
    BuildRuns(jobs);
    var built: seq<Event> := [Start(0)] + [Step(0, 0)] + [Step(0, 1)] + [Step(0, 2)] + [Step(0, 3)];
    assert "publish" != "build";
    PublishRuns(jobs, built);
    assert built + [Start(1)] + [Step(1, 0)] + [Step(1, 1)] + [Step(1, 2)] == EXAMPLE_RUN;
  }

  /** The workflow passes clause 3, and in this run of it the first release is created before the download whose
      path it names has happened, and the second draws on no download at all. */
  lemma ReleaseBeforeDownload()
    ensures var jobs := [BuildJob(), PublishJob()];
            && Clean(Example()) && Jobs(Example()) == Some(jobs) && IsRun(jobs, EXAMPLE_RUN)
            && Uploads(jobs, EXAMPLE_RUN[4]) && Releases(jobs, EXAMPLE_RUN[6]) && Releases(jobs, EXAMPLE_RUN[8])
            && !DrawsOnDone(jobs, EXAMPLE_RUN, 6) && !HappensBefore(EXAMPLE_RUN, Step(1, 1), 6)
            && !DrawsOnDone(jobs, EXAMPLE_RUN, 8) && !DrawsOn(jobs[1], Steps(jobs[1])[2])
  {
    var jobs := [BuildJob(), PublishJob()];
    ExampleIsClean();
    ExampleJobs();
    ExampleRuns();
    ExampleEvents();
    assert EXAMPLE_RUN[4] == Step(0, 3) && EXAMPLE_RUN[6] == Step(1, 0) && EXAMPLE_RUN[8] == Step(1, 2);
    StepBeforeIff(jobs, EXAMPLE_RUN, 6, 1);
    ReleaseDrawsIff(Example(), EXAMPLE_RUN, 6);
    FirstDraws();
    DrawsOnNothing(jobs, EXAMPLE_RUN, 8);
  }

  lemma DrawsOnNothing(jobs: seq<Job>, run: seq<Event>, p: nat)
    requires p < |run| && Releases(jobs, run[p])
    requires !DrawsOn(jobs[run[p].job], Steps(jobs[run[p].job])[run[p].step])
    ensures !DrawsOnDone(jobs, run, p)
  {
  }

  lemma ExampleEvents()
    ensures var jobs := [BuildJob(), PublishJob()];
            Uploads(jobs, Step(0, 3)) && Releases(jobs, Step(1, 0)) && Releases(jobs, Step(1, 2))
  {
    BuildJobIs();
    BuildSteps();
    FirstDraws();
    PublishReleases();
  }
}
