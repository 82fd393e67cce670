/** What it is for a workflow to pass clause 3, said without violations. */
module WorkflowClean {
  import opened Text
  import opened Yaml
  import opened Workflow
  import opened WorkflowRuns

  /** Step `i` is the first whose command holds `needle`. */
  predicate FirstRunning(steps: seq<Yaml>, needle: string, i: nat) {
    i < |steps| && RunContains(steps[i], needle) && forall j :: 0 <= j < i ==> !RunContains(steps[j], needle)
  }

  predicate FirstUsing(steps: seq<Yaml>, action: string, i: nat) {
    i < |steps| && Uses(steps[i], action) && forall j :: 0 <= j < i ==> !Uses(steps[j], action)
  }

  /** An upload that fails when empty and names only paths under `target/`. */
  predicate UploadFine(step: Yaml) {
    && Get(step, "with").Some? && StrAt(Get(step, "with").value, "if-no-files-found") == Some("error")
    && WithPath(step).Some?
    && var lines := Lines(WithPath(step).value);
       forall i :: 0 <= i < |lines| && Trim(lines[i]) != "" ==> "target/" <= Trim(lines[i])
  }

  /** A runner that packages; build, bundle, package and upload in this order, each by its first step. */
  ghost predicate BuildFine(job: Job) {
    var steps := Steps(job);
    && RunsOn(job).Some? && Packaging(RunsOn(job).value).Some?
    && (exists build: nat, bundle: nat, package: nat, upload: nat ::
          StagedBy(steps, Packaging(RunsOn(job).value).value, build, bundle, package, upload))
    && forall i :: 0 <= i < |steps| && Uses(steps[i], UPLOAD) ==> UploadFine(steps[i])
  }

  predicate StagedBy(steps: seq<Yaml>, packaging: string, build: nat, bundle: nat, package: nat, upload: nat) {
    && build < bundle < package < upload
    && FirstRunning(steps, "cargo build --release", build) && FirstRunning(steps, "xtask -- bundle", bundle)
    && FirstRunning(steps, packaging, package) && FirstUsing(steps, UPLOAD, upload)
  }

  /** A download of this run's artifacts into a path. */
  predicate DownloadFine(step: Yaml) {
    && WithPath(step).Some?
    && Get(Get(step, "with").value, "run-id").None? && Get(Get(step, "with").value, "repository").None?
    && Get(Get(step, "with").value, "github-token").None?
  }

  /** A command that builds nothing and names nothing of the repository. */
  predicate CommandFine(step: Yaml) {
    && (forall k :: 0 <= k < |BUILD_COMMANDS| ==> !RunContains(step, BUILD_COMMANDS[k]))
    && forall k :: 0 <= k < |REPOSITORY_PATHS| ==> !RunContains(step, REPOSITORY_PATHS[k])
  }

  /** A job that needs every build job, uploads and checks out nothing, downloads, and whose first release draws
      on a download. */
  ghost predicate PublishFine(job: Job, jobs: seq<Job>) {
    var steps := Steps(job);
    && NeedsBuilds(job, jobs)
    && (forall i :: 0 <= i < |steps| ==>
          && !Uses(steps[i], UPLOAD) && !Uses(steps[i], CHECKOUT) && CommandFine(steps[i])
          && (Uses(steps[i], DOWNLOAD) ==> DownloadFine(steps[i])))
    && (exists i :: 0 <= i < |steps| && Uses(steps[i], DOWNLOAD))
    && forall r: nat :: FirstRunning(steps, RELEASE, r) ==> DrawsOn(job, steps[r])
  }

  /** Some job builds, exactly one releases, and all of them are fine. */
  ghost predicate Fine(jobs: seq<Job>) {
    && (exists k :: 0 <= k < |jobs| && IsBuildJob(jobs[k]))
    && (exists j: nat :: FinePublisher(jobs, j))
    && forall k :: 0 <= k < |jobs| && IsBuildJob(jobs[k]) ==> BuildFine(jobs[k])
  }

  predicate OnlyPublish(jobs: seq<Job>, j: nat) {
    j < |jobs| && forall k :: 0 <= k < |jobs| ==> (IsPublishJob(jobs[k]) <==> k == j)
  }

  // One rule at a time.

  lemma UploadFineIff(id: string, step: Yaml)
    ensures UploadFine(step) <==> forall v :: !UploadBroken(id, step, v)
  {
    if forall v :: !UploadBroken(id, step, v) {
      assert !UploadBroken(id, step, UploadWithoutWith(id)) && !UploadBroken(id, step, MissingFilesAllowed(id));
      assert !UploadBroken(id, step, UploadWithoutPath(id));
      var lines := Lines(WithPath(step).value);
      forall i | 0 <= i < |lines| && Trim(lines[i]) != "" ensures "target/" <= Trim(lines[i]) {
        PathLinesAre(lines, Trim(lines[i]));
        assert !UploadBroken(id, step, UploadOutsideTarget(id, Trim(lines[i])));
      }
    }
    if UploadFine(step) {
      forall v ensures !UploadBroken(id, step, v) {
        if v.UploadOutsideTarget? { PathLinesAre(Lines(WithPath(step).value), v.path); }
      }
    }
  }

  lemma DownloadFineIff(step: Yaml)
    ensures DownloadFine(step) <==> forall v :: !DownloadBroken(step, v)
  {
    if forall v :: !DownloadBroken(step, v) {
      assert !DownloadBroken(step, DownloadWithoutPath);
      assert FOREIGN_INPUTS[0] in FOREIGN_INPUTS && FOREIGN_INPUTS[1] in FOREIGN_INPUTS
        && FOREIGN_INPUTS[2] in FOREIGN_INPUTS;
      assert !DownloadBroken(step, ForeignInput(FOREIGN_INPUTS[0]))
        && !DownloadBroken(step, ForeignInput(FOREIGN_INPUTS[1]));
      assert !DownloadBroken(step, ForeignInput(FOREIGN_INPUTS[2]));
    }
  }

  lemma CommandFineIff(step: Yaml)
    ensures CommandFine(step) <==> forall v :: !RunBroken(step, v)
  {
    if forall v :: !RunBroken(step, v) {
      forall k | 0 <= k < |BUILD_COMMANDS| ensures !RunContains(step, BUILD_COMMANDS[k]) {
        assert !RunBroken(step, PublishBuilds(BUILD_COMMANDS[k]));
      }
      forall k | 0 <= k < |REPOSITORY_PATHS| ensures !RunContains(step, REPOSITORY_PATHS[k]) {
        assert !RunBroken(step, PublishNames(REPOSITORY_PATHS[k]));
      }
    }
  }

  lemma StageIs(job: Job, packaging: string, k: nat, i: nat)
    requires k < 4
    ensures Stage(job, packaging, k) == Some(i) <==>
            if k == 3 then FirstUsing(Steps(job), UPLOAD, i) else FirstRunning(Steps(job), StageName(packaging, k), i)
  {
  }

  lemma StagesIff(job: Job, packaging: string)
    ensures AllStages(job, packaging) && InOrder(job, packaging) <==>
            exists build: nat, bundle: nat, package: nat, upload: nat ::
              StagedBy(Steps(job), packaging, build, bundle, package, upload)
  {
    if AllStages(job, packaging) && InOrder(job, packaging) {
      var a, b, c, d := Stage(job, packaging, 0).value, Stage(job, packaging, 1).value,
                        Stage(job, packaging, 2).value, Stage(job, packaging, 3).value;
      StageIs(job, packaging, 0, a);
      StageIs(job, packaging, 1, b);
      StageIs(job, packaging, 2, c);
      StageIs(job, packaging, 3, d);
      StagesRise(job, packaging);
      assert StagedBy(Steps(job), packaging, a, b, c, d);
    }
    if a: nat, b: nat, c: nat, d: nat :| StagedBy(Steps(job), packaging, a, b, c, d) {
      StageIs(job, packaging, 0, a);
      StageIs(job, packaging, 1, b);
      StageIs(job, packaging, 2, c);
      StageIs(job, packaging, 3, d);
    }
  }

  lemma StagesRise(job: Job, packaging: string)
    requires AllStages(job, packaging) && InOrder(job, packaging)
    ensures Stage(job, packaging, 0).value < Stage(job, packaging, 1).value
    ensures Stage(job, packaging, 1).value < Stage(job, packaging, 2).value
    ensures Stage(job, packaging, 2).value < Stage(job, packaging, 3).value
  {
    assert Stage(job, packaging, 0).value < Stage(job, packaging, 0 + 1).value;
    assert Stage(job, packaging, 1).value < Stage(job, packaging, 1 + 1).value;
    assert Stage(job, packaging, 2).value < Stage(job, packaging, 2 + 1).value;
  }

  lemma BuildFineIff(job: Job)
    ensures BuildFine(job) <==> forall v :: !BuildBroken(job, v)
  {
    if RunsOn(job).None? {
      assert BuildBroken(job, NoRunner(job.id));
    } else if Packaging(RunsOn(job).value).None? {
      assert BuildBroken(job, UnknownRunner(job.id));
    } else {
      var packaging := Packaging(RunsOn(job).value).value;
      StagesIff(job, packaging);
      StagesBroken(job, packaging);
      UploadsBroken(job, packaging);
      UploadsFine(job);
      assert BuildFine(job) <==> AllStages(job, packaging) && InOrder(job, packaging) && UnbrokenUploads(job);
    }
  }

  ghost predicate UnbrokenUploads(job: Job) {
    forall i, v :: 0 <= i < |Steps(job)| && Uses(Steps(job)[i], UPLOAD) ==> !UploadBroken(job.id, Steps(job)[i], v)
  }

  lemma UploadsFine(job: Job)
    ensures UnbrokenUploads(job) <==>
            forall i :: 0 <= i < |Steps(job)| && Uses(Steps(job)[i], UPLOAD) ==> UploadFine(Steps(job)[i])
  {
    forall i | 0 <= i < |Steps(job)| && Uses(Steps(job)[i], UPLOAD)
      ensures UploadFine(Steps(job)[i]) <==> forall v :: !UploadBroken(job.id, Steps(job)[i], v)
    {
      UploadFineIff(job.id, Steps(job)[i]);
    }
  }

  lemma StagesBroken(job: Job, packaging: string)
    requires RunsOn(job).Some? && Packaging(RunsOn(job).value) == Some(packaging)
    ensures !(AllStages(job, packaging) && InOrder(job, packaging)) ==> exists v :: BuildBroken(job, v)
  {
    if AllStages(job, packaging) && !InOrder(job, packaging) {
      assert BuildBroken(job, OutOfOrder(job.id));
    }
    if k: nat :| k < 4 && Stage(job, packaging, k).None? {
      assert BuildBroken(job, MissingStep(job.id, StageName(packaging, k)));
    }
  }

  lemma UploadsBroken(job: Job, packaging: string)
    requires RunsOn(job).Some? && Packaging(RunsOn(job).value) == Some(packaging)
    ensures (forall v :: !BuildBroken(job, v)) ==> UnbrokenUploads(job)
    ensures AllStages(job, packaging) && InOrder(job, packaging) && UnbrokenUploads(job) ==>
            forall v :: !BuildBroken(job, v)
  {
    if forall v :: !BuildBroken(job, v) {
      forall i, v | 0 <= i < |Steps(job)| && Uses(Steps(job)[i], UPLOAD)
        ensures !UploadBroken(job.id, Steps(job)[i], v)
      {
        assert !BuildBroken(job, v);
      }
    }
  }

  /** The build jobs of the list are the jobs that build. */
  lemma {:induction false} BuildsAre(jobs: seq<Job>, job: Job)
    ensures job in BuildJobs(jobs) <==> job in jobs && IsBuildJob(job)
  {
    if job in BuildJobs(jobs) {
      var i :| 0 <= i < |BuildJobs(jobs)| && BuildJobs(jobs)[i] == job;
    }
    if job in jobs && IsBuildJob(job) {
      var k :| 0 <= k < |jobs| && jobs[k] == job;
    }
  }

  predicate NeedsBuilds(job: Job, jobs: seq<Job>) {
    forall k :: 0 <= k < |jobs| && IsBuildJob(jobs[k]) ==> jobs[k].id in Needs(job)
  }

  lemma {:induction false} NeedsBuildsIff(job: Job, jobs: seq<Job>)
    ensures NeedsBuilds(job, jobs) <==> forall b :: b in BuildJobs(jobs) ==> b.id in Needs(job)
  {
    if NeedsBuilds(job, jobs) {
      forall b | b in BuildJobs(jobs) ensures b.id in Needs(job) {
        BuildsAre(jobs, b);
        var k :| 0 <= k < |jobs| && jobs[k] == b;
      }
    }
    if forall b :: b in BuildJobs(jobs) ==> b.id in Needs(job) {
      forall k | 0 <= k < |jobs| && IsBuildJob(jobs[k]) ensures jobs[k].id in Needs(job) {
        BuildsAre(jobs, jobs[k]);
      }
    }
  }

  lemma {:induction false} PublishFineIff(job: Job, jobs: seq<Job>)
    ensures PublishFine(job, jobs) <==> forall v :: !PublishBroken(job, BuildJobs(jobs), v)
  {
    NeedsBuildsIff(job, jobs);
    if forall v :: !PublishBroken(job, BuildJobs(jobs), v) {
      UnbrokenPublish(job, BuildJobs(jobs));
      StepsFine(job);
      FirstRelease(job);
    }
    if PublishFine(job, jobs) {
      FinePublish(job, jobs);
    }
  }

  lemma FirstRelease(job: Job)
    ensures forall r: nat :: FirstRunning(Steps(job), RELEASE, r) <==> IndexOfRun(job, RELEASE) == Some(r)
  {
  }

  ghost predicate StepUnbroken(step: Yaml) {
    (forall v :: !RunBroken(step, v)) && (Uses(step, DOWNLOAD) ==> forall v :: !DownloadBroken(step, v))
  }

  lemma StepsFine(job: Job)
    ensures forall i :: 0 <= i < |Steps(job)| ==>
              (StepUnbroken(Steps(job)[i]) <==>
                 CommandFine(Steps(job)[i]) && (Uses(Steps(job)[i], DOWNLOAD) ==> DownloadFine(Steps(job)[i])))
  {
    forall i | 0 <= i < |Steps(job)|
      ensures StepUnbroken(Steps(job)[i]) <==>
                CommandFine(Steps(job)[i]) && (Uses(Steps(job)[i], DOWNLOAD) ==> DownloadFine(Steps(job)[i]))
    {
      CommandFineIff(Steps(job)[i]);
      DownloadFineIff(Steps(job)[i]);
    }
  }

  lemma {:induction false} FinePublish(job: Job, jobs: seq<Job>)
    requires PublishFine(job, jobs)
    ensures forall v :: !PublishBroken(job, BuildJobs(jobs), v)
  {
    var steps := Steps(job);
    NeedsBuildsIff(job, jobs);
    StepsFine(job);
    FirstRelease(job);
    forall v ensures !PublishBroken(job, BuildJobs(jobs), v) {
      assert forall i :: 0 <= i < |steps| ==> StepUnbroken(steps[i]);
      assert forall i :: 0 <= i < |BuildJobs(jobs)| ==> BuildJobs(jobs)[i] in BuildJobs(jobs);
    }
  }

  lemma UnbrokenPublish(job: Job, builds: seq<Job>)
    requires forall v :: !PublishBroken(job, builds, v)
    ensures forall b :: b in builds ==> b.id in Needs(job)
    ensures !IsBuildJob(job) && IndexOfUses(job, CHECKOUT).None? && IndexOfUses(job, DOWNLOAD).Some?
    ensures forall i :: 0 <= i < |Steps(job)| ==> StepUnbroken(Steps(job)[i])
    ensures IndexOfRun(job, RELEASE).Some? ==> DrawsOn(job, Steps(job)[IndexOfRun(job, RELEASE).value])
  {
    forall b | b in builds ensures b.id in Needs(job) {
      var i :| 0 <= i < |builds| && builds[i] == b;
      assert !PublishBroken(job, builds, DoesNotNeed(b.id));
    }
    assert !PublishBroken(job, builds, PublishUploads) && !PublishBroken(job, builds, PublishChecksOut);
    assert !PublishBroken(job, builds, NoDownload) && !PublishBroken(job, builds, NotFromDownloads);
    forall i | 0 <= i < |Steps(job)| ensures StepUnbroken(Steps(job)[i]) {
      forall v ensures !RunBroken(Steps(job)[i], v)
        && (Uses(Steps(job)[i], DOWNLOAD) ==> !DownloadBroken(Steps(job)[i], v)) {
        assert !PublishBroken(job, builds, v);
      }
    }
  }

  lemma {:induction false} PublishJobsAre(jobs: seq<Job>)
    ensures |PublishJobs(jobs)| == 0 <==> forall k :: 0 <= k < |jobs| ==> !IsPublishJob(jobs[k])
    ensures forall j: nat :: OnlyPublish(jobs, j) ==> PublishJobs(jobs) == [jobs[j]]
    ensures |PublishJobs(jobs)| == 1 ==> exists j: nat :: OnlyPublish(jobs, j)
  {
    if jobs != [] {
      var rest := jobs[1..];
      PublishJobsAre(rest);
      assert forall k :: 0 < k < |jobs| ==> jobs[k] == rest[k - 1];
      forall j: nat | OnlyPublish(jobs, j) ensures PublishJobs(jobs) == [jobs[j]] {
        if j > 0 {
          OnlyInTail(jobs, j);
        }
      }
      if |PublishJobs(jobs)| == 1 {
        if IsPublishJob(jobs[0]) {
          assert OnlyPublish(jobs, 0);
        } else {
          var j: nat :| OnlyPublish(rest, j);
          assert OnlyPublish(jobs, j + 1);
        }
      }
    }
  }

  lemma OnlyInTail(jobs: seq<Job>, j: nat)
    requires j > 0 && OnlyPublish(jobs, j)
    ensures OnlyPublish(jobs[1..], j - 1) && !IsPublishJob(jobs[0])
  {
    assert forall k :: 0 < k < |jobs| ==> jobs[k] == jobs[1..][k - 1];
  }

  /** A workflow passes clause 3 exactly when it has jobs and they are fine. */
  lemma CleanIff(doc: Yaml)
    ensures Clean(doc) <==> Jobs(doc).Some? && Fine(Jobs(doc).value)
  {
    if Jobs(doc).None? {
      assert Broken(doc, NoJobs);
    } else {
      var jobs := Jobs(doc).value;
      Parts(doc, jobs);
      BuildsFine(jobs);
      PublisherFine(jobs);
    }
  }

  ghost predicate OnePublisher(jobs: seq<Job>) {
    |PublishJobs(jobs)| == 1 && forall v :: !PublishBroken(PublishJobs(jobs)[0], BuildJobs(jobs), v)
  }

  ghost predicate FinePublisher(jobs: seq<Job>, j: nat) {
    OnlyPublish(jobs, j) && PublishFine(jobs[j], jobs)
  }

  lemma OneIsFine(jobs: seq<Job>) returns (j: nat)
    requires OnePublisher(jobs)
    ensures FinePublisher(jobs, j)
  {
    j := ThePublisher(jobs);
    var job := jobs[j];
    assert PublishJobs(jobs)[0] == job;
    forall v ensures !PublishBroken(job, BuildJobs(jobs), v) {
    }
    PublishFineIff(job, jobs);
  }

  lemma {:induction false} ThePublisher(jobs: seq<Job>) returns (j: nat)
    requires |PublishJobs(jobs)| == 1
    ensures OnlyPublish(jobs, j) && PublishJobs(jobs) == [jobs[j]]
  {
    PublishJobsAre(jobs);
    j :| OnlyPublish(jobs, j);
  }

  lemma FineIsOne(jobs: seq<Job>, j: nat)
    requires FinePublisher(jobs, j)
    ensures OnePublisher(jobs)
  {
    PublishJobsAre(jobs);
    assert PublishJobs(jobs) == [jobs[j]];
    PublishFineIff(jobs[j], jobs);
  }

  lemma PublisherFine(jobs: seq<Job>)
    ensures OnePublisher(jobs) <==> exists j: nat :: FinePublisher(jobs, j)
  {
    if OnePublisher(jobs) {
      var j := OneIsFine(jobs);
    }
    if j: nat :| FinePublisher(jobs, j) {
      FineIsOne(jobs, j);
    }
  }

  /** The parts of the clause. */
  lemma {:induction false} Parts(doc: Yaml, jobs: seq<Job>)
    requires Jobs(doc) == Some(jobs)
    ensures var builds, publishers := BuildJobs(jobs), PublishJobs(jobs);
            Clean(doc) <==>
              && builds != [] && OnePublisher(jobs)
              && forall i, v :: 0 <= i < |builds| ==> !BuildBroken(builds[i], v)
  {
    var builds, publishers := BuildJobs(jobs), PublishJobs(jobs);
    if Clean(doc) {
      assert !Broken(doc, NothingBuilt) && !Broken(doc, NoRelease) && !Broken(doc, ManyReleases);
      forall v ensures !PublishBroken(publishers[0], builds, v) {
        assert !Broken(doc, v);
      }
      forall i, v | 0 <= i < |builds| ensures !BuildBroken(builds[i], v) {
        assert !Broken(doc, v);
      }
    }
  }

  lemma {:induction false} BuildsFine(jobs: seq<Job>)
    ensures BuildJobs(jobs) != [] <==> exists k :: 0 <= k < |jobs| && IsBuildJob(jobs[k])
    ensures (forall i, v :: 0 <= i < |BuildJobs(jobs)| ==> !BuildBroken(BuildJobs(jobs)[i], v)) <==>
            forall k :: 0 <= k < |jobs| && IsBuildJob(jobs[k]) ==> BuildFine(jobs[k])
  {
    var builds := BuildJobs(jobs);
    if builds != [] {
      BuildsAre(jobs, builds[0]);
      var k :| 0 <= k < |jobs| && jobs[k] == builds[0];
    }
    forall k | 0 <= k < |jobs| && IsBuildJob(jobs[k]) ensures exists i :: 0 <= i < |builds| && builds[i] == jobs[k] {
      BuildsAre(jobs, jobs[k]);
    }
    if forall i, v :: 0 <= i < |builds| ==> !BuildBroken(builds[i], v) {
      forall k | 0 <= k < |jobs| && IsBuildJob(jobs[k]) ensures BuildFine(jobs[k]) {
        var i :| 0 <= i < |builds| && builds[i] == jobs[k];
        BuildFineIff(jobs[k]);
      }
    }
    if forall k :: 0 <= k < |jobs| && IsBuildJob(jobs[k]) ==> BuildFine(jobs[k]) {
      forall i, v | 0 <= i < |builds| ensures !BuildBroken(builds[i], v) {
        BuildsAre(jobs, builds[i]);
        var k :| 0 <= k < |jobs| && jobs[k] == builds[i];
        BuildFineIff(jobs[k]);
      }
    }
  }
}
