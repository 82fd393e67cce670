/** Runs of a workflow, its jobs interleaving freely, and what clause 3 makes impossible in them. */
module WorkflowRuns {
  import opened Text
  import opened Yaml
  import opened Workflow

  // A job starts once every job it needs has finished all its steps, and does its steps in order. A job that
  // fails simply stops, so every prefix of a run is a run.
  datatype Event = Start(job: nat) | Step(job: nat, step: nat)

  /** Per job: not started, or started with that many steps done. */
  type Progress = seq<Option<nat>>

  predicate Finished(jobs: seq<Job>, st: Progress, j: nat)
    requires |st| == |jobs|
  {
    j < |jobs| && st[j] == Some(|Steps(jobs[j])|)
  }

  predicate NeedsMet(jobs: seq<Job>, st: Progress, j: nat)
    requires |st| == |jobs| && j < |jobs|
  {
    forall k :: 0 <= k < |jobs| && jobs[k].id in Needs(jobs[j]) ==> Finished(jobs, st, k)
  }

  predicate Enabled(jobs: seq<Job>, st: Progress, e: Event)
    requires |st| == |jobs|
  {
    && e.job < |jobs|
    && match e
       case Start(j) => st[j] == None && NeedsMet(jobs, st, j)
       case Step(j, i) => st[j] == Some(i) && i < |Steps(jobs[j])|
  }

  function After(jobs: seq<Job>, run: seq<Event>): (r: Option<Progress>)
    ensures r.Some? ==> |r.value| == |jobs|
  {
    if run == [] then Some(seq(|jobs|, _ => None))
    else
      var e := run[|run| - 1];
      match After(jobs, run[..|run| - 1])
      case None => None
      case Some(st) =>
        if !Enabled(jobs, st, e) then None
        else Some(st[e.job := if e.Start? then Some(0) else Some(e.step + 1)])
  }

  predicate IsRun(jobs: seq<Job>, run: seq<Event>) {
    After(jobs, run).Some?
  }

  ghost predicate HappensBefore(run: seq<Event>, e: Event, p: nat) {
    exists q :: 0 <= q < p && q < |run| && run[q] == e
  }

  lemma {:induction false} PrefixIsRun(jobs: seq<Job>, run: seq<Event>, p: nat)
    requires IsRun(jobs, run) && p <= |run|
    ensures IsRun(jobs, run[..p])
  {
    if p < |run| {
      PrefixIsRun(jobs, run[..|run| - 1], p);
      assert run[..|run| - 1][..p] == run[..p];
    } else {
      assert run[..p] == run;
    }
  }

  /** What is recorded as done has happened. */
  lemma {:induction false} DoneHappened(jobs: seq<Job>, run: seq<Event>, j: nat, i: nat)
    requires IsRun(jobs, run) && j < |jobs| && After(jobs, run).value[j].Some? && i < After(jobs, run).value[j].value
    ensures HappensBefore(run, Step(j, i), |run|)
    decreases |run|
  {
    var init, last := run[..|run| - 1], run[|run| - 1];
    if last != Step(j, i) {
      DoneHappened(jobs, init, j, i);
      var q :| 0 <= q < |init| && init[q] == Step(j, i);
      assert run[q] == Step(j, i);
    }
  }

  lemma {:induction false} StartHappened(jobs: seq<Job>, run: seq<Event>, j: nat)
    requires IsRun(jobs, run) && j < |jobs| && After(jobs, run).value[j].Some?
    ensures HappensBefore(run, Start(j), |run|)
    decreases |run|
  {
    var init, last := run[..|run| - 1], run[|run| - 1];
    if last != Start(j) {
      StartHappened(jobs, init, j);
      var q :| 0 <= q < |init| && init[q] == Start(j);
      assert run[q] == Start(j);
    }
  }

  lemma {:induction false} EventWasEnabled(jobs: seq<Job>, run: seq<Event>, p: nat)
    requires IsRun(jobs, run) && p < |run|
    ensures IsRun(jobs, run[..p]) && Enabled(jobs, After(jobs, run[..p]).value, run[p])
  {
    PrefixIsRun(jobs, run, p);
    PrefixIsRun(jobs, run, p + 1);
    assert run[..p + 1][..p] == run[..p];
  }

  lemma Within(run: seq<Event>, e: Event, p: nat)
    requires p <= |run| && HappensBefore(run[..p], e, p)
    ensures HappensBefore(run, e, p)
  {
    var q :| 0 <= q < p && q < |run[..p]| && run[..p][q] == e;
    assert run[q] == e;
  }

  /** A job does its steps in order. */
  lemma EarlierSteps(jobs: seq<Job>, run: seq<Event>, p: nat, i: nat)
    requires IsRun(jobs, run) && p < |run| && run[p].Step? && i < run[p].step
    ensures HappensBefore(run, Step(run[p].job, i), p)
  {
    EventWasEnabled(jobs, run, p);
    DoneHappened(jobs, run[..p], run[p].job, i);
    Within(run, Step(run[p].job, i), p);
  }

  /** Every step of a job comes after every step of every job that it needs. */
  lemma NeededSteps(jobs: seq<Job>, run: seq<Event>, p: nat, k: nat, i: nat)
    requires IsRun(jobs, run) && p < |run| && run[p].Step? && run[p].job < |jobs|
    requires k < |jobs| && jobs[k].id in Needs(jobs[run[p].job]) && i < |Steps(jobs[k])|
    ensures HappensBefore(run, Step(k, i), p)
  {
    var j := run[p].job;
    EventWasEnabled(jobs, run, p);
    StartHappened(jobs, run[..p], j);
    Within(run, Start(j), p);
    var q :| 0 <= q < p && q < |run| && run[q] == Start(j);
    EventWasEnabled(jobs, run, q);
    assert Finished(jobs, After(jobs, run[..q]).value, k);
    DoneHappened(jobs, run[..q], k, i);
    Within(run, Step(k, i), q);
  }

  // -------------------------------------------------------------------------------------------
  // What clause 3 rules out
  // -------------------------------------------------------------------------------------------

  ghost predicate Clean(doc: Yaml) {
    forall v :: !Broken(doc, v)
  }

  /** The step at `p` of the run uploads a distribution. */
  predicate Uploads(jobs: seq<Job>, e: Event) {
    e.Step? && e.job < |jobs| && e.step < |Steps(jobs[e.job])| && Uses(Steps(jobs[e.job])[e.step], UPLOAD)
  }

  predicate Releases(jobs: seq<Job>, e: Event) {
    e.Step? && e.job < |jobs| && e.step < |Steps(jobs[e.job])| && RunContains(Steps(jobs[e.job])[e.step], RELEASE)
  }

  /** Build, then bundle, then package, each a step of job `k` that happened before `p`. */
  ghost predicate Produced(jobs: seq<Job>, run: seq<Event>, k: nat, p: nat)
    requires k < |jobs|
  {
    exists build: nat, bundle: nat, package: nat :: ProducedBy(jobs, run, k, p, build, bundle, package)
  }

  ghost predicate ProducedBy(jobs: seq<Job>, run: seq<Event>, k: nat, p: nat, build: nat, bundle: nat, package: nat)
    requires k < |jobs|
  {
    var steps := Steps(jobs[k]);
    && build < bundle < package < |steps|
    && RunContains(steps[build], "cargo build --release")
    && RunContains(steps[bundle], "xtask -- bundle")
    && RunsOn(jobs[k]).Some? && Packaging(RunsOn(jobs[k]).value).Some?
    && RunContains(steps[package], Packaging(RunsOn(jobs[k]).value).value)
    && HappensBefore(run, Step(k, build), p) && HappensBefore(run, Step(k, bundle), p)
    && HappensBefore(run, Step(k, package), p)
  }

  lemma BuildJobInOrder(doc: Yaml, k: nat) returns (packaging: string)
    requires Clean(doc) && Jobs(doc).Some? && k < |Jobs(doc).value| && IsBuildJob(Jobs(doc).value[k])
    ensures var job := Jobs(doc).value[k];
            RunsOn(job).Some? && Packaging(RunsOn(job).value) == Some(packaging)
            && AllStages(job, packaging) && InOrder(job, packaging)
  {
    var jobs := Jobs(doc).value;
    var job := jobs[k];
    assert job in BuildJobs(jobs);
    var b :| 0 <= b < |BuildJobs(jobs)| && BuildJobs(jobs)[b] == job;
    assert !Broken(doc, NoRunner(job.id));
    assert !BuildBroken(BuildJobs(jobs)[b], NoRunner(job.id));
    assert !Broken(doc, UnknownRunner(job.id));
    assert !BuildBroken(BuildJobs(jobs)[b], UnknownRunner(job.id));
    packaging := Packaging(RunsOn(job).value).value;
    forall n | 0 <= n < 4 ensures Stage(job, packaging, n).Some? {
      assert !Broken(doc, MissingStep(job.id, StageName(packaging, n)));
      assert !BuildBroken(BuildJobs(jobs)[b], MissingStep(job.id, StageName(packaging, n)));
    }
    assert !Broken(doc, OutOfOrder(job.id));
    assert !BuildBroken(BuildJobs(jobs)[b], OutOfOrder(job.id));
  }

  /** In every run of a workflow that passes, an upload comes after build, bundle and package steps of
      its own job, in that order. */
  lemma UploadIsProduced(doc: Yaml, run: seq<Event>, p: nat)
    requires Clean(doc) && Jobs(doc).Some? && IsRun(Jobs(doc).value, run) && p < |run|
    requires Uploads(Jobs(doc).value, run[p])
    ensures Produced(Jobs(doc).value, run, run[p].job, p)
  {
    var jobs, k := Jobs(doc).value, run[p].job;
    var packaging := BuildJobInOrder(doc, k);
    var job := jobs[k];
    var build, bundle, package := Stage(job, packaging, 0).value, Stage(job, packaging, 1).value,
      Stage(job, packaging, 2).value;
    assert Stage(job, packaging, 3).value <= run[p].step;
    assert build < bundle by { assert Stage(job, packaging, 0).value < Stage(job, packaging, 0 + 1).value; }
    assert bundle < package by { assert Stage(job, packaging, 1).value < Stage(job, packaging, 1 + 1).value; }
    assert package < run[p].step by { assert Stage(job, packaging, 2).value < Stage(job, packaging, 2 + 1).value; }
    EarlierSteps(jobs, run, p, build);
    EarlierSteps(jobs, run, p, bundle);
    EarlierSteps(jobs, run, p, package);
    assert ProducedBy(jobs, run, k, p, build, bundle, package);
  }

  /** A clean workflow has one job that can release, and nothing is wrong with it. */
  lemma OnlyRelease(doc: Yaml, j: nat)
    requires Clean(doc) && Jobs(doc).Some? && j < |Jobs(doc).value| && IsPublishJob(Jobs(doc).value[j])
    ensures var jobs := Jobs(doc).value; forall v :: !PublishBroken(jobs[j], BuildJobs(jobs), v)
  {
    var jobs := Jobs(doc).value;
    OnlyOne(doc, j);
    forall v ensures !PublishBroken(jobs[j], BuildJobs(jobs), v) {
      assert !Broken(doc, v);
    }
  }

  lemma OnlyOne(doc: Yaml, j: nat)
    requires Clean(doc) && Jobs(doc).Some? && j < |Jobs(doc).value| && IsPublishJob(Jobs(doc).value[j])
    ensures PublishJobs(Jobs(doc).value) == [Jobs(doc).value[j]]
  {
    OnlyPublisher(Jobs(doc).value, j);
    NotMany(doc);
  }

  lemma NotMany(doc: Yaml)
    requires Clean(doc) && Jobs(doc).Some?
    ensures |PublishJobs(Jobs(doc).value)| <= 1
  {
    assert !Broken(doc, ManyReleases);
  }

  /** Every upload of a workflow that passes fails when there is nothing to upload, and takes nothing from
      outside `target/`: each line of its path that is not blank starts there. */
  lemma UploadsAreBuilt(doc: Yaml, j: nat, u: nat)
    requires Clean(doc) && Jobs(doc).Some? && Uploads(Jobs(doc).value, Step(j, u))
    ensures var step := Steps(Jobs(doc).value[j])[u];
            && Get(step, "with").Some? && StrAt(Get(step, "with").value, "if-no-files-found") == Some("error")
            && WithPath(step).Some?
            && var lines := Lines(WithPath(step).value);
               forall i :: 0 <= i < |lines| && Trim(lines[i]) != "" ==> "target/" <= Trim(lines[i])
  {
    var jobs := Jobs(doc).value;
    var job, step := jobs[j], Steps(jobs[j])[u];
    forall v ensures !UploadBroken(job.id, step, v) {
      UploadIsFine(doc, j, u, v);
    }
    assert !UploadBroken(job.id, step, UploadWithoutWith(job.id));
    assert !UploadBroken(job.id, step, MissingFilesAllowed(job.id));
    assert !UploadBroken(job.id, step, UploadWithoutPath(job.id));
    var lines := Lines(WithPath(step).value);
    forall i | 0 <= i < |lines| && Trim(lines[i]) != "" ensures "target/" <= Trim(lines[i]) {
      PathLinesAre(lines, Trim(lines[i]));
      assert !UploadBroken(job.id, step, UploadOutsideTarget(job.id, Trim(lines[i])));
    }
  }

  lemma UploadIsFine(doc: Yaml, j: nat, u: nat, v: Violation)
    requires Clean(doc) && Jobs(doc).Some? && Uploads(Jobs(doc).value, Step(j, u))
    ensures !UploadBroken(Jobs(doc).value[j].id, Steps(Jobs(doc).value[j])[u], v)
  {
    var jobs := Jobs(doc).value;
    var packaging := BuildJobInOrder(doc, j);
    var b :| 0 <= b < |BuildJobs(jobs)| && BuildJobs(jobs)[b] == jobs[j];
    BuildIsFine(doc, jobs, b, v);
    NoUploadBroken(jobs[j], packaging, u, v);
  }

  lemma NoUploadBroken(job: Job, packaging: string, u: nat, v: Violation)
    requires !BuildBroken(job, v) && RunsOn(job).Some? && Packaging(RunsOn(job).value) == Some(packaging)
    requires u < |Steps(job)| && Uses(Steps(job)[u], UPLOAD)
    ensures !UploadBroken(job.id, Steps(job)[u], v)
  {
  }

  lemma {:induction false} BuildIsFine(doc: Yaml, jobs: seq<Job>, b: nat, v: Violation)
    requires Clean(doc) && Jobs(doc) == Some(jobs) && b < |BuildJobs(jobs)|
    ensures !BuildBroken(BuildJobs(jobs)[b], v)
  {
    assert !Broken(doc, v);
  }

  /** The one job that can release needs every build job, and is none of them. */
  lemma ReleaseJob(doc: Yaml, j: nat)
    requires Clean(doc) && Jobs(doc).Some? && j < |Jobs(doc).value| && IsPublishJob(Jobs(doc).value[j])
    ensures var jobs := Jobs(doc).value;
            && !IsBuildJob(jobs[j])
            && (forall k :: 0 <= k < |jobs| && IsBuildJob(jobs[k]) ==> jobs[k].id in Needs(jobs[j]))
            && forall v :: !PublishBroken(jobs[j], BuildJobs(jobs), v)
  {
    var jobs := Jobs(doc).value;
    var builds := BuildJobs(jobs);
    OnlyRelease(doc, j);
    assert !PublishBroken(jobs[j], builds, PublishUploads);
    forall k | 0 <= k < |jobs| && IsBuildJob(jobs[k]) ensures jobs[k].id in Needs(jobs[j]) {
      var b :| 0 <= b < |builds| && builds[b] == jobs[k];
      assert !PublishBroken(jobs[j], builds, DoesNotNeed(jobs[k].id));
    }
  }

  lemma {:induction false} OnlyPublisher(jobs: seq<Job>, j: nat)
    requires j < |jobs| && IsPublishJob(jobs[j])
    ensures jobs[j] in PublishJobs(jobs)
  {
    if j > 0 { OnlyPublisher(jobs[1..], j - 1); }
  }

  /** In every run of a workflow that passes, when a release is created every step of every build job
      has been done; so every upload has happened, and what it uploads was produced by its own job. */
  lemma ReleaseIsLast(doc: Yaml, run: seq<Event>, p: nat, k: nat, u: nat)
    requires Clean(doc) && Jobs(doc).Some? && IsRun(Jobs(doc).value, run) && p < |run|
    requires Releases(Jobs(doc).value, run[p])
    requires Uploads(Jobs(doc).value, Step(k, u))
    ensures HappensBefore(run, Step(k, u), p)
    ensures Produced(Jobs(doc).value, run, k, p)
  {
    var jobs := Jobs(doc).value;
    ReleaseJob(doc, run[p].job);
    assert IsBuildJob(jobs[k]);
    NeededSteps(jobs, run, p, k, u);
    var q :| 0 <= q < p && q < |run| && run[q] == Step(k, u);
    UploadIsProduced(doc, run, q);
    StillProduced(jobs, run, k, q, p);
  }

  lemma StillProduced(jobs: seq<Job>, run: seq<Event>, k: nat, q: nat, p: nat)
    requires k < |jobs| && q <= p && Produced(jobs, run, k, q)
    ensures Produced(jobs, run, k, p)
  {
    var build: nat, bundle: nat, package: nat :| ProducedBy(jobs, run, k, q, build, bundle, package);
    StillBefore(run, Step(k, build), q, p);
    StillBefore(run, Step(k, bundle), q, p);
    StillBefore(run, Step(k, package), q, p);
    assert ProducedBy(jobs, run, k, p, build, bundle, package);
  }

  lemma StillBefore(run: seq<Event>, e: Event, q: nat, p: nat)
    requires q <= p && HappensBefore(run, e, q)
    ensures HappensBefore(run, e, p)
  {
  }

  /** Every step of the releasing job, in any run, takes nothing from outside this run: no checkout, no
      upload, no build command, no repository path, no artifact of another run or repository. */
  lemma ReleaseTakesNothingElse(doc: Yaml, run: seq<Event>, p: nat, q: nat)
    requires Clean(doc) && Jobs(doc).Some? && IsRun(Jobs(doc).value, run) && p < |run| && q < |run|
    requires Releases(Jobs(doc).value, run[p]) && run[q].Step? && run[q].job == run[p].job
    ensures var jobs := Jobs(doc).value;
            run[q].step < |Steps(jobs[run[q].job])| &&
            var step := Steps(jobs[run[q].job])[run[q].step];
            && !Uses(step, CHECKOUT) && !Uses(step, UPLOAD)
            && (forall i :: 0 <= i < |BUILD_COMMANDS| ==> !RunContains(step, BUILD_COMMANDS[i]))
            && (forall i :: 0 <= i < |REPOSITORY_PATHS| ==> !RunContains(step, REPOSITORY_PATHS[i]))
            && (Uses(step, DOWNLOAD) && Get(step, "with").Some? ==>
                  forall i :: 0 <= i < |FOREIGN_INPUTS| ==> Get(Get(step, "with").value, FOREIGN_INPUTS[i]).None?)
  {
    var jobs, j := Jobs(doc).value, run[p].job;
    var builds := BuildJobs(jobs);
    ReleaseJob(doc, j);
    EventWasEnabled(jobs, run, q);
    var steps, n := Steps(jobs[j]), run[q].step;
    var step := steps[n];
    assert !PublishBroken(jobs[j], builds, PublishChecksOut);
    forall i | 0 <= i < |BUILD_COMMANDS| ensures !RunContains(step, BUILD_COMMANDS[i]) {
      assert !PublishBroken(jobs[j], builds, PublishBuilds(BUILD_COMMANDS[i]));
      assert !RunBroken(steps[n], PublishBuilds(BUILD_COMMANDS[i]));
    }
    forall i | 0 <= i < |REPOSITORY_PATHS| ensures !RunContains(step, REPOSITORY_PATHS[i]) {
      assert !PublishBroken(jobs[j], builds, PublishNames(REPOSITORY_PATHS[i]));
      assert !RunBroken(steps[n], PublishNames(REPOSITORY_PATHS[i]));
    }
    if Uses(step, DOWNLOAD) && Get(step, "with").Some? {
      forall i | 0 <= i < |FOREIGN_INPUTS| ensures Get(Get(step, "with").value, FOREIGN_INPUTS[i]).None? {
        assert !PublishBroken(jobs[j], builds, ForeignInput(FOREIGN_INPUTS[i]));
        assert !DownloadBroken(steps[n], ForeignInput(FOREIGN_INPUTS[i]));
      }
    }
  }
}
