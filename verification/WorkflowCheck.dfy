/** The clause-3 checks themselves: loops that push the violations they find. */
module WorkflowCheck {
  import opened Text
  import opened Yaml
  import opened Workflow

  method CheckUpload(id: string, step: Yaml) returns (violations: seq<Violation>)
    ensures forall v :: v in violations <==> UploadBroken(id, step, v)
  {
    violations := [];
    var with := Get(step, "with");
    if with.None? {
      return [UploadWithoutWith(id)];
    }
    if StrAt(with.value, "if-no-files-found") != Some("error") {
      violations := violations + [MissingFilesAllowed(id)];
    }
    var path := StrAt(with.value, "path");
    if path.None? {
      violations := violations + [UploadWithoutPath(id)];
      return;
    }
    var paths := PathLines(Lines(path.value));
    ghost var before := violations;
    for i := 0 to |paths|
      invariant forall v :: v in violations <==>
        v in before || (exists k :: 0 <= k < i && !("target/" <= paths[k]) && v == UploadOutsideTarget(id, paths[k]))
    {
      if !("target/" <= paths[i]) {
        violations := violations + [UploadOutsideTarget(id, paths[i])];
      }
    }
    forall v
      ensures v in violations <==> UploadBroken(id, step, v)
    {
      if v.UploadOutsideTarget? && v.path in paths {
        var k :| 0 <= k < |paths| && paths[k] == v.path;
      }
    }
  }

  method CheckBuildJob(job: Job) returns (violations: seq<Violation>)
    ensures forall v :: v in violations <==> BuildBroken(job, v)
  {
    var runner := RunsOn(job);
    if runner.None? {
      return [NoRunner(job.id)];
    }
    var packaging := Packaging(runner.value);
    if packaging.None? {
      return [UnknownRunner(job.id)];
    }
    violations := CheckStages(job, packaging.value);
    ghost var before := violations;
    var steps := Steps(job);
    for i := 0 to |steps|
      invariant forall v :: v in violations <==>
        v in before || exists k :: 0 <= k < i && Uses(steps[k], UPLOAD) && UploadBroken(job.id, steps[k], v)
    {
      if Uses(steps[i], UPLOAD) {
        var more := CheckUpload(job.id, steps[i]);
        violations := violations + more;
      }
    }
  }

  method CheckStages(job: Job, packaging: string) returns (violations: seq<Violation>)
    ensures forall v :: v in violations <==>
      || (v == OutOfOrder(job.id) && AllStages(job, packaging) && !InOrder(job, packaging))
      || (exists k :: 0 <= k < 4 && Stage(job, packaging, k).None? && v == MissingStep(job.id, StageName(packaging, k)))
  {
    violations := [];
    var build, bundle := Stage(job, packaging, 0), Stage(job, packaging, 1);
    var package, upload := Stage(job, packaging, 2), Stage(job, packaging, 3);
    if build.Some? && bundle.Some? && package.Some? && upload.Some? {
      if !(build.value < bundle.value && bundle.value < package.value && package.value < upload.value) {
        violations := [OutOfOrder(job.id)];
      }
    } else {
      for k := 0 to 4
        invariant forall v :: v in violations <==>
          exists j :: 0 <= j < k && Stage(job, packaging, j).None? && v == MissingStep(job.id, StageName(packaging, j))
      {
        if Stage(job, packaging, k).None? {
          violations := violations + [MissingStep(job.id, StageName(packaging, k))];
        }
      }
    }
  }

  method CheckDownload(step: Yaml) returns (violations: seq<Violation>)
    ensures forall v :: v in violations <==> DownloadBroken(step, v)
  {
    violations := [];
    var with := Get(step, "with");
    for k := 0 to |FOREIGN_INPUTS|
      invariant forall v :: v in violations <==>
        v.ForeignInput? && v.input in FOREIGN_INPUTS[..k] && with.Some? && Get(with.value, v.input).Some?
    {
      if with.Some? && Get(with.value, FOREIGN_INPUTS[k]).Some? {
        violations := violations + [ForeignInput(FOREIGN_INPUTS[k])];
      }
    }
    assert FOREIGN_INPUTS[..|FOREIGN_INPUTS|] == FOREIGN_INPUTS;
    if WithPath(step).None? {
      violations := violations + [DownloadWithoutPath];
    }
  }

  method CheckRun(step: Yaml) returns (violations: seq<Violation>)
    ensures forall v :: v in violations <==> RunBroken(step, v)
  {
    violations := [];
    for k := 0 to |BUILD_COMMANDS|
      invariant forall v :: v in violations <==>
        v.PublishBuilds? && v.command in BUILD_COMMANDS[..k] && RunContains(step, v.command)
    {
      if RunContains(step, BUILD_COMMANDS[k]) {
        violations := violations + [PublishBuilds(BUILD_COMMANDS[k])];
      }
    }
    assert BUILD_COMMANDS[..|BUILD_COMMANDS|] == BUILD_COMMANDS;
    for k := 0 to |REPOSITORY_PATHS|
      invariant forall v :: v in violations <==>
        || (v.PublishBuilds? && v.command in BUILD_COMMANDS && RunContains(step, v.command))
        || (v.PublishNames? && v.path in REPOSITORY_PATHS[..k] && RunContains(step, v.path))
    {
      if RunContains(step, REPOSITORY_PATHS[k]) {
        violations := violations + [PublishNames(REPOSITORY_PATHS[k])];
      }
    }
    assert REPOSITORY_PATHS[..|REPOSITORY_PATHS|] == REPOSITORY_PATHS;
  }

  method CheckNeeds(publish: Job, builds: seq<Job>) returns (violations: seq<Violation>)
    ensures forall v :: v in violations <==>
      v.DoesNotNeed? && v.build !in Needs(publish) && exists i :: 0 <= i < |builds| && builds[i].id == v.build
  {
    violations := [];
    for i := 0 to |builds|
      invariant forall v :: v in violations <==>
        v.DoesNotNeed? && v.build !in Needs(publish) && exists k :: 0 <= k < i && builds[k].id == v.build
    {
      if builds[i].id !in Needs(publish) {
        violations := violations + [DoesNotNeed(builds[i].id)];
      }
    }
  }

  /** The three one-off rules of the publish job that come before its steps are read. */
  method CheckShape(publish: Job) returns (violations: seq<Violation>)
    ensures forall v :: v in violations <==>
      || (v == PublishUploads && IsBuildJob(publish))
      || (v == PublishChecksOut && IndexOfUses(publish, CHECKOUT).Some?)
      || (v == NoDownload && IndexOfUses(publish, DOWNLOAD).None?)
  {
    violations := [];
    if IsBuildJob(publish) {
      violations := violations + [PublishUploads];
    }
    if IndexOfUses(publish, CHECKOUT).Some? {
      violations := violations + [PublishChecksOut];
    }
    if IndexOfUses(publish, DOWNLOAD).None? {
      violations := violations + [NoDownload];
    }
  }

  method CheckPublishJob(publish: Job, builds: seq<Job>) returns (violations: seq<Violation>)
    ensures forall v :: v in violations <==> PublishBroken(publish, builds, v)
  {
    var steps := Steps(publish);
    var needs := CheckNeeds(publish, builds);
    var shape := CheckShape(publish);
    var downloads: seq<Violation> := [];
    for i := 0 to |steps|
      invariant forall v :: v in downloads <==>
        exists k :: 0 <= k < i && Uses(steps[k], DOWNLOAD) && DownloadBroken(steps[k], v)
    {
      if Uses(steps[i], DOWNLOAD) {
        var more := CheckDownload(steps[i]);
        downloads := downloads + more;
      }
    }
    var runs: seq<Violation> := [];
    for i := 0 to |steps|
      invariant forall v :: v in runs <==> exists k :: 0 <= k < i && RunBroken(steps[k], v)
    {
      var more := CheckRun(steps[i]);
      runs := runs + more;
    }
    var release := IndexOfRun(publish, RELEASE);
    var sources: seq<Violation> := [];
    if release.Some? && !DrawsOn(publish, steps[release.value]) {
      sources := [NotFromDownloads];
    }
    violations := needs + shape + downloads + runs + sources;
  }

  /** Exactly one job may release. */
  method CheckPublishers(publishers: seq<Job>, builds: seq<Job>) returns (violations: seq<Violation>)
    ensures forall v :: v in violations <==>
      || (v == NoRelease && publishers == [])
      || (v == ManyReleases && |publishers| > 1)
      || (|publishers| == 1 && PublishBroken(publishers[0], builds, v))
  {
    if |publishers| == 1 {
      violations := CheckPublishJob(publishers[0], builds);
    } else if publishers == [] {
      violations := [NoRelease];
    } else {
      violations := [ManyReleases];
    }
  }

  method CheckBuilds(builds: seq<Job>) returns (violations: seq<Violation>)
    ensures forall v :: v in violations <==> exists k :: 0 <= k < |builds| && BuildBroken(builds[k], v)
  {
    violations := [];
    for i := 0 to |builds|
      invariant forall v :: v in violations <==> exists k :: 0 <= k < i && BuildBroken(builds[k], v)
    {
      var more := CheckBuildJob(builds[i]);
      violations := violations + more;
    }
  }

  method Clause3(doc: Yaml) returns (violations: seq<Violation>)
    ensures forall v :: v in violations <==> Broken(doc, v)
  {
    var found := Jobs(doc);
    if found.None? {
      return [NoJobs];
    }
    var builds, publishers := BuildJobs(found.value), PublishJobs(found.value);
    violations := [];
    if builds == [] {
      violations := violations + [NothingBuilt];
    }
    var release := CheckPublishers(publishers, builds);
    var build := CheckBuilds(builds);
    violations := violations + release + build;
  }
}
