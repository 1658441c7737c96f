/** Whole calls as runs: the sections of a check and of a download, one after another, with nothing in between. */
module Calls {
  import opened Common
  import opened Disk
  import opened Download
  import opened Fetch
  import opened Lifecycle
  import opened LifecycleSafety
  import opened LifecycleTheorems
  import opened Manifests
  import opened Mirrors
  import opened Target
  import SemVer

  /** `s` with the process and the directory a call leaves behind. */
  ghost predicate Leaves(config: Config, s: System, events: seq<Event>, after: System, core: Core, files: Files,
                         threads: map<nat, Thread>)
  {
    Run(config, s, events) == Some(after) && after.core == core && after.files == files && after.threads == threads &&
    after.applied == s.applied && s.attested <= after.attested && s.cancelled <= after.cancelled
  }

  lemma LeavesOn(config: Config, s: System, events: seq<Event>, t: System, more: seq<Event>, after: System)
    requires Leaves(config, s, events, t, t.core, t.files, t.threads)
    requires Leaves(config, t, more, after, after.core, after.files, after.threads)
    ensures Leaves(config, s, events + more, after, after.core, after.files, after.threads)
  {
    hide Run;
    RunOn(config, s, events, t, more);
  }

  // ---- Check --------------------------------------------------------------------------------------------------

  /** What resolving a release leaves: on success the mirror is remembered and the record written. */
  function Resolved(config: Config, c: Core, files: Files, fetched: Result<Manifests.Fetched, Error>, now: string,
                    write: Write): (Core, Files)
  {
    match CheckLatest(c.version, fetched)
    case Err(_) => (c, files)
    case Ok(release) =>
      var c' := RememberMirror(c, release, now);
      (c', WriteMemory(config, files, c'.memory, write))
  }

  lemma CheckRuns(config: Config, s: System, i: nat, spawned: nat, manual: bool, fetched: Result<Manifests.Fetched, Error>,
                  now: string, write: Write, ended: string, policy: Policy, write': Write)
    returns (events: seq<Event>, after: System)
    requires i !in s.threads && spawned !in s.threads && spawned != i
    requires BeginCheck(s.core).1 == Entered && Answers(fetched)
    ensures var (c, files) := Resolved(config, BeginCheck(s.core).0, s.files, fetched, now, write);
            var (c', unasked) := FinishCheck(c, CheckLatest(s.core.version, fetched), manual, ended, policy);
            Leaves(config, s, events, after, c', WriteMemory(config, files, c'.memory, write'),
                   if unasked.Some? then s.threads[spawned := Requested(unasked.value)] else s.threads)
  {
    hide Run, CheckLatest, RememberMirror, WriteMemory, FinishCheck, Answers, FetchStep, SemVer.Newer, IsDevelopment;
    var s1 := DoStartCheck(s, i, manual);
    var s2 := DoAnswerCheck(config, s1, i, manual, fetched, now, write);
    after := DoEndCheck(config, s2, i, manual, CheckLatest(s.core.version, fetched), ended, policy, spawned, write');
    RunNothing(config, s);
    RunThen(config, s, [], s, StartCheck(i, manual), s1);
    RunThen(config, s, [] + [StartCheck(i, manual)], s1, AnswerCheck(i, fetched, now, write), s2);
    events := [] + [StartCheck(i, manual)] + [AnswerCheck(i, fetched, now, write)];
    RememberedVersion(s1.core);
    RunThen(config, s, events, s2, EndCheck(i, ended, policy, spawned, write'), after);
    events := events + [EndCheck(i, ended, policy, spawned, write')];
    assert s2.threads - {i} == s.threads;
  }

  lemma RememberedVersion(c: Core)
    ensures forall release, now :: RememberMirror(c, release, now).version == c.version
  {
  }

  /** The first half of a download nobody named a release for. */
  lemma ResolveRuns(config: Config, s: System, i: nat, fetched: Result<Manifests.Fetched, Error>, now: string, write: Write)
    returns (events: seq<Event>, after: System)
    requires i !in s.threads && Answers(fetched)
    ensures var (c, files) := Resolved(config, s.core, s.files, fetched, now, write);
            match CheckLatest(s.core.version, fetched)
            case Err(error) => Leaves(config, s, events, after, SetError(c, StepDownload, error), files, s.threads)
            case Ok(release) =>
              Leaves(config, s, events, after, c, files,
                     if release.status == Available then s.threads[i := Requested(release)] else s.threads)
  {
    hide Run, CheckLatest, RememberMirror, WriteMemory, Answers;
    var s1 := With(s, i, Resolving);
    after := DoResolve(config, s1, i, fetched, now, write);
    RunNothing(config, s);
    RunThen(config, s, [], s, AskDownload(i), s1);
    RunThen(config, s, [] + [AskDownload(i)], s1, ResolveDownload(i, fetched, now, write), after);
    events := [] + [AskDownload(i)] + [ResolveDownload(i, fetched, now, write)];
    assert s1.threads - {i} == s.threads;
    if CheckLatest(s.core.version, fetched).Ok? {
      var requested := Requested(CheckLatest(s.core.version, fetched).value);
      assert s1.threads[i := requested] == s.threads[i := requested];
    }
  }

  // ---- Install, skip ----------------------------------------------------------------------------------------

  /** `s` with the process and the directory an install leaves behind, and what it opened. */
  ghost predicate Installs(config: Config, s: System, events: seq<Event>, after: System, core: Core, files: Files,
                           taken: seq<Applied>)
  {
    Run(config, s, events) == Some(after) && after.core == core && after.files == files && after.threads == s.threads &&
    after.applied == s.applied + taken
  }

  /** What is opened of a package that is ready. */
  function Opened(s: System): Applied
    requires s.core.memory.readyPath in s.files
  {
    Applied(s.core.version, s.core.memory.readyVersion, s.core.memory.readyPath, s.files[s.core.memory.readyPath])
  }

  /** An install that is asked for, or one on quitting, when Apply fails. */
  lemma FailedInstallRuns(config: Config, s: System, i: nat, relaunch: bool, error: Error)
    returns (events: seq<Event>, after: System)
    requires i !in s.threads && IsReady(s.core)
    ensures Installs(config, s, events, after, if relaunch then FailInstall(BeginInstall(s.core), error) else s.core, s.files, [])
  {
    hide Run, Step, IsReady, BeginInstall, FailInstall, WriteMemory, ForgetReady;
    var s1;
    events, s1 := InstallBegins(config, s, i, relaunch);
    after := DoEndInstall(config, s1, i, relaunch, Some(error), false, Kept);
    EndsInstall(config, s1, i, Some(error), false, Kept);
    RunThen(config, s, events, s1, EndInstall(i, Some(error), false, Kept), after);
    events := events + [EndInstall(i, Some(error), false, Kept)];
    assert after.threads == s.threads;
  }

  /** And when it succeeds. */
  lemma InstallRuns(config: Config, s: System, i: nat, relaunch: bool, removed: bool, write: Write)
    returns (events: seq<Event>, after: System)
    requires i !in s.threads && IsReady(s.core) && s.core.memory.readyPath in s.files
    ensures var c := ForgetReady(if relaunch then BeginInstall(s.core) else s.core);
            Installs(config, s, events, after, c,
                     WriteMemory(config, Remove(s.files, s.core.memory.readyPath, removed), c.memory, write), [Opened(s)])
  {
    hide Run, Step, IsReady, BeginInstall, FailInstall, WriteMemory, ForgetReady;
    var s1;
    events, s1 := InstallBegins(config, s, i, relaunch);
    var s2 := DoOpenPackage(s1, i, s1.threads[i]);
    OpensPackage(config, s1, i);
    RunThen(config, s, events, s1, OpenPackage(i), s2);
    events := events + [OpenPackage(i)];
    after := DoEndInstall(config, s2, i, relaunch, None, removed, write);
    EndsInstall(config, s2, i, None, removed, write);
    RunThen(config, s, events, s2, EndInstall(i, None, removed, write), after);
    events := events + [EndInstall(i, None, removed, write)];
    assert after.threads == s.threads;
  }

  lemma OpensPackage(config: Config, s: System, i: nat)
    requires i in s.threads && s.threads[i].Applying? && s.threads[i].path in s.files
    ensures Step(config, s, OpenPackage(i)) == Some(DoOpenPackage(s, i, s.threads[i]))
  {
    hide DoOpenPackage;
  }

  lemma EndsInstall(config: Config, s: System, i: nat, failure: Option<Error>, removed: bool, write: Write)
    requires i in s.threads && s.threads[i].Applying? && (failure.None? ==> s.threads[i].content.Some?)
    ensures Step(config, s, EndInstall(i, failure, removed, write)) ==
            Some(DoEndInstall(config, s, i, s.threads[i].relaunch, failure, removed, write))
  {
    hide DoEndInstall;
  }

  lemma InstallBegins(config: Config, s: System, i: nat, relaunch: bool) returns (events: seq<Event>, after: System)
    requires i !in s.threads && IsReady(s.core)
    ensures Run(config, s, events) == Some(after)
    ensures var c := if relaunch then BeginInstall(s.core) else s.core;
            after == With(s, i, Applying(s.core.memory.readyPath, s.core.memory.readyVersion, relaunch, None)).(core := c) &&
            c.memory == s.core.memory && c.version == s.core.version
  {
    hide Run;
    var start := if relaunch then StartInstall(i) else StartQuitInstall(i, PolicyAuto);
    after := Do(config, s, start);
    RunNothing(config, s);
    RunThen(config, s, [], s, start, after);
    events := [] + [start];
  }

  // ---- Download -----------------------------------------------------------------------------------------------

  /** The state after showing all of this. */
  function ShowAll(c: Core, shown: seq<Shown>): Core {
    if shown == [] then c
    else
      var before := ShowAll(c, shown[..|shown| - 1]);
      match shown[|shown| - 1]
      case Tried(mirror) => TryMirror(before, mirror)
      case Reported(done, total) => Progress(before, done, total)
  }

  lemma {:induction false} ShowAllKeeps(c: Core, shown: seq<Shown>)
    ensures var c' := ShowAll(c, shown);
            c'.location == c.location && c'.memory == c.memory && c'.cancel == c.cancel && c'.busy == c.busy &&
            c'.version == c.version && c'.nextContext == c.nextContext && c'.state.phase == c.state.phase &&
            c'.state.error == c.state.error && c'.state.failedStep == c.state.failedStep &&
            c'.state.latestVersion == c.state.latestVersion && c'.state.notes == c.state.notes &&
            c'.state.publishedAt == c.state.publishedAt && c.published <= c'.published
  {
    if shown != [] {
      ShowAllKeeps(c, shown[..|shown| - 1]);
    }
  }

  lemma {:induction false} ShowingRuns(config: Config, s: System, i: nat, shown: seq<Shown>) returns (events: seq<Event>)
    requires i in s.threads && s.threads[i].Fetching?
    ensures Run(config, s, events) == Some(s.(core := ShowAll(s.core, shown)))
  {
    hide Run, TryMirror, Progress;
    if shown == [] {
      events := [];
      RunNothing(config, s);
    } else {
      var init, last := shown[..|shown| - 1], shown[|shown| - 1];
      events := ShowingRuns(config, s, i, init);
      var before := s.(core := ShowAll(s.core, init));
      var event := match last
        case Tried(mirror) => FetchFrom(i, mirror)
        case Reported(done, total) => FetchReports(i, done, total);
      RunThen(config, s, events, before, event, s.(core := ShowAll(s.core, shown)));
      events := events + [event];
    }
  }

  /** Someone cancels the download in flight, when that is how it ends. */
  lemma CancelRuns(config: Config, s: System, j: nat, canceled: bool) returns (events: seq<Event>, after: System)
    requires j !in s.threads && s.core.cancel.Some?
    ensures Run(config, s, events) == Some(after)
    ensures after == s.(cancelled := after.cancelled) && s.cancelled <= after.cancelled
    ensures canceled ==> s.core.cancel.value in after.cancelled
  {
    hide Run;
    RunNothing(config, s);
    if canceled {
      var s1 := With(s, j, Cancelling(s.core.cancel));
      after := DoFireCancel(s1, j, s.core.cancel);
      RunThen(config, s, [], s, ReadCancel(j), s1);
      RunThen(config, s, [] + [ReadCancel(j)], s1, FireCancel(j), after);
      events := [] + [ReadCancel(j)] + [FireCancel(j)];
      assert s1.threads - {j} == s.threads;
    } else {
      events, after := [], s;
    }
  }

  /** A fetch at work, to its end: what it wrote, what it showed, a cancellation if there was one, its outcome. */
  lemma FetchRuns(config: Config, s: System, i: nat, j: nat, trace: seq<Files>, from: nat, at: Attempt, shown: seq<Shown>,
                  r: Result<string, Error>) returns (events: seq<Event>, after: System)
    requires i in s.threads && s.threads[i].Fetching? && s.threads[i].at == Idle && j !in s.threads
    requires s.core.cancel == Some(s.threads[i].context) && 0 < from <= |trace| && trace[from - 1] == s.files
    requires var release := s.threads[i].release;
             if PackageOf(s, release) in release.manifest.files then Reaches(JobFor(config, s, release), trace, from, at)
             else |trace| == from && at == Idle
    requires r.Ok? <==> at.Arrived?
    requires r.Ok? ==> r.value == config.PackagePath(s.core.location.target, s.threads[i].release.latestVersion)
    ensures Leaves(config, s, events, after, ShowAll(s.core, shown), trace[|trace| - 1],
                   s.threads[i := Thread.Fetched(s.threads[i].context, s.threads[i].release, r)])
    ensures after.owner == s.owner
  {
    hide Run, Reaches, ShowAll, IsCanceled, JobFor;
    var t := s.threads[i];
    var s1 := DoFetchWrites(s, i, t, trace[|trace| - 1], at);
    events := WritesRun(config, s, i, trace, from, at);
    var shows := ShowingRuns(config, s1, i, shown);
    var s2 := s1.(core := ShowAll(s1.core, shown));
    RunOn(config, s, events, s1, shows);
    events := events + shows;
    ShowAllKeeps(s1.core, shown);
    var cancels, s3 := CancelRuns(config, s2, j, r.Err? && IsCanceled(r.error));
    RunOn(config, s, events, s2, cancels);
    events := events + cancels;
    after := With(s3, i, Thread.Fetched(t.context, t.release, r));
    RunThen(config, s, events, s3, EndFetch(i, r), after);
    events := events + [EndFetch(i, r)];
    assert after.threads == s.threads[i := Thread.Fetched(t.context, t.release, r)];
  }

  lemma WritesRun(config: Config, s: System, i: nat, trace: seq<Files>, from: nat, at: Attempt) returns (events: seq<Event>)
    requires i in s.threads && s.threads[i].Fetching? && s.threads[i].at == Idle
    requires 0 < from <= |trace| && trace[from - 1] == s.files
    requires var release := s.threads[i].release;
             if PackageOf(s, release) in release.manifest.files then Reaches(JobFor(config, s, release), trace, from, at)
             else |trace| == from && at == Idle
    ensures Run(config, s, events) == Some(DoFetchWrites(s, i, s.threads[i], trace[|trace| - 1], at))
  {
    hide Run, Reaches, JobFor;
    if PackageOf(s, s.threads[i].release) in s.threads[i].release.manifest.files {
      events := TraceIsRun(config, s, i, trace, from, at);
    } else {
      events := [];
      RunNothing(config, s);
      assert s.threads[i := s.threads[i].(at := at)] == s.threads;
    }
  }

  lemma StartRuns(config: Config, s: System, i: nat, release: Release) returns (events: seq<Event>, after: System)
    requires i in s.threads && s.threads[i] == Requested(release) && BeginDownload(s.core, release).1 == Entered
    ensures Leaves(config, s, events, after, BeginDownload(s.core, release).0, s.files,
                   s.threads[i := Fetching(s.core.nextContext, release, Idle)])
  {
    hide Run, Lower, JobFor;
    after := DoStartDownload(config, s, i, release);
    RunNothing(config, s);
    RunThen(config, s, [], s, StartDownload(i), after);
    events := [] + [StartDownload(i)];
  }

  /** One that is turned away is over. */
  lemma RefusedRuns(config: Config, s: System, i: nat, release: Release) returns (events: seq<Event>, after: System)
    requires i in s.threads && s.threads[i] == Requested(release) && BeginDownload(s.core, release).1 != Entered
    ensures Leaves(config, s, events, after, BeginDownload(s.core, release).0, s.files, s.threads - {i})
  {
    hide Run, BeginDownload;
    after := DoStartDownload(config, s, i, release);
    RunNothing(config, s);
    RunThen(config, s, [], s, StartDownload(i), after);
    events := [] + [StartDownload(i)];
  }

  lemma EndRuns(config: Config, s: System, i: nat, release: Release, r: Result<string, Error>, write: Write)
    returns (events: seq<Event>, after: System)
    requires i in s.threads && s.threads[i].Fetched? && s.threads[i].release == release && s.threads[i].outcome == r
    ensures var c := FinishDownload(s.core, release, r);
            Leaves(config, s, events, after, ReleaseBusy(c),
                   if r.Ok? then WriteMemory(config, s.files, c.memory, write) else s.files, s.threads - {i})
  {
    hide Run, WriteMemory, FinishDownload, IsCanceled;
    var s1 := DoEndDownload(config, s, i, s.threads[i].context, release, r, write);
    after := DoGiveBack(s1, i);
    RunNothing(config, s);
    RunThen(config, s, [], s, EndDownload(i, write), s1);
    RunThen(config, s, [] + [EndDownload(i, write)], s1, GiveBack(i), after);
    events := [] + [EndDownload(i, write)] + [GiveBack(i)];
    assert s1.threads - {i} == s.threads - {i};
  }

  /** A download that is let in, from taking busy to giving it back. */
  lemma DownloadRuns(config: Config, s: System, i: nat, j: nat, release: Release, trace: seq<Files>, from: nat, at: Attempt,
                     shown: seq<Shown>, r: Result<string, Error>, write: Write)
    returns (events: seq<Event>, after: System)
    requires i in s.threads && s.threads[i] == Requested(release) && j !in s.threads
    requires BeginDownload(s.core, release).1 == Entered && 0 < from <= |trace| && trace[from - 1] == s.files
    requires if PackageOf(s, release) in release.manifest.files then Reaches(JobFor(config, s, release), trace, from, at)
             else |trace| == from && at == Idle
    requires r.Ok? <==> at.Arrived?
    requires r.Ok? ==> r.value == config.PackagePath(s.core.location.target, release.latestVersion)
    ensures var c := FinishDownload(ShowAll(BeginDownload(s.core, release).0, shown), release, r);
            Leaves(config, s, events, after, ReleaseBusy(c),
                   if r.Ok? then WriteMemory(config, trace[|trace| - 1], c.memory, write) else trace[|trace| - 1],
                   s.threads - {i})
  {
    var start, s1 := StartRuns(config, s, i, release);
    LocationIsSame(s.core, release);
    if PackageOf(s, release) in release.manifest.files {
      SameJob(config, s, s1, release);
    }
    hide Run, Reaches, ShowAll, WriteMemory, JobFor, FinishDownload, BeginDownload;
    var fetch, s2 := FetchRuns(config, s1, i, j, trace, from, at, shown, r);
    var end;
    end, after := EndRuns(config, s2, i, release, r, write);
    LeavesOn(config, s, start, s1, fetch, s2);
    LeavesOn(config, s, start + fetch, s2, end, after);
    events := start + fetch + end;
    assert after.threads == s.threads - {i};
  }

  lemma LocationIsSame(c: Core, release: Release)
    requires BeginDownload(c, release).1 == Entered
    ensures var c' := BeginDownload(c, release).0; c'.location == c.location && c'.cancel == Some(c.nextContext)
  {
  }
}
