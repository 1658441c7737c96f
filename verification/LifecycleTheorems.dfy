/** The promises of the update lifecycle, read off the invariant, and where one of them stops. */
module LifecycleTheorems {
  import opened Common
  import opened Disk
  import opened Download
  import opened Fetch
  import opened Lifecycle
  import opened LifecycleSafety
  import opened Manifests
  import opened Target
  import SemVer

  // ---- No downgrade, no reinstall ------------------------------------------------------------------------

  /** In every reachable state a ready package is recorded, is the release on display and is strictly newer than
      the running build; and so was every package Apply ever opened, whose bytes a manifest had vouched for. */
  lemma OnlyNewerIsReadyOrApplied(config: Config, version: string, location: Location, events: seq<Event>)
    requires config.Faithful() && Located(location) && Run(config, Launch(version, location), events).Some?
    ensures var s := Run(config, Launch(version, location), events).value;
            (s.core.state.phase == PhaseReady ==>
               s.core.memory.readyPath != "" && s.core.memory.readyVersion == s.core.state.latestVersion &&
               SemVer.Newer(s.core.version, s.core.memory.readyVersion)) &&
            (forall a | a in s.applied ::
               SemVer.Newer(a.running, a.version) && Named(config, a.path, a.version) &&
               (a.path, config.hash(a.content)) in s.attested) &&
            (forall state | state in s.core.published && state.phase == PhaseReady ::
               SemVer.Newer(s.core.version, state.latestVersion))
  {
    hide Run, SemVer.Newer, Named;
    LaunchIsOK(config, version, location);
    RunKeepsInv(config, Launch(version, location), events);
  }

  /** In every reachable state an install starts exactly when a package is shown as ready, and one on quitting only under
      the automatic policy; what it sets out to open is the recorded package of the release on display. */
  lemma InstallsStartExactly(config: Config, version: string, location: Location, events: seq<Event>, i: nat, policy: Policy)
    requires config.Faithful() && Located(location) && Run(config, Launch(version, location), events).Some?
    requires i !in Run(config, Launch(version, location), events).value.threads
    ensures var s := Run(config, Launch(version, location), events).value;
            var asked, quit := DoStartInstall(s, i), DoStartQuitInstall(s, i, policy);
            (i in asked.threads <==> s.core.state.phase == PhaseReady) &&
            (i in quit.threads <==> s.core.state.phase == PhaseReady && policy == PolicyAuto) &&
            (i in asked.threads ==>
               asked.core.state.phase == PhaseInstalling &&
               asked.threads[i] == Applying(s.core.memory.readyPath, s.core.state.latestVersion, true, None)) &&
            (i in quit.threads ==>
               quit.core == s.core &&
               quit.threads[i] == Applying(s.core.memory.readyPath, s.core.state.latestVersion, false, None))
  {
    hide Run, SemVer.Newer, Named, FilesOK, ThreadsOK, OwnerOK, AppliedOK, PartsOK;
    LaunchIsOK(config, version, location);
    RunKeepsInv(config, Launch(version, location), events);
  }

  // ---- One owner ------------------------------------------------------------------------------------------

  /** At most one Check or Download is between taking and releasing busy, so at most one thread ever writes a part
      file; and there is a cancel function exactly while a download owns busy, its own. */
  lemma OneOwner(config: Config, version: string, location: Location, events: seq<Event>)
    requires config.Faithful() && Located(location) && Run(config, Launch(version, location), events).Some?
    ensures var s := Run(config, Launch(version, location), events).value;
            (forall i, j | i in s.threads && j in s.threads && Owns(s.threads[i]) && Owns(s.threads[j]) :: i == j) &&
            (s.core.busy <==> exists i :: i in s.threads && Owns(s.threads[i])) &&
            (forall i | i in s.threads && Downloading(s.threads[i]) :: s.core.cancel == Some(s.threads[i].context)) &&
            (s.core.cancel.Some? ==> exists i :: i in s.threads && Downloading(s.threads[i]))
  {
    hide Run;
    LaunchIsOK(config, version, location);
    RunKeepsInv(config, Launch(version, location), events);
    var s := Run(config, Launch(version, location), events).value;
    hide CoreOK, FilesOK, ThreadsOK, AppliedOK;
    if s.owner.Some? {
      assert Owns(s.threads[s.owner.value]);
    }
  }

  // ---- Cancelling -------------------------------------------------------------------------------------------

  ghost predicate Retired(s: System, context: nat) {
    context < s.core.nextContext && forall i | i in s.threads && Downloading(s.threads[i]) :: s.threads[i].context != context
  }

  lemma StepKeepsRetired(config: Config, s: System, event: Event, context: nat)
    requires Retired(s, context) && Step(config, s, event).Some?
    ensures Retired(Step(config, s, event).value, context)
  {
    hide CheckLatest, SemVer.Newer, FetchStep, FetchMayEnd, Answers, WriteMemory, RememberMirror, JobFor, FinishCheck, BeginCheck,
      BeginDownload, FinishDownload, ReleaseBusy, BeginInstall, FailInstall, ForgetReady, Skip, TryMirror, Progress, SetError,
      Restore;
    ContextsGrow(config, s, event);
    RestoreStartsFrom(config, s);
  }

  lemma ContextsGrow(config: Config, s: System, event: Event)
    requires Step(config, s, event).Some?
    ensures s.core.nextContext <= Step(config, s, event).value.core.nextContext
  {
    hide CheckLatest, SemVer.Newer, FetchStep, FetchMayEnd, Answers, WriteMemory, ReadMemory, IsDevelopment, RememberMirror,
      JobFor, Restore, FinishCheck, FinishDownload;
    RememberMirrorHandsOutNothing(s.core);
    FinishHandsOutNothing(s.core);
    RestoreStartsFrom(config, s);
  }

  lemma RestoreStartsFrom(config: Config, s: System)
    ensures forall version, location, removed, write ::
              Restore(config, version, location, s.core.nextContext, s.files, removed, write).0.nextContext == s.core.nextContext
  {
    hide SemVer.Newer, WriteMemory, ReadMemory, IsDevelopment;
  }

  lemma FinishHandsOutNothing(c: Core)
    ensures forall answer, manual, now, policy :: FinishCheck(c, answer, manual, now, policy).0.nextContext == c.nextContext
    ensures forall release, outcome :: FinishDownload(c, release, outcome).nextContext == c.nextContext
  {
    hide IsDevelopment;
  }

  lemma RememberMirrorHandsOutNothing(c: Core)
    ensures forall release, now :: RememberMirror(c, release, now).nextContext == c.nextContext
  {
  }

  lemma {:induction false} RunKeepsRetired(config: Config, s: System, events: seq<Event>, context: nat)
    requires Retired(s, context) && Run(config, s, events).Some?
    ensures Retired(Run(config, s, events).value, context)
  {
    hide Step;
    if events != [] {
      RunKeepsRetired(config, s, events[..|events| - 1], context);
      StepKeepsRetired(config, Run(config, s, events[..|events| - 1]).value, events[|events| - 1], context);
    }
  }

  /** A cancel function read before its download ended can stop no later one, however long it is held: from then
      on no download runs under that context. */
  lemma StaleCancelIsHarmless(config: Config, s: System, events: seq<Event>, i: nat)
    requires Inv(config, s) && i in s.threads && s.threads[i].Cancelling? && s.threads[i].read.Some?
    requires s.core.cancel != s.threads[i].read
    requires Run(config, s, events).Some?
    ensures Retired(Run(config, s, events).value, s.threads[i].read.value)
  {
    hide Run;
    assert ThreadOK(config, s.core, s.attested, s.threads[i]);
    RunKeepsRetired(config, s, events, s.threads[i].read.value);
  }

  /** A download starts under a context nobody has cancelled or holds a cancel function for. */
  lemma DownloadStartsUncancelled(config: Config, s: System, i: nat, release: Release)
    requires Inv(config, s) && !s.core.busy && s.core.location.CanInstall()
    ensures var s' := DoStartDownload(config, s, i, release);
            s'.threads[i] == Fetching(s.core.nextContext, release, Idle) && s.core.nextContext !in s'.cancelled &&
            forall j | j in s'.threads && s'.threads[j].Cancelling? :: s'.threads[j].read != Some(s.core.nextContext)
  {
    hide CoreOK, FilesOK, AppliedOK, Lower;
    forall j | j in s.threads && s.threads[j].Cancelling? ensures s.threads[j].read != Some(s.core.nextContext) {
      assert ThreadOK(config, s.core, s.attested, s.threads[j]);
    }
  }

  // ---- Starting again ----------------------------------------------------------------------------------------

  /** In every reachable state, restarting as any build: the new process is Ready exactly when the record read back
      names an existing file of a newer version, shows that version, and the file has a digest a manifest gave for
      that very path; otherwise it is idle and no package is recorded. */
  lemma RestartDecides(config: Config, version: string, location: Location, events: seq<Event>, next: string,
                       place: Location, removed: bool, write: Write)
    requires config.Faithful() && Located(location) && Run(config, Launch(version, location), events).Some?
    ensures var s := Run(config, Launch(version, location), events).value;
            var memory := ReadMemory(config, s.files);
            var s' := DoRestart(config, s, next, place, removed, write);
            if memory.readyPath != "" && memory.readyPath in s.files && SemVer.Newer(next, memory.readyVersion)
            then s'.core.state.phase == PhaseReady && s'.core.state.latestVersion == memory.readyVersion &&
                 s'.core.memory == memory && s'.files == s.files &&
                 Named(config, memory.readyPath, memory.readyVersion) &&
                 (memory.readyPath, config.hash(s'.files[memory.readyPath])) in s'.attested
            else s'.core.state.phase == PhaseIdle && s'.core.memory.readyPath == "" &&
                 (memory.readyPath != "" ==> s'.core.memory == memory.(readyPath := "", readyVersion := ""))
  {
    hide Run, SemVer.Newer, ReadMemory, CoreOK, ThreadsOK, OwnerOK, AppliedOK, PartsOK, Named, IsDevelopment;
    LaunchIsOK(config, version, location);
    RunKeepsInv(config, Launch(version, location), events);
    var s := Run(config, Launch(version, location), events).value;
    var path := ReadMemory(config, s.files).readyPath;
    if path != "" && path in s.files {
      NamedPath(config, path, ReadMemory(config, s.files).readyVersion);
      assert FileOK(config, s.attested, path, s.files[path]);
    }
  }

  /** What else a restart does: it is a new process, showing what the record says; a package it does not take up is deleted
      and dropped from the record, as far as the disk lets it, and no other file is touched. */
  lemma RestartStartsAfresh(config: Config, version: string, location: Location, events: seq<Event>, next: string,
                            place: Location, removed: bool, write: Write)
    requires config.Faithful() && Located(location) && Run(config, Launch(version, location), events).Some?
    ensures var s := Run(config, Launch(version, location), events).value;
            var memory, s' := ReadMemory(config, s.files), DoRestart(config, s, next, place, removed, write);
            s'.core.version == next && s'.core.location == place && !s'.core.busy && s'.core.cancel == None &&
            s'.threads == map[] && s'.core.state.skipped == s'.core.memory.skipped == memory.skipped &&
            s'.core.state.checkedAt == memory.checkedAt &&
            (s'.core.state.phase != PhaseReady && memory.readyPath != "" ==>
               (removed ==> memory.readyPath !in s'.files) &&
               (write == Stored ==> ReadMemory(config, s'.files) == s'.core.memory)) &&
            forall path | path != memory.readyPath && path != config.MemoryPath() ::
              (path in s'.files <==> path in s.files) && (path in s.files ==> s'.files[path] == s.files[path])
  {
    hide Run, SemVer.Newer, ReadMemory, CoreOK, ThreadsOK, OwnerOK, AppliedOK, PartsOK, Named, IsDevelopment, WriteMemory;
    LaunchIsOK(config, version, location);
    RunKeepsInv(config, Launch(version, location), events);
    var s := Run(config, Launch(version, location), events).value;
    var memory := ReadMemory(config, s.files);
    if memory.readyPath != "" {
      NamedPath(config, memory.readyPath, memory.readyVersion);
      var files := Remove(s.files, memory.readyPath, removed);
      RecordReadsBack(config, files, ClearReady(memory), write);
      forall path | path != config.MemoryPath()
        ensures var after := WriteMemory(config, files, ClearReady(memory), write);
                (path in after <==> path in files) && (path in after ==> after[path] == files[path])
      {
        WriteLeavesOthers(config, files, ClearReady(memory), write, path);
      }
    }
  }

  /** Launching again from what a launch left behind, whatever failed on the way: the same decision, and the very
      same manager unless the record was cut short, in which case only the rest of the record is lost. */
  lemma RestoringTwiceIsRestoringOnce(config: Config, version: string, location: Location, n: nat, files: Files,
                                      removed: bool, write: Write, removed': bool, write': Write)
    requires config.Faithful()
    requires ReadMemory(config, files).readyPath != config.MemoryPath()
    ensures var (c, files') := Restore(config, version, location, n, files, removed, write);
            var (c', files'') := Restore(config, version, location, n, files', removed', write');
            c'.state.phase == c.state.phase && c'.memory.readyPath == c.memory.readyPath &&
            (c' == c || (files' != files && write.Torn? && c' == Fresh(version, location, NO_MEMORY, n))) &&
            (write == Stored ==> files'' == files')
  {
    hide SemVer.Newer, IsDevelopment;
    var memory := ReadMemory(config, files);
    if memory.readyPath != "" && !Restorable(version, memory, files) {
      var cleared := Remove(files, memory.readyPath, removed);
      assert ReadMemory(config, cleared) == memory;
      RecordReadsBack(config, cleared, ClearReady(memory), write);
    }
  }

  // ---- A fetch on its own ------------------------------------------------------------------------------------

  /** What Download and FetchPackage do to the directory, operation by operation, is what a fetching thread may do: a
      trace of theirs is a run of the lifecycle, and the thread ends as far as they say. */
  lemma {:induction false} TraceIsRun(config: Config, s: System, i: nat, trace: seq<Files>, from: nat, at: Attempt)
    returns (events: seq<Event>)
    requires i in s.threads && s.threads[i].Fetching? && s.threads[i].at == Idle
    requires PackageOf(s, s.threads[i].release) in s.threads[i].release.manifest.files
    requires Reaches(JobFor(config, s, s.threads[i].release), trace, from, at) && trace[from - 1] == s.files
    ensures Run(config, s, events) == Some(DoFetchWrites(s, i, s.threads[i], trace[|trace| - 1], at))
    decreases |trace|
  {
    hide Step, Run, FetchStep;
    var job, t := JobFor(config, s, s.threads[i].release), s.threads[i];
    if |trace| == from {
      events := [];
      RunNothing(config, s);
      assert s.threads[i := t.(at := Idle)] == s.threads;
    } else {
      var before :| LastStep(job, trace, before, at) && Reaches(job, trace[..|trace| - 1], from, before);
      var init := trace[..|trace| - 1];
      events := TraceIsRun(config, s, i, init, from, before);
      var s1 := DoFetchWrites(s, i, t, init[|init| - 1], before);
      FetchOnce(config, s, i, t, init[|init| - 1], before, trace[|trace| - 1], at);
      RunThen(config, s, events, s1, FetchWrites(i, trace[|trace| - 1], at),
              DoFetchWrites(s, i, t, trace[|trace| - 1], at));
      events := events + [FetchWrites(i, trace[|trace| - 1], at)];
    }
  }

  lemma FetchOnce(config: Config, s: System, i: nat, t: Thread, written: Files, before: Attempt, files: Files, at: Attempt)
    requires t.Fetching? && PackageOf(s, t.release) in t.release.manifest.files
    requires FetchStep(JobFor(config, s, t.release), written, before, files, at)
    ensures var s1 := DoFetchWrites(s, i, t, written, before);
            Step(config, s1, FetchWrites(i, files, at)) == Some(DoFetchWrites(s, i, t, files, at))
  {
    hide FetchStep;
    var s1 := DoFetchWrites(s, i, t, written, before);
    assert s1.threads[i] == t.(at := before);
    assert JobFor(config, s1, t.release) == JobFor(config, s, t.release);
    assert s1.threads[i := t.(at := at)] == s.threads[i := t.(at := at)];
  }

  /** And what FetchPackage returns is what such a thread may conclude, when a cancellation it met was this one's. */
  lemma FetchedMayEnd(config: Config, s: System, i: nat, job: Job, responses: seq<Response>, r: Result<string, Error>)
    requires i in s.threads && s.threads[i].Fetching?
    requires PackageOf(s, s.threads[i].release) in s.threads[i].release.manifest.files
    requires job == JobFor(config, s, s.threads[i].release)
    requires var t := s.threads[i];
             FetchedAs(job, t.release, t.release.manifest.files[PackageOf(s, t.release)], responses, s.files, false, r)
    requires s.threads[i].at == if r.Ok? then Arrived(s.files[job.target]) else Idle
    requires (exists k :: 0 <= k < |responses| && Cancels(job, responses[k])) ==> s.threads[i].context in s.cancelled
    ensures Lifecycle.Ready(config, s, EndFetch(i, r))
  {
  }

  /** Showing how far a fetch is touches nothing the fetch touches: in whichever order, the two end alike. */
  lemma ShowingCommutes(config: Config, s: System, i: nat, files: Files, at: Attempt, done: int, total: int)
    requires Lifecycle.Ready(config, s, FetchWrites(i, files, at))
    ensures var write, show := FetchWrites(i, files, at), FetchReports(i, done, total);
            Run(config, s, [write, show]).Some? && Run(config, s, [show, write]) == Run(config, s, [write, show])
  {
    hide Run, FetchStep;
    var write, show := FetchWrites(i, files, at), FetchReports(i, done, total);
    var written, shown := Do(config, s, write), Do(config, s, show);
    RunNothing(config, s);
    RunThen(config, s, [], s, write, written);
    RunThen(config, s, [] + [write], written, show, Do(config, written, show));
    RunThen(config, s, [], s, show, shown);
    RunThen(config, s, [] + [show], shown, write, Do(config, shown, write));
    assert [] + [write] + [show] == [write, show] && [] + [show] + [write] == [show, write];
  }
}
