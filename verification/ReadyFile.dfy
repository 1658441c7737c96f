/** Whether a package shown as ready is still on disk: when it is, and the one interleaving in which it is not. */
module ReadyFile {
  import opened Common
  import opened Disk
  import opened Download
  import opened Fetch
  import opened Lifecycle
  import opened LifecycleSafety
  import opened Manifests
  import opened Target
  import SemVer

  /** Until it has given its result, the owner of busy keeps the phase away from Ready. */
  ghost predicate Unready(s: System) {
    s.owner.Some? && s.owner.value in s.threads && !s.threads[s.owner.value].Releasing? ==>
      s.core.state.phase != PhaseReady
  }

  /** The package a download has put in place and is yet to record. */
  function Coming(config: Config, s: System, t: Thread): Option<string> {
    match t
    case Fetching(_, release, Arrived(_)) => Some(config.PackagePath(s.core.location.target, release.latestVersion))
    case Fetched(_, _, Ok(path)) => Some(path)
    case _ => None
  }

  /** A ready package is on disk, and so is one that is about to be recorded. */
  ghost predicate Present(config: Config, s: System) {
    (s.core.state.phase == PhaseReady ==> s.core.memory.readyPath in s.files) &&
    forall i | i in s.threads && Coming(config, s, s.threads[i]).Some? :: Coming(config, s, s.threads[i]).value in s.files
  }

  ghost predicate Keeps(config: Config, s: System, s': System) {
    Unready(s') && (Present(config, s) ==> Present(config, s'))
  }

  /** An install that ends deletes the package recorded at that moment, and that is the one a download is about to
      record. */
  ghost predicate DiscardsFresh(config: Config, s: System, event: Event) {
    event.EndInstall? && event.failure.None? && event.removed &&
    exists i :: i in s.threads && Coming(config, s, s.threads[i]) == Some(s.core.memory.readyPath)
  }

  lemma WriteKeepsPaths(config: Config, files: Files, memory: Memory, write: Write, path: string)
    ensures path in files ==> path in WriteMemory(config, files, memory, write)
    ensures path in WriteMemory(config, files, memory, write) && path != config.MemoryPath() ==> path in files
  {
  }

  lemma WriteKeepsAll(config: Config, files: Files, memory: Memory, write: Write)
    ensures forall path | path in files :: path in WriteMemory(config, files, memory, write)
  {
  }

  lemma StartCheckKeepsPresent(config: Config, s: System, i: nat, manual: bool)
    requires Unready(s) && Lifecycle.Ready(config, s, StartCheck(i, manual))
    ensures Keeps(config, s, DoStartCheck(s, i, manual))
  {
    hide SemVer.Newer;
  }

  lemma AnswerCheckKeepsPresent(config: Config, s: System, i: nat, fetched: Result<Manifests.Fetched, Error>, now: string,
                               write: Write)
    requires Unready(s) && Lifecycle.Ready(config, s, AnswerCheck(i, fetched, now, write))
    ensures Keeps(config, s, DoAnswerCheck(config, s, i, s.threads[i].manual, fetched, now, write))
  {
    hide SemVer.Newer, IsDevelopment, CheckLatest, WriteMemory, Answers;
    forall files, memory, write, path ensures path in files ==> path in WriteMemory(config, files, memory, write) {
      WriteKeepsPaths(config, files, memory, write, path);
    }
  }

  lemma FinishCheckStays(c: Core, answer: Result<Release, Error>, manual: bool, now: string, policy: Policy)
    ensures var c' := FinishCheck(c, answer, manual, now, policy).0;
            c'.location == c.location && c'.memory.readyPath == c.memory.readyPath &&
            (c'.state.phase == PhaseReady ==> c.state.phase == PhaseReady)
  {
    hide SemVer.Newer, IsDevelopment;
  }

  lemma EndCheckKeepsPresent(config: Config, s: System, i: nat, now: string, policy: Policy, spawned: nat, write: Write)
    requires Unready(s) && Lifecycle.Ready(config, s, EndCheck(i, now, policy, spawned, write))
    ensures Keeps(config, s, DoEndCheck(config, s, i, s.threads[i].manual, s.threads[i].answer, now, policy, spawned, write))
  {
    hide FinishCheck, WriteMemory;
    var c := FinishCheck(s.core, s.threads[i].answer, s.threads[i].manual, now, policy).0;
    FinishCheckStays(s.core, s.threads[i].answer, s.threads[i].manual, now, policy);
    WriteKeepsAll(config, s.files, c.memory, write);
  }

  lemma RememberStays(c: Core, release: Release, now: string)
    ensures var c' := RememberMirror(c, release, now);
            c'.location == c.location && c'.memory.readyPath == c.memory.readyPath && c'.state == c.state
  {
  }

  lemma ResolveKeepsPresent(config: Config, s: System, i: nat, fetched: Result<Manifests.Fetched, Error>, now: string,
                            write: Write)
    requires Unready(s) && Lifecycle.Ready(config, s, ResolveDownload(i, fetched, now, write))
    ensures Keeps(config, s, DoResolve(config, s, i, fetched, now, write))
  {
    hide CheckLatest, WriteMemory, Answers, RememberMirror;
    var answer := CheckLatest(s.core.version, fetched);
    if answer.Ok? {
      RememberStays(s.core, answer.value, now);
      WriteKeepsAll(config, s.files, RememberMirror(s.core, answer.value, now).memory, write);
    }
  }

  lemma SkipKeepsPresent(config: Config, s: System, event: Event)
    requires Inv(config, s) && Unready(s) && Lifecycle.Ready(config, s, event) && event.SkipRelease?
    ensures Keeps(config, s, Do(config, s, event))
  {
    hide SemVer.Newer, WriteMemory;
    forall files, memory, write, path ensures path in files ==> path in WriteMemory(config, files, memory, write) {
      WriteKeepsPaths(config, files, memory, write, path);
    }
  }

  lemma AskDownloadKeepsPresent(config: Config, s: System, i: nat)
    requires OwnerOK(s.core, s.owner, s.threads) && Unready(s) && Lifecycle.Ready(config, s, AskDownload(i))
    ensures Keeps(config, s, With(s, i, Resolving))
  {
    hide SemVer.Newer;
  }

  lemma StartDownloadKeepsPresent(config: Config, s: System, i: nat)
    requires Unready(s) && Lifecycle.Ready(config, s, StartDownload(i))
    ensures Keeps(config, s, DoStartDownload(config, s, i, s.threads[i].release))
  {
    hide SemVer.Newer, JobFor;
  }

  lemma GiveBackKeepsPresent(config: Config, s: System, i: nat)
    requires Unready(s) && Lifecycle.Ready(config, s, GiveBack(i))
    ensures Keeps(config, s, DoGiveBack(s, i))
  {
    hide SemVer.Newer;
  }

  lemma ShowingKeepsPresent(config: Config, s: System, core: Core, mirror: string, done: int, total: int)
    requires Unready(s) && core in {TryMirror(s.core, mirror), Progress(s.core, done, total)}
    ensures Keeps(config, s, s.(core := core))
  {
    hide SemVer.Newer;
  }

  lemma ReadCancelKeepsPresent(config: Config, s: System, i: nat)
    requires OwnerOK(s.core, s.owner, s.threads) && Unready(s) && Lifecycle.Ready(config, s, ReadCancel(i))
    ensures Keeps(config, s, With(s, i, Cancelling(s.core.cancel)))
  {
    hide SemVer.Newer;
  }

  lemma FireCancelKeepsPresent(config: Config, s: System, i: nat)
    requires Unready(s) && Lifecycle.Ready(config, s, FireCancel(i))
    ensures Keeps(config, s, DoFireCancel(s, i, s.threads[i].read))
  {
    hide SemVer.Newer;
  }

  lemma FetchWritesKeepsPresent(config: Config, s: System, i: nat, files: Files, at: Attempt)
    requires OwnerOK(s.core, s.owner, s.threads) && Unready(s) && Lifecycle.Ready(config, s, FetchWrites(i, files, at))
    ensures Keeps(config, s, DoFetchWrites(s, i, s.threads[i], files, at))
  {
    hide SemVer.Newer;
  }

  lemma EndFetchKeepsPresent(config: Config, s: System, i: nat, outcome: Result<string, Error>)
    requires Unready(s) && Lifecycle.Ready(config, s, EndFetch(i, outcome))
    ensures Keeps(config, s, With(s, i, Thread.Fetched(s.threads[i].context, s.threads[i].release, outcome)))
  {
    hide SemVer.Newer, Lower, IsCanceled;
  }

  lemma EndDownloadKeepsPresent(config: Config, s: System, i: nat, write: Write)
    requires OwnerOK(s.core, s.owner, s.threads) && Unready(s) && Lifecycle.Ready(config, s, EndDownload(i, write))
    ensures Keeps(config, s,
              DoEndDownload(config, s, i, s.threads[i].context, s.threads[i].release, s.threads[i].outcome, write))
  {
    hide WriteMemory;
    var c := FinishDownload(s.core, s.threads[i].release, s.threads[i].outcome);
    WriteKeepsAll(config, s.files, c.memory, write);
  }

  lemma StartInstallKeepsPresent(config: Config, s: System, i: nat)
    requires Unready(s) && Lifecycle.Ready(config, s, StartInstall(i))
    ensures Keeps(config, s, DoStartInstall(s, i))
  {
    hide SemVer.Newer;
  }

  lemma StartQuitInstallKeepsPresent(config: Config, s: System, i: nat, policy: Policy)
    requires OwnerOK(s.core, s.owner, s.threads) && Unready(s) && Lifecycle.Ready(config, s, StartQuitInstall(i, policy))
    ensures Keeps(config, s, DoStartQuitInstall(s, i, policy))
  {
    hide SemVer.Newer;
  }

  lemma OpenPackageKeepsPresent(config: Config, s: System, i: nat)
    requires Unready(s) && Lifecycle.Ready(config, s, OpenPackage(i))
    ensures Keeps(config, s, DoOpenPackage(s, i, s.threads[i]))
  {
    hide SemVer.Newer;
  }

  lemma RestartKeepsPresent(config: Config, s: System, event: Event)
    requires Inv(config, s) && Unready(s) && Lifecycle.Ready(config, s, event)
    requires event.Restart?
    ensures Keeps(config, s, Do(config, s, event))
  {
    hide SemVer.Newer, IsDevelopment, CheckLatest, WriteMemory, ReadMemory;
    forall files, memory, write, path ensures path in files ==> path in WriteMemory(config, files, memory, write) {
      WriteKeepsPaths(config, files, memory, write, path);
    }
  }

  lemma EndInstallDecidesPresent(config: Config, s: System, event: Event)
    requires Inv(config, s) && Unready(s) && Lifecycle.Ready(config, s, event) && event.EndInstall?
    ensures Unready(Do(config, s, event))
    ensures Present(config, s) ==> (Present(config, Do(config, s, event)) <==> !DiscardsFresh(config, s, event))
  {
    hide SemVer.Newer, Named, CoreOK, FilesOK, AppliedOK, ThreadsOK, PartsOK, WriteMemory, Coming;
    var s', path := Do(config, s, event), s.core.memory.readyPath;
    assert s'.core.state.phase == PhaseReady ==> s'.files == s.files && s'.core == s.core;
    forall i | i in s'.threads ensures i in s.threads && s'.threads[i] == s.threads[i] {
    }
    forall i | i in s.threads && Coming(config, s, s.threads[i]).Some?
      ensures i in s'.threads && Coming(config, s', s'.threads[i]) == Coming(config, s, s.threads[i])
      ensures Coming(config, s, s.threads[i]).value in s'.files <==>
              Coming(config, s, s.threads[i]).value in s.files &&
              !(event.failure.None? && event.removed && Coming(config, s, s.threads[i]).value == path)
    {
      ComingIsPackage(config, s, i);
      SameComing(config, s, s', s.threads[i]);
      WriteKeepsPaths(config, Remove(s.files, path, event.removed), ForgetReady(s.core).memory, event.write,
                      Coming(config, s, s.threads[i]).value);
    }
    forall i | i in s'.threads ensures Coming(config, s', s'.threads[i]) == Coming(config, s, s'.threads[i]) {
      SameComing(config, s, s', s'.threads[i]);
    }
  }

  lemma SameComing(config: Config, s: System, s': System, t: Thread)
    requires s'.core.location == s.core.location
    ensures Coming(config, s', t) == Coming(config, s, t)
  {
  }

  lemma ComingIsPackage(config: Config, s: System, i: nat)
    requires Inv(config, s) && i in s.threads && Coming(config, s, s.threads[i]).Some?
    ensures Coming(config, s, s.threads[i]).value != config.MemoryPath() && Coming(config, s, s.threads[i]).value != ""
    ensures !s.threads[i].Applying?
  {
    hide SemVer.Newer, FilesOK, AppliedOK, OwnerOK, PartsOK;
    assert ThreadOK(config, s.core, s.attested, s.threads[i]);
    LocatedPackage(config, s.core, s.threads[i].release.latestVersion);
    NamedPath(config, Coming(config, s, s.threads[i]).value, s.threads[i].release.latestVersion);
  }

  lemma OwnerIsOK(config: Config, s: System)
    requires Inv(config, s)
    ensures OwnerOK(s.core, s.owner, s.threads)
  {
  }

  /** One step keeps ready packages on disk if and only if it is not an install discarding a fresh download. */
  lemma PresentUnlessDiscarded(config: Config, s: System, event: Event)
    requires Inv(config, s) && Unready(s) && Step(config, s, event).Some?
    ensures Unready(Step(config, s, event).value)
    ensures Present(config, s) ==> (Present(config, Step(config, s, event).value) <==> !DiscardsFresh(config, s, event))
  {
    hide Inv, OwnerOK, Present, Unready, DoStartCheck, DoAnswerCheck, DoEndCheck, DoResolve, DoStartDownload, DoFetchWrites,
      DoEndDownload, DoGiveBack, DoFireCancel, DoStartInstall, DoStartQuitInstall, DoOpenPackage, DoEndInstall, DoSkip, DoRestart;
    OwnerIsOK(config, s);
    match event
    case StartCheck(i, manual) => StartCheckKeepsPresent(config, s, i, manual);
    case AnswerCheck(i, fetched, now, write) => AnswerCheckKeepsPresent(config, s, i, fetched, now, write);
    case EndCheck(i, now, policy, spawned, write) => EndCheckKeepsPresent(config, s, i, now, policy, spawned, write);
    case AskDownload(i) => AskDownloadKeepsPresent(config, s, i);
    case ResolveDownload(i, fetched, now, write) => ResolveKeepsPresent(config, s, i, fetched, now, write);
    case StartDownload(i) => StartDownloadKeepsPresent(config, s, i);
    case FetchFrom(_, mirror) => ShowingKeepsPresent(config, s, TryMirror(s.core, mirror), mirror, 0, 0);
    case FetchReports(_, done, total) => ShowingKeepsPresent(config, s, Progress(s.core, done, total), "", done, total);
    case FetchWrites(i, files, at) => FetchWritesKeepsPresent(config, s, i, files, at);
    case EndFetch(i, outcome) => EndFetchKeepsPresent(config, s, i, outcome);
    case EndDownload(i, write) => EndDownloadKeepsPresent(config, s, i, write);
    case GiveBack(i) => GiveBackKeepsPresent(config, s, i);
    case ReadCancel(i) => ReadCancelKeepsPresent(config, s, i);
    case FireCancel(i) => FireCancelKeepsPresent(config, s, i);
    case StartInstall(i) => StartInstallKeepsPresent(config, s, i);
    case StartQuitInstall(i, policy) => StartQuitInstallKeepsPresent(config, s, i, policy);
    case OpenPackage(i) => OpenPackageKeepsPresent(config, s, i);
    case EndInstall(_, _, _, _) => EndInstallDecidesPresent(config, s, event);
    case SkipRelease(_, _) => SkipKeepsPresent(config, s, event);
    case Restart(_, _, _, _) => RestartKeepsPresent(config, s, event);
  }

  /** No install of the run deletes a download that is about to be recorded. */
  ghost predicate NeverDiscards(config: Config, s: System, events: seq<Event>) {
    events != [] ==>
      NeverDiscards(config, s, events[..|events| - 1]) && Run(config, s, events[..|events| - 1]).Some? &&
      !DiscardsFresh(config, Run(config, s, events[..|events| - 1]).value, events[|events| - 1])
  }

  /** A ready package is on disk after every run without such an install. */
  lemma {:induction false} ReadyFileExists(config: Config, version: string, location: Location, events: seq<Event>)
    requires config.Faithful() && Located(location) && Run(config, Launch(version, location), events).Some?
    requires NeverDiscards(config, Launch(version, location), events)
    ensures var s := Run(config, Launch(version, location), events).value;
            Present(config, s) && (s.core.state.phase == PhaseReady ==> s.core.memory.readyPath in s.files)
  {
    hide Step, DiscardsFresh;
    if events != [] {
      var init := events[..|events| - 1];
      ReadyFileExists(config, version, location, init);
      RunIsUnready(config, version, location, init);
      PresentUnlessDiscarded(config, Run(config, Launch(version, location), init).value, events[|events| - 1]);
    }
  }

  lemma {:induction false} RunIsUnready(config: Config, version: string, location: Location, events: seq<Event>)
    requires config.Faithful() && Located(location) && Run(config, Launch(version, location), events).Some?
    ensures Inv(config, Run(config, Launch(version, location), events).value)
    ensures Unready(Run(config, Launch(version, location), events).value)
  {
    hide Step, Inv;
    LaunchIsOK(config, version, location);
    RunKeepsInv(config, Launch(version, location), events);
    if events != [] {
      var init := events[..|events| - 1];
      RunIsUnready(config, version, location, init);
      PresentUnlessDiscarded(config, Run(config, Launch(version, location), init).value, events[|events| - 1]);
    }
  }

  // ---- What a caller can do about it ---------------------------------------------------------------------

  /** A download is let in while an install is applying its package. */
  ghost predicate Overlaps(s: System, event: Event) {
    event.StartDownload? && !s.core.busy && s.core.location.CanInstall() &&
    exists j :: j in s.threads && s.threads[j].Applying?
  }

  ghost predicate Placing(t: Thread) {
    t.Fetching? || t.Fetched?
  }

  /** No install is applying while a download is between taking busy and recording its package. */
  ghost predicate Apart(s: System) {
    forall i, j | i in s.threads && j in s.threads && s.threads[i].Applying? :: !Placing(s.threads[j])
  }

  /** Only the start of a download or an install makes a thread one of these. */
  lemma NoneBegins(config: Config, s: System, event: Event)
    requires Step(config, s, event).Some? && !event.StartDownload? && !event.StartInstall? && !event.StartQuitInstall?
    ensures var t := Step(config, s, event).value;
            forall j | j in t.threads && (t.threads[j].Applying? || Placing(t.threads[j])) ::
              j in s.threads && s.threads[j].Applying? == t.threads[j].Applying? &&
              Placing(s.threads[j]) == Placing(t.threads[j])
  {
    hide CheckLatest, WriteMemory, FetchStep, RememberMirror, FetchMayEnd, Answers, JobFor, FinishCheck, BeginCheck,
      FinishDownload, ReleaseBusy, FailInstall, ForgetReady, Skip, TryMirror, Progress, SetError, Restore;
  }

  lemma StartDownloadStaysApart(config: Config, s: System, i: nat)
    requires Apart(s) && Lifecycle.Ready(config, s, StartDownload(i)) && !Overlaps(s, StartDownload(i))
    ensures Apart(DoStartDownload(config, s, i, s.threads[i].release))
  {
    hide SemVer.Newer, JobFor;
  }

  lemma StartInstallStaysApart(config: Config, s: System, i: nat, policy: Policy)
    requires OwnerOK(s.core, s.owner, s.threads) && Unready(s) && Apart(s) && i !in s.threads
    ensures Apart(DoStartInstall(s, i)) && Apart(DoStartQuitInstall(s, i, policy))
  {
    if IsReady(s.core) {
      forall j | j in s.threads ensures !Placing(s.threads[j]) {
        var t := s.threads[j];
        assert Owns(t) || !Placing(t);
      }
    }
  }

  lemma ApartStays(config: Config, s: System, event: Event)
    requires Inv(config, s) && Unready(s) && Apart(s) && Step(config, s, event).Some? && !Overlaps(s, event)
    ensures Apart(Step(config, s, event).value)
  {
    hide Inv, OwnerOK, Unready, Apart, DoStartCheck, DoAnswerCheck, DoEndCheck, DoResolve, DoStartDownload, DoFetchWrites,
      DoEndDownload, DoGiveBack, DoFireCancel, DoStartInstall, DoStartQuitInstall, DoOpenPackage, DoEndInstall, DoSkip, DoRestart;
    OwnerIsOK(config, s);
    match event
    case StartDownload(i) => StartDownloadStaysApart(config, s, i);
    case StartInstall(i) => StartInstallStaysApart(config, s, i, PolicyAuto);
    case StartQuitInstall(i, policy) => StartInstallStaysApart(config, s, i, policy);
    case _ =>
      NoneBegins(config, s, event);
      StillApart(s, Step(config, s, event).value);
  }

  lemma StillApart(s: System, t: System)
    requires Apart(s)
    requires forall j | j in t.threads && (t.threads[j].Applying? || Placing(t.threads[j])) ::
               j in s.threads && s.threads[j].Applying? == t.threads[j].Applying? &&
               Placing(s.threads[j]) == Placing(t.threads[j])
    ensures Apart(t)
  {
  }

  lemma ApartDiscardsNothing(config: Config, s: System, event: Event)
    requires Apart(s) && Step(config, s, event).Some?
    ensures !DiscardsFresh(config, s, event)
  {
    hide Do;
  }

  ghost predicate NeverOverlaps(config: Config, s: System, events: seq<Event>) {
    events != [] ==>
      NeverOverlaps(config, s, events[..|events| - 1]) && Run(config, s, events[..|events| - 1]).Some? &&
      !Overlaps(Run(config, s, events[..|events| - 1]).value, events[|events| - 1])
  }

  lemma {:induction false} NeverOverlapsIsApart(config: Config, version: string, location: Location, events: seq<Event>)
    requires config.Faithful() && Located(location) && Run(config, Launch(version, location), events).Some?
    requires NeverOverlaps(config, Launch(version, location), events)
    ensures Apart(Run(config, Launch(version, location), events).value)
    ensures NeverDiscards(config, Launch(version, location), events)
  {
    hide Step, DiscardsFresh, Overlaps, Inv, Unready, Apart;
    if events == [] {
      assert Apart(Launch(version, location)) by { LaunchIsApart(version, location); }
    } else {
      var init := events[..|events| - 1];
      NeverOverlapsIsApart(config, version, location, init);
      RunIsUnready(config, version, location, init);
      ApartStays(config, Run(config, Launch(version, location), init).value, events[|events| - 1]);
      ApartDiscardsNothing(config, Run(config, Launch(version, location), init).value, events[|events| - 1]);
    }
  }

  lemma LaunchIsApart(version: string, location: Location)
    ensures Apart(Launch(version, location))
  {
  }

  /** In every run in which no download is let in while an install is applying, Ready means the file is there. */
  lemma ReadyFileExistsUnlessOverlapping(config: Config, version: string, location: Location, events: seq<Event>)
    requires config.Faithful() && Located(location) && Run(config, Launch(version, location), events).Some?
    requires NeverOverlaps(config, Launch(version, location), events)
    ensures var s := Run(config, Launch(version, location), events).value;
            s.core.state.phase == PhaseReady ==> s.core.memory.readyPath in s.files
  {
    hide Run, NeverDiscards, NeverOverlaps;
    NeverOverlapsIsApart(config, version, location, events);
    ReadyFileExists(config, version, location, events);
  }

  // ---- A branch never taken -------------------------------------------------------------------------------

  /** A check never finds the phase Ready when it folds its answer in, so a download it already has is announced
      as available again: the branch that would keep it is never taken. */
  lemma CheckNeverSeesReady(config: Config, version: string, location: Location, events: seq<Event>, i: nat)
    requires config.Faithful() && Located(location) && Run(config, Launch(version, location), events).Some?
    requires var s := Run(config, Launch(version, location), events).value;
             i in s.threads && s.threads[i].Answered?
    ensures Run(config, Launch(version, location), events).value.core.state.phase != PhaseReady
  {
    hide Run;
    RunIsUnready(config, version, location, events);
    AnsweredIsUnready(config, Run(config, Launch(version, location), events).value);
  }

  lemma AnsweredIsUnready(config: Config, s: System)
    requires Inv(config, s) && Unready(s)
    ensures forall i | i in s.threads && s.threads[i].Answered? :: s.core.state.phase != PhaseReady
  {
    hide SemVer.Newer, CoreOK, FilesOK, ThreadsOK, AppliedOK;
  }
}
