/** The skip list over runs: what starts a download nobody asked for, and what never does. */
module SkipList {
  import opened Common
  import opened Disk
  import opened Download
  import opened Fetch
  import opened Lifecycle
  import opened LifecycleSafety
  import opened Manifests
  import opened ReadyFile
  import opened Target
  import SemVer

  // ---- One check -----------------------------------------------------------------------------------------

  lemma CheckDecides(c: Core, answer: Result<Release, Error>, manual: bool, now: string, policy: Policy)
    requires c.state.phase != PhaseReady
    ensures var (c', unasked) := FinishCheck(c, answer, manual, now, policy);
            var newer := answer.Ok? && answer.value.status == Available;
            (unasked.Some? <==>
               newer && policy in {PolicyDownload, PolicyAuto} && c.location.blocker == BlockerNone &&
               c'.memory.skipped != answer.value.latestVersion) &&
            (unasked.Some? ==> unasked.value == answer.value) &&
            c'.memory.skipped ==
              if newer && manual && c.memory.skipped == answer.value.latestVersion then "" else c.memory.skipped
  {
  }

  /** In every reachable state the end of a check starts a download exactly when it found a newer release, the policy
      downloads, the build can install, and the record - from which a manual check takes what it found - does not skip it. */
  lemma UnaskedExactly(config: Config, version: string, location: Location, events: seq<Event>, i: nat, now: string,
                       policy: Policy, spawned: nat, write: Write)
    requires config.Faithful() && Located(location) && Run(config, Launch(version, location), events).Some?
    requires var s := Run(config, Launch(version, location), events).value;
             Step(config, s, EndCheck(i, now, policy, spawned, write)).Some?
    ensures var s := Run(config, Launch(version, location), events).value;
            var t := Step(config, s, EndCheck(i, now, policy, spawned, write)).value;
            var manual, answer := s.threads[i].manual, s.threads[i].answer;
            var newer := answer.Ok? && answer.value.status == Available;
            (spawned in t.threads <==>
               newer && policy in {PolicyDownload, PolicyAuto} && s.core.location.blocker == BlockerNone &&
               t.core.memory.skipped != answer.value.latestVersion) &&
            (spawned in t.threads ==> t.threads[spawned] == Requested(answer.value)) &&
            t.core.memory.skipped ==
              if newer && manual && s.core.memory.skipped == answer.value.latestVersion then "" else s.core.memory.skipped
  {
    hide Run, FinishCheck, WriteMemory;
    CheckNeverSeesReady(config, version, location, events, i);
    var s := Run(config, Launch(version, location), events).value;
    CheckDecides(s.core, s.threads[i].answer, s.threads[i].manual, now, policy);
  }

  // ---- Whole runs ------------------------------------------------------------------------------------------

  /** A call has this version in hand: it is to be downloaded, or being downloaded or installed. */
  ghost predicate Handles(t: Thread, version: string) {
    match t
    case Requested(release) => release.latestVersion == version
    case Fetching(_, release, _) => release.latestVersion == version
    case Fetched(_, release, _) => release.latestVersion == version
    case Applying(_, applied, _, _) => applied == version
    case _ => false
  }

  /** Not the end of a manual check, a change of the skip list, a download asked for or a restart. */
  ghost predicate Unattended(s: System, event: Event) {
    !event.SkipRelease? && !event.ResolveDownload? && !event.Restart? &&
    (event.EndCheck? && event.thread in s.threads && s.threads[event.thread].Answered? ==> !s.threads[event.thread].manual)
  }

  ghost predicate NobodyAsks(config: Config, s: System, events: seq<Event>) {
    events != [] ==>
      NobodyAsks(config, s, events[..|events| - 1]) && Run(config, s, events[..|events| - 1]).Some? &&
      Unattended(Run(config, s, events[..|events| - 1]).value, events[|events| - 1])
  }

  /** What is known of a skipped version from one state to a later one: it is still skipped, it was already requested where
      it is requested, and where nothing had it in hand nothing has. */
  ghost predicate StillSkipped(s: System, t: System, version: string) {
    t.core.memory.skipped == version &&
    (forall i | i in t.threads && t.threads[i].Requested? && t.threads[i].release.latestVersion == version ::
       i in s.threads && s.threads[i] == t.threads[i]) &&
    (Untouched(s, version) ==> Untouched(t, version))
  }

  ghost predicate Untouched(s: System, version: string) {
    s.core.memory.readyVersion != version && forall i | i in s.threads :: !Handles(s.threads[i], version)
  }

  lemma ScheduledCheckSpares(config: Config, s: System, i: nat, now: string, policy: Policy, spawned: nat, write: Write)
    requires Lifecycle.Ready(config, s, EndCheck(i, now, policy, spawned, write)) && !s.threads[i].manual
    ensures StillSkipped(s, DoEndCheck(config, s, i, false, s.threads[i].answer, now, policy, spawned, write),
                         s.core.memory.skipped)
  {
    hide WriteMemory, SemVer.Newer;
  }

  lemma AnswerSpares(config: Config, s: System, i: nat, fetched: Result<Manifests.Fetched, Error>, now: string, write: Write)
    requires Lifecycle.Ready(config, s, AnswerCheck(i, fetched, now, write))
    ensures StillSkipped(s, DoAnswerCheck(config, s, i, s.threads[i].manual, fetched, now, write), s.core.memory.skipped)
  {
    hide WriteMemory, CheckLatest, Answers;
  }

  lemma DownloadSpares(config: Config, s: System, i: nat, write: Write)
    requires i in s.threads && s.core.memory.skipped != ""
    ensures s.threads[i].Requested? ==>
              StillSkipped(s, DoStartDownload(config, s, i, s.threads[i].release), s.core.memory.skipped)
    ensures s.threads[i].Fetched? ==>
              var t := s.threads[i];
              StillSkipped(s, DoEndDownload(config, s, i, t.context, t.release, t.outcome, write), s.core.memory.skipped)
    ensures s.threads[i].Releasing? ==> StillSkipped(s, DoGiveBack(s, i), s.core.memory.skipped)
  {
    hide WriteMemory, JobFor, IsCanceled, Lower;
  }

  lemma FetchSpares(s: System, i: nat, core: Core, files: Files, at: Attempt, outcome: Result<string, Error>)
    requires i in s.threads && s.threads[i].Fetching? && core.memory == s.core.memory
    ensures StillSkipped(s, s.(core := core), s.core.memory.skipped)
    ensures StillSkipped(s, DoFetchWrites(s, i, s.threads[i], files, at), s.core.memory.skipped)
    ensures StillSkipped(s, With(s, i, Thread.Fetched(s.threads[i].context, s.threads[i].release, outcome)),
                         s.core.memory.skipped)
  {
  }

  lemma InstallSpares(config: Config, s: System, i: nat, policy: Policy, failure: Option<Error>, removed: bool, write: Write)
    requires s.core.memory.skipped != ""
    ensures i !in s.threads ==>
              StillSkipped(s, DoStartInstall(s, i), s.core.memory.skipped) &&
              StillSkipped(s, DoStartQuitInstall(s, i, policy), s.core.memory.skipped)
    ensures i in s.threads && s.threads[i].Applying? ==>
              StillSkipped(s, DoEndInstall(config, s, i, s.threads[i].relaunch, failure, removed, write),
                           s.core.memory.skipped)
    ensures i in s.threads && s.threads[i].Applying? && s.threads[i].path in s.files ==>
              StillSkipped(s, DoOpenPackage(s, i, s.threads[i]), s.core.memory.skipped)
  {
    hide WriteMemory;
  }

  lemma OthersSpare(s: System, i: nat, manual: bool)
    ensures i !in s.threads ==>
              StillSkipped(s, With(s, i, Resolving), s.core.memory.skipped) &&
              StillSkipped(s, With(s, i, Cancelling(s.core.cancel)), s.core.memory.skipped) &&
              StillSkipped(s, DoStartCheck(s, i, manual), s.core.memory.skipped)
    ensures i in s.threads && s.threads[i].Cancelling? ==>
              StillSkipped(s, DoFireCancel(s, i, s.threads[i].read), s.core.memory.skipped)
  {
    hide IsDevelopment;
  }

  lemma StepSpares(config: Config, s: System, event: Event)
    requires Step(config, s, event).Some? && Unattended(s, event) && s.core.memory.skipped != ""
    ensures StillSkipped(s, Step(config, s, event).value, s.core.memory.skipped)
  {
    hide StillSkipped, DoStartCheck, DoAnswerCheck, DoEndCheck, DoStartDownload, DoFetchWrites, DoEndDownload, DoGiveBack,
      DoFireCancel, DoStartInstall, DoStartQuitInstall, DoOpenPackage, DoEndInstall;
    match event
    case StartCheck(i, manual) => OthersSpare(s, i, manual);
    case AskDownload(i) => OthersSpare(s, i, false);
    case ReadCancel(i) => OthersSpare(s, i, false);
    case FireCancel(i) => OthersSpare(s, i, false);
    case AnswerCheck(i, fetched, now, write) => AnswerSpares(config, s, i, fetched, now, write);
    case EndCheck(i, now, policy, spawned, write) => ScheduledCheckSpares(config, s, i, now, policy, spawned, write);
    case StartDownload(i) => DownloadSpares(config, s, i, Kept);
    case EndDownload(i, write) => DownloadSpares(config, s, i, write);
    case GiveBack(i) => DownloadSpares(config, s, i, Kept);
    case FetchFrom(i, mirror) => FetchSpares(s, i, TryMirror(s.core, mirror), s.files, Idle, Err(Canceled));
    case FetchReports(i, done, total) => FetchSpares(s, i, Progress(s.core, done, total), s.files, Idle, Err(Canceled));
    case FetchWrites(i, files, at) => FetchSpares(s, i, s.core, files, at, Err(Canceled));
    case EndFetch(i, outcome) => FetchSpares(s, i, s.core, s.files, Idle, outcome);
    case StartInstall(i) => InstallSpares(config, s, i, PolicyAuto, None, false, Kept);
    case StartQuitInstall(i, policy) => InstallSpares(config, s, i, policy, None, false, Kept);
    case OpenPackage(i) => InstallSpares(config, s, i, PolicyAuto, None, false, Kept);
    case EndInstall(i, failure, removed, write) => InstallSpares(config, s, i, PolicyAuto, failure, removed, write);
  }

  /** From any state on, as long as nobody asks for a release, changes the skip list or starts the process again: a version
      on the skip list stays there, no download of it is requested, and one that no call has in hand and that is not ready
      is neither downloaded nor installed. */
  lemma {:induction false} SkippedIsLeftAlone(config: Config, s: System, events: seq<Event>)
    requires Run(config, s, events).Some? && NobodyAsks(config, s, events) && s.core.memory.skipped != ""
    ensures StillSkipped(s, Run(config, s, events).value, s.core.memory.skipped)
  {
    hide Step, Unattended, Handles;
    if events != [] {
      var init := events[..|events| - 1];
      SkippedIsLeftAlone(config, s, init);
      StepSpares(config, Run(config, s, init).value, events[|events| - 1]);
    }
  }
}
