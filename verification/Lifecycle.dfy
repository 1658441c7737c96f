/** The update lifecycle: what each section under the manager's lock does, and the interleavings of the
    operations built from them with crashes and restarts. */
module Lifecycle {
  import opened Common
  import opened Disk
  import opened Download
  import opened Fetch
  import opened Manifests
  import opened Mirrors
  import opened Target
  import SemVer

  // ---- State -------------------------------------------------------------------------------------

  datatype Policy = PolicyOff | PolicyNotify | PolicyDownload | PolicyAuto {
    predicate Downloads() { PolicyDownload? || PolicyAuto? }
  }

  datatype Phase =
    PhaseIdle | PhaseChecking | PhaseAvailable | PhaseDownloading | PhaseReady | PhaseInstalling | PhaseError

  datatype FailedStep = StepNone | StepCheck | StepDownload | StepInstall

  datatype State = State(
    phase: Phase, currentVersion: string, development: bool, latestVersion: string, notes: string,
    publishedAt: string, releaseURL: string, downloaded: int, total: int, mirror: string,
    outcome: Option<Status>, checkedAt: string, skipped: string, error: Option<Error>, failedStep: FailedStep)

  /** The part that survives a restart. */
  datatype Memory = Memory(
    checkedAt: string, skipped: string, readyVersion: string, readyPath: string,
    preferredMirror: string, mirrorMeasured: string, learnedMirrors: seq<Mirror>)

  const NO_MEMORY := Memory("", "", "", "", "", "", [])

  /** The manager's fields. `cancel` names the context a download in flight runs under, `published` is every state
      handed to the emitter. */
  datatype Core = Core(
    version: string, location: Location, state: State, memory: Memory, busy: bool, cancel: Option<nat>,
    nextContext: nat, published: seq<State>)

  /** What the model is given: the hash, the JSON codec and the download directory. */
  datatype Config = Config(hash: Bytes -> string, encode: Memory -> Bytes, decode: Bytes -> Option<Memory>, directory: string) {
    function MemoryPath(): string { Join(directory, MEMORY_FILE) }

    function PackagePath(target: Asset, version: string): string { Join(directory, target.PackageName(version)) }

    /** A record reads back as written, and no strict prefix of one is a record. */
    ghost predicate Faithful() {
      (forall m :: decode(encode(m)) == Some(m)) &&
      (forall m, n: nat | n < |encode(m)| :: decode(encode(m)[..n]) == None)
    }

    /** Digests are lower-case and of the published length. */
    ghost predicate Hexadecimal() {
      forall content :: |hash(content)| == HEX_SHA256 && Lower(hash(content)) == hash(content)
    }
  }

  predicate IsDevelopment(version: string) {
    SemVer.ParseStable(version).None?
  }

  // ---- The record on disk -------------------------------------------------------------------------

  /** How far a write of the record got: not at all, cut short after truncation, or to the end. */
  datatype Write = Kept | Torn(written: nat) | Stored

  function ReadMemory(config: Config, files: Files): Memory {
    if config.MemoryPath() !in files then NO_MEMORY
    else match config.decode(files[config.MemoryPath()])
      case None => NO_MEMORY
      case Some(memory) => memory
  }

  function WriteMemory(config: Config, files: Files, memory: Memory, write: Write): Files {
    var content := config.encode(memory);
    match write
    case Kept => files
    case Torn(n) => files[config.MemoryPath() := if n < |content| then content[..n] else content]
    case Stored => files[config.MemoryPath() := content]
  }

  function Remove(files: Files, path: string, removed: bool): Files {
    if removed then files - {path} else files
  }

  // ---- Sections under the lock --------------------------------------------------------------------

  function Publish(c: Core): Core {
    c.(published := c.published + [c.state])
  }

  function SetError(c: Core, step: FailedStep, error: Error): Core {
    Publish(c.(state := c.state.(phase := PhaseError, failedStep := step, error := Some(error))))
  }

  function Fresh(version: string, location: Location, memory: Memory, nextContext: nat): Core {
    var state := State(PhaseIdle, version, IsDevelopment(version), "", "", "", "", 0, -1, "", None,
                       memory.checkedAt, memory.skipped, None, StepNone);
    Core(version, location, state, memory, false, None, nextContext, [])
  }

  predicate Restorable(version: string, memory: Memory, files: Files) {
    memory.readyPath in files && SemVer.Newer(version, memory.readyVersion)
  }

  function ClearReady(memory: Memory): Memory {
    memory.(readyPath := "", readyVersion := "")
  }

  /** A launch: what the record says is ready, or a record without it. */
  function Restore(config: Config, version: string, location: Location, nextContext: nat, files: Files,
                   removed: bool, write: Write): (Core, Files)
  {
    var memory := ReadMemory(config, files);
    var c := Fresh(version, location, memory, nextContext);
    if memory.readyPath == "" then (c, files)
    else if Restorable(version, memory, files) then
      (c.(state := c.state.(phase := PhaseReady, latestVersion := memory.readyVersion)), files)
    else
      (c.(memory := ClearReady(memory)),
       WriteMemory(config, Remove(files, memory.readyPath, removed), ClearReady(memory), write))
  }

  datatype Entry = Development | Busy | Blocked | Entered

  function BeginCheck(c: Core): (Core, Entry) {
    if IsDevelopment(c.version) then (c, Development)
    else if c.busy then (c, Busy)
    else (Publish(c.(busy := true, state := c.state.(phase := PhaseChecking, error := None, failedStep := StepNone))),
          Entered)
  }

  function RememberMirror(c: Core, release: Release, now: string): Core {
    var m := if release.mirror.name != ""
             then c.memory.(preferredMirror := release.mirror.name, mirrorMeasured := now) else c.memory;
    c.(memory := if release.manifest.mirrors != []
                 then m.(learnedMirrors := Merge(m.learnedMirrors, release.manifest.mirrors)) else m)
  }

  /** What a check that found `release` leaves on display, and whether the download starts unasked. */
  function Announce(c: Core, release: Release, policy: Policy): (Core, Option<Release>) {
    if release.status != Available then
      (Publish(c.(state := c.state.(phase := PhaseIdle, latestVersion := "", notes := "", publishedAt := ""))), None)
    else
      var c := c.(state := c.state.(latestVersion := release.latestVersion, notes := release.notes,
                                    publishedAt := release.publishedAt));
      if c.state.phase == PhaseReady && c.memory.readyVersion == release.latestVersion then (Publish(c), None)
      else
        (Publish(c.(state := c.state.(phase := PhaseAvailable))),
         if policy.Downloads() && c.location.CanInstall() && release.latestVersion != c.memory.skipped
         then Some(release) else None)
  }

  /** Folds an answer into the state; the second component is the release to download unasked, if any. A manual
      check takes the release it finds back off the skip list. */
  function FinishCheck(c: Core, answer: Result<Release, Error>, manual: bool, now: string, policy: Policy)
    : (Core, Option<Release>)
  {
    var c := c.(busy := false, memory := c.memory.(checkedAt := now), state := c.state.(checkedAt := now));
    match answer
    case Err(error) => (SetError(c, StepCheck, error), None)
    case Ok(release) =>
      var c := c.(state := c.state.(releaseURL := release.releaseURL, outcome := Some(release.status)));
      Announce(if manual && release.status == Available && c.memory.skipped == release.latestVersion
               then c.(memory := c.memory.(skipped := ""), state := c.state.(skipped := "")) else c,
               release, policy)
  }

  function BeginDownload(c: Core, release: Release): (Core, Entry) {
    if c.busy then (c, Busy)
    else if !c.location.CanInstall() then (SetError(c, StepDownload, NotInstallable), Blocked)
    else
      (Publish(c.(busy := true, cancel := Some(c.nextContext), nextContext := c.nextContext + 1,
                  state := c.state.(phase := PhaseDownloading, latestVersion := release.latestVersion,
                                    notes := release.notes, publishedAt := release.publishedAt,
                                    downloaded := 0, total := -1, error := None, failedStep := StepNone))),
       Entered)
  }

  function TryMirror(c: Core, name: string): Core {
    Publish(c.(state := c.state.(mirror := name, downloaded := 0, total := -1)))
  }

  function Progress(c: Core, done: int, total: int): Core {
    Publish(c.(state := c.state.(downloaded := done, total := total)))
  }

  function FinishDownload(c: Core, release: Release, outcome: Result<string, Error>): Core {
    match outcome
    case Err(error) =>
      if IsCanceled(error)
      then Publish(c.(state := c.state.(phase := PhaseAvailable, downloaded := 0, total := -1)))
      else SetError(c, StepDownload, error)
    case Ok(path) =>
      Publish(c.(memory := c.memory.(readyVersion := release.latestVersion, readyPath := path),
                 state := c.state.(phase := PhaseReady)))
  }

  function ReleaseBusy(c: Core): Core {
    c.(busy := false, cancel := None)
  }

  predicate IsReady(c: Core) {
    c.state.phase == PhaseReady && c.memory.readyPath != ""
  }

  function BeginInstall(c: Core): Core {
    if IsReady(c) then Publish(c.(state := c.state.(phase := PhaseInstalling))) else c
  }

  /** An install that failed puts the phase back and reports the failure at once. */
  function FailInstall(c: Core, error: Error): Core {
    SetError(c.(state := c.state.(phase := PhaseReady)), StepInstall, error)
  }

  function ForgetReady(c: Core): Core {
    c.(memory := ClearReady(c.memory), state := c.state.(phase := PhaseIdle, downloaded := 0, total := -1))
  }

  function Skip(c: Core, version: string): Core {
    Publish(c.(memory := c.memory.(skipped := version), state := c.state.(skipped := version)))
  }

  // ---- Threads -------------------------------------------------------------------------------------

  /** Where a call in progress stands between two sections. */
  datatype Thread =
    | Checking(manual: bool)                                        // Check, resolving the release
    | Answered(manual: bool, answer: Result<Release, Error>)        // Check, about to fold the answer in
    | Resolving                                                     // Download of no particular release
    | Requested(release: Release)                                   // Download, about to take busy
    | Fetching(context: nat, release: Release, at: Attempt)         // Download, in fetch
    | Fetched(context: nat, release: Release, outcome: Result<string, Error>)
    | Releasing(context: nat)                                       // Download, about to give busy back
    | Applying(path: string, version: string, relaunch: bool, content: Option<Bytes>)  // Install or InstallOnQuit
    | Cancelling(read: Option<nat>)                                 // Cancel, holding what it read

  predicate Owns(t: Thread) {
    t.Checking? || t.Answered? || t.Fetching? || t.Fetched? || t.Releasing?
  }

  predicate Downloading(t: Thread) {
    t.Fetching? || t.Fetched? || t.Releasing?
  }

  /** A package Apply opened: the build that ran, the version it was recorded as, and what was in the file. */
  datatype Applied = Applied(running: string, version: string, path: string, content: Bytes)

  /** The process and its directory. `owner` is the thread that took busy, `cancelled` the contexts that were
      cancelled, `attested` every path and digest a manifest vouched for. */
  datatype System = System(
    core: Core, files: Files, threads: map<nat, Thread>, owner: Option<nat>, cancelled: set<nat>,
    attested: set<(string, string)>, applied: seq<Applied>)

  datatype Event =
    | StartCheck(thread: nat, manual: bool)
    | AnswerCheck(thread: nat, fetched: Result<Manifests.Fetched, Error>, now: string, write: Write)
    | EndCheck(thread: nat, now: string, policy: Policy, spawned: nat, write: Write)
    | AskDownload(thread: nat)
    | ResolveDownload(thread: nat, fetched: Result<Manifests.Fetched, Error>, now: string, write: Write)
    | StartDownload(thread: nat)
    | FetchFrom(thread: nat, mirror: string)
    | FetchWrites(thread: nat, files: Files, at: Attempt)
    | FetchReports(thread: nat, done: int, total: int)
    | EndFetch(thread: nat, outcome: Result<string, Error>)
    | EndDownload(thread: nat, write: Write)
    | GiveBack(thread: nat)
    | ReadCancel(thread: nat)
    | FireCancel(thread: nat)
    | StartInstall(thread: nat)
    | StartQuitInstall(thread: nat, policy: Policy)
    | OpenPackage(thread: nat)
    | EndInstall(thread: nat, failure: Option<Error>, removed: bool, write: Write)
    | SkipRelease(version: string, write: Write)
    | Restart(version: string, location: Location, removed: bool, write: Write)

  function PackageOf(s: System, release: Release): string {
    s.core.location.target.PackageName(release.latestVersion)
  }

  function JobFor(config: Config, s: System, release: Release): Job
    requires PackageOf(s, release) in release.manifest.files
  {
    JobOf(config.hash, config.directory, PackageOf(s, release), release.manifest.files[PackageOf(s, release)])
  }

  /** What fetch may conclude: success exactly when it put a package in place, and a cancellation only of this very
      download. */
  ghost predicate FetchMayEnd(config: Config, s: System, t: Thread, outcome: Result<string, Error>)
    requires t.Fetching?
  {
    (outcome.Ok? <==> t.at.Arrived?) &&
    (outcome.Ok? ==> outcome.value == config.PackagePath(s.core.location.target, t.release.latestVersion)) &&
    (outcome.Err? && IsCanceled(outcome.error) ==> t.context in s.cancelled)
  }

  /** What the race over the mirrors may answer: a usable index from a usable mirror, or a failure. */
  ghost predicate Answers(fetched: Result<Manifests.Fetched, Error>) {
    fetched.Ok? ==> Usable(fetched.value.manifest) && fetched.value.mirror.Valid() && fetched.value.mirror in fetched.value.order
  }

  function With(s: System, thread: nat, t: Thread): System {
    s.(threads := s.threads[thread := t])
  }

  function Without(s: System, thread: nat): System {
    s.(threads := s.threads - {thread})
  }

  // ---- Steps: one section, one operation on the directory, or one restart ---------------------------------

  function DoStartCheck(s: System, i: nat, manual: bool): System {
    var (c, entry) := BeginCheck(s.core);
    if entry == Entered then With(s, i, Checking(manual)).(core := c, owner := Some(i)) else s
  }

  function DoAnswerCheck(config: Config, s: System, i: nat, manual: bool, fetched: Result<Manifests.Fetched, Error>,
                         now: string, write: Write): System
  {
    var answer := CheckLatest(s.core.version, fetched);
    var s' := With(s, i, Answered(manual, answer));
    if answer.Err? then s'
    else
      var c := RememberMirror(s.core, answer.value, now);
      s'.(core := c, files := WriteMemory(config, s.files, c.memory, write))
  }

  function DoEndCheck(config: Config, s: System, i: nat, manual: bool, answer: Result<Release, Error>, now: string,
                      policy: Policy, spawned: nat, write: Write): System
  {
    var (c, unasked) := FinishCheck(s.core, answer, manual, now, policy);
    var s' := Without(s, i).(core := c, owner := None, files := WriteMemory(config, s.files, c.memory, write));
    if unasked.Some? then With(s', spawned, Requested(unasked.value)) else s'
  }

  function DoResolve(config: Config, s: System, i: nat, fetched: Result<Manifests.Fetched, Error>, now: string,
                     write: Write): System
  {
    match CheckLatest(s.core.version, fetched)
    case Err(error) => Without(s, i).(core := SetError(s.core, StepDownload, error))
    case Ok(release) =>
      var c := RememberMirror(s.core, release, now);
      var s' := s.(core := c, files := WriteMemory(config, s.files, c.memory, write));
      if release.status == Available then With(s', i, Requested(release)) else Without(s', i)
  }

  function DoStartDownload(config: Config, s: System, i: nat, release: Release): System {
    var (c, entry) := BeginDownload(s.core, release);
    if entry != Entered then Without(s, i).(core := c)
    else With(s, i, Fetching(s.core.nextContext, release, Idle))
         .(core := c, owner := Some(i),
           attested := if PackageOf(s, release) in release.manifest.files
                       then s.attested + {(JobFor(config, s, release).target, Lower(JobFor(config, s, release).want))}
                       else s.attested)
  }

  function DoFetchWrites(s: System, i: nat, t: Thread, files: Files, at: Attempt): System
    requires t.Fetching?
  {
    With(s, i, t.(at := at)).(files := files)
  }

  function DoEndDownload(config: Config, s: System, i: nat, context: nat, release: Release,
                         outcome: Result<string, Error>, write: Write): System
  {
    var c := FinishDownload(s.core, release, outcome);
    With(s, i, Releasing(context))
    .(core := c, files := if outcome.Ok? then WriteMemory(config, s.files, c.memory, write) else s.files)
  }

  function DoGiveBack(s: System, i: nat): System {
    Without(s, i).(core := ReleaseBusy(s.core), owner := None)
  }

  function DoFireCancel(s: System, i: nat, read: Option<nat>): System {
    Without(s, i).(cancelled := s.cancelled + if read.Some? then {read.value} else {})
  }

  function DoStartInstall(s: System, i: nat): System {
    var s' := s.(core := BeginInstall(s.core));
    if IsReady(s.core)
    then With(s', i, Applying(s.core.memory.readyPath, s.core.memory.readyVersion, true, None)) else s'
  }

  function DoStartQuitInstall(s: System, i: nat, policy: Policy): System {
    if IsReady(s.core) && policy == PolicyAuto
    then With(s, i, Applying(s.core.memory.readyPath, s.core.memory.readyVersion, false, None)) else s
  }

  function DoOpenPackage(s: System, i: nat, t: Thread): System
    requires t.Applying? && t.path in s.files
  {
    With(s, i, t.(content := Some(s.files[t.path])))
    .(applied := s.applied + [Applied(s.core.version, t.version, t.path, s.files[t.path])])
  }

  function DoEndInstall(config: Config, s: System, i: nat, relaunch: bool, failure: Option<Error>, removed: bool,
                        write: Write): System
  {
    match failure
    case Some(error) => Without(s, i).(core := if relaunch then FailInstall(s.core, error) else s.core)
    case None =>
      var c := ForgetReady(s.core);
      Without(s, i).(core := c, files :=
        WriteMemory(config, Remove(s.files, s.core.memory.readyPath, removed), c.memory, write))
  }

  function DoSkip(config: Config, s: System, version: string, write: Write): System {
    var c := Skip(s.core, version);
    s.(core := c, files := WriteMemory(config, s.files, c.memory, write))
  }

  function DoRestart(config: Config, s: System, version: string, location: Location, removed: bool, write: Write): System {
    var (c, files) := Restore(config, version, location, s.core.nextContext, s.files, removed, write);
    s.(core := c, files := files, threads := map[], owner := None)
  }

  /** Whether the event can happen: its thread is at the right place in its own call, or is a fresh one starting a
      call, and what the directory or the outcome does is something fetch can do. */
  ghost predicate Ready(config: Config, s: System, event: Event) {
    match event
    case StartCheck(i, _) => i !in s.threads
    case AskDownload(i) => i !in s.threads
    case ReadCancel(i) => i !in s.threads
    case StartInstall(i) => i !in s.threads
    case StartQuitInstall(i, _) => i !in s.threads
    case AnswerCheck(i, fetched, _, _) => i in s.threads && s.threads[i].Checking? && Answers(fetched)
    case EndCheck(i, _, _, spawned, _) => i in s.threads && s.threads[i].Answered? && spawned !in s.threads
    case ResolveDownload(i, fetched, _, _) => i in s.threads && s.threads[i].Resolving? && Answers(fetched)
    case StartDownload(i) => i in s.threads && s.threads[i].Requested?
    case FetchFrom(i, _) => i in s.threads && s.threads[i].Fetching?
    case FetchReports(i, _, _) => i in s.threads && s.threads[i].Fetching?
    case FetchWrites(i, files, at) =>
      i in s.threads && s.threads[i].Fetching? &&
      PackageOf(s, s.threads[i].release) in s.threads[i].release.manifest.files &&
      FetchStep(JobFor(config, s, s.threads[i].release), s.files, s.threads[i].at, files, at)
    case EndFetch(i, outcome) => i in s.threads && s.threads[i].Fetching? && FetchMayEnd(config, s, s.threads[i], outcome)
    case EndDownload(i, _) => i in s.threads && s.threads[i].Fetched?
    case GiveBack(i) => i in s.threads && s.threads[i].Releasing?
    case FireCancel(i) => i in s.threads && s.threads[i].Cancelling?
    case OpenPackage(i) => i in s.threads && s.threads[i].Applying? && s.threads[i].path in s.files
    case EndInstall(i, failure, _, _) =>
      i in s.threads && s.threads[i].Applying? && (failure.None? ==> s.threads[i].content.Some?)
    case SkipRelease(_, _) => true
    case Restart(_, location, _, _) => Located(location)
  }

  ghost function Do(config: Config, s: System, event: Event): System
    requires Ready(config, s, event)
  {
    match event
    case StartCheck(i, manual) => DoStartCheck(s, i, manual)
    case AnswerCheck(i, fetched, now, write) => DoAnswerCheck(config, s, i, s.threads[i].manual, fetched, now, write)
    case EndCheck(i, now, policy, spawned, write) =>
      DoEndCheck(config, s, i, s.threads[i].manual, s.threads[i].answer, now, policy, spawned, write)
    case AskDownload(i) => With(s, i, Resolving)
    case ResolveDownload(i, fetched, now, write) => DoResolve(config, s, i, fetched, now, write)
    case StartDownload(i) => DoStartDownload(config, s, i, s.threads[i].release)
    case FetchFrom(_, mirror) => s.(core := TryMirror(s.core, mirror))
    case FetchWrites(i, files, at) => DoFetchWrites(s, i, s.threads[i], files, at)
    case FetchReports(_, done, total) => s.(core := Progress(s.core, done, total))
    case EndFetch(i, outcome) => With(s, i, Thread.Fetched(s.threads[i].context, s.threads[i].release, outcome))
    case EndDownload(i, write) =>
      DoEndDownload(config, s, i, s.threads[i].context, s.threads[i].release, s.threads[i].outcome, write)
    case GiveBack(i) => DoGiveBack(s, i)
    case ReadCancel(i) => With(s, i, Cancelling(s.core.cancel))
    case FireCancel(i) => DoFireCancel(s, i, s.threads[i].read)
    case StartInstall(i) => DoStartInstall(s, i)
    case StartQuitInstall(i, policy) => DoStartQuitInstall(s, i, policy)
    case OpenPackage(i) => DoOpenPackage(s, i, s.threads[i])
    case EndInstall(i, failure, removed, write) =>
      DoEndInstall(config, s, i, s.threads[i].relaunch, failure, removed, write)
    case SkipRelease(version, write) => DoSkip(config, s, version, write)
    case Restart(version, location, removed, write) => DoRestart(config, s, version, location, removed, write)
  }

  /** None when the event cannot happen in this state. */
  ghost function Step(config: Config, s: System, event: Event): Option<System> {
    if Ready(config, s, event) then Some(Do(config, s, event)) else None
  }

  /** The states after `events`, None when they cannot happen in that order. */
  ghost function Run(config: Config, s: System, events: seq<Event>): Option<System> {
    if events == [] then Some(s)
    else match Run(config, s, events[..|events| - 1])
      case None => None
      case Some(before) => Step(config, before, events[|events| - 1])
  }

  lemma RunNothing(config: Config, s: System)
    ensures Run(config, s, []) == Some(s)
  {
  }

  lemma RunThen(config: Config, s: System, events: seq<Event>, t: System, event: Event, t': System)
    requires Run(config, s, events) == Some(t) && Step(config, t, event) == Some(t')
    ensures Run(config, s, events + [event]) == Some(t')
  {
    hide Step;
    assert (events + [event])[..|events|] == events;
  }

  /** One run after another is a run. */
  lemma {:induction false} RunOn(config: Config, s: System, events: seq<Event>, t: System, more: seq<Event>)
    requires Run(config, s, events) == Some(t) && Run(config, t, more).Some?
    ensures Run(config, s, events + more) == Run(config, t, more)
  {
    hide Step;
    if more == [] {
      assert events + more == events;
    } else {
      RunOn(config, s, events, t, more[..|more| - 1]);
      assert (events + more)[..|events + more| - 1] == events + more[..|more| - 1];
    }
  }

  /** A first launch into a directory that holds nothing yet. */
  function Launch(version: string, location: Location): System {
    System(Fresh(version, location, NO_MEMORY, 0), map[], map[], None, {}, {}, [])
  }
}
