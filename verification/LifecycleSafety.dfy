/** What holds in every reachable state of the update lifecycle, whatever the interleaving, the mirrors, the disk
    and the moments at which the process is killed and started again. */
module LifecycleSafety {
  import opened Common
  import opened Disk
  import opened Download
  import opened Fetch
  import opened Lifecycle
  import opened Manifests
  import opened Target
  import SemVer

  // ---- The invariant -------------------------------------------------------------------------------

  /** The path is where the package of this version, in one of the shipped formats, is stored. */
  ghost predicate Named(config: Config, path: string, version: string) {
    exists target: Asset ::
      target.ext in {"dmg", "exe", "AppImage"} && path == config.PackagePath(target, version)
  }

  ghost predicate ReadyOK(config: Config, version: string, memory: Memory) {
    memory.readyPath != "" ==>
      Named(config, memory.readyPath, memory.readyVersion) && SemVer.Newer(version, memory.readyVersion)
  }

  ghost predicate PublishedOK(version: string, published: seq<State>) {
    forall state | state in published && state.phase == PhaseReady :: SemVer.Newer(version, state.latestVersion)
  }

  ghost predicate CoreOK(config: Config, c: Core) {
    Located(c.location) && ReadyOK(config, c.version, c.memory) && PublishedOK(c.version, c.published) &&
    (c.state.phase == PhaseReady ==> c.memory.readyPath != "" && c.memory.readyVersion == c.state.latestVersion)
  }

  ghost predicate ReleaseOK(version: string, release: Release) {
    SemVer.Newer(version, release.latestVersion)
  }

  ghost predicate ThreadOK(config: Config, c: Core, attested: set<(string, string)>, t: Thread) {
    match t
    case Answered(_, answer) => answer.Ok? && answer.value.status == Available ==> ReleaseOK(c.version, answer.value)
    case Requested(release) => ReleaseOK(c.version, release)
    case Fetching(context, release, _) =>
      context < c.nextContext && ReleaseOK(c.version, release) && c.location.CanInstall() &&
      var name := c.location.target.PackageName(release.latestVersion);
      (name in release.manifest.files ==>
         var job := JobOf(config.hash, config.directory, name, release.manifest.files[name]);
         (job.target, Lower(job.want)) in attested)
    case Fetched(context, release, outcome) =>
      context < c.nextContext && ReleaseOK(c.version, release) && c.location.CanInstall() &&
      (outcome.Ok? ==> outcome.value == config.PackagePath(c.location.target, release.latestVersion))
    case Releasing(context) => context < c.nextContext
    case Applying(path, version, _, _) => Named(config, path, version) && SemVer.Newer(c.version, version)
    case Cancelling(read) => read.Some? ==> read.value < c.nextContext
    case Checking(_) => true
    case Resolving => true
  }

  ghost predicate ThreadsOK(config: Config, c: Core, attested: set<(string, string)>, threads: map<nat, Thread>) {
    forall i | i in threads :: ThreadOK(config, c, attested, threads[i])
  }

  /** One thread owns busy, it is the only one of its kind, and a cancel function exists exactly while it downloads. */
  ghost predicate OwnerOK(c: Core, owner: Option<nat>, threads: map<nat, Thread>) {
    (owner.Some? <==> c.busy) &&
    (forall i | i in threads :: Owns(threads[i]) ==> owner == Some(i)) &&
    (owner.Some? ==> owner.value in threads && Owns(threads[owner.value])) &&
    c.cancel == (if owner.Some? && Downloading(threads[owner.value]) then Some(threads[owner.value].context) else None) &&
    (owner.Some? && (threads[owner.value].Fetching? || threads[owner.value].Fetched?) ==>
       c.state.latestVersion == threads[owner.value].release.latestVersion)
  }

  ghost predicate FileOK(config: Config, attested: set<(string, string)>, path: string, content: Bytes) {
    path != config.MemoryPath() && !IsPart(path) ==> (path, config.hash(content)) in attested
  }

  ghost predicate FilesOK(config: Config, attested: set<(string, string)>, files: Files) {
    (forall path | path in files :: FileOK(config, attested, path, files[path])) &&
    var memory := ReadMemory(config, files);
    (memory.readyPath != "" ==> Named(config, memory.readyPath, memory.readyVersion))
  }

  ghost predicate AppliedOK(config: Config, attested: set<(string, string)>, applied: seq<Applied>) {
    forall a | a in applied ::
      SemVer.Newer(a.running, a.version) && Named(config, a.path, a.version) && (a.path, config.hash(a.content)) in attested
  }

  ghost predicate Sound(config: Config, s: System) {
    CoreOK(config, s.core) && ThreadsOK(config, s.core, s.attested, s.threads) &&
    OwnerOK(s.core, s.owner, s.threads) && FilesOK(config, s.attested, s.files) &&
    AppliedOK(config, s.attested, s.applied) && forall context | context in s.cancelled :: context < s.core.nextContext
  }

  /** While a fetch has a part file open, it holds exactly what the fetch has fed to its digest. */
  ghost predicate PartOK(config: Config, s: System, t: Thread) {
    t.Fetching? ==>
      (t.at.Copying? ==> PackageOf(s, t.release) in t.release.manifest.files) &&
      (PackageOf(s, t.release) in t.release.manifest.files ==> Holds(JobFor(config, s, t.release), s.files, t.at))
  }

  ghost predicate PartsOK(config: Config, s: System) {
    forall i | i in s.threads :: PartOK(config, s, s.threads[i])
  }

  ghost predicate Inv(config: Config, s: System) {
    Sound(config, s) && PartsOK(config, s)
  }

  // ---- Steps keep it -------------------------------------------------------------------------------

  lemma NamedPath(config: Config, path: string, version: string)
    requires Named(config, path, version)
    ensures path != "" && !IsPart(path) && path != config.MemoryPath()
  {
    var target: Asset :| target.ext in {"dmg", "exe", "AppImage"} && path == config.PackagePath(target, version);
    PackagePathIsNeither(config.directory, target, version);
  }

  lemma WriteKeepsFiles(config: Config, attested: set<(string, string)>, files: Files, memory: Memory, write: Write)
    requires config.Faithful() && FilesOK(config, attested, files)
    requires memory.readyPath != "" ==> Named(config, memory.readyPath, memory.readyVersion)
    ensures FilesOK(config, attested, WriteMemory(config, files, memory, write))
  {
    RecordReadsBack(config, files, memory, write);
  }

  /** However far a write got, the record read back is the old one, the new one, or none at all. */
  lemma RecordReadsBack(config: Config, files: Files, memory: Memory, write: Write)
    requires config.Faithful()
    ensures var read := ReadMemory(config, WriteMemory(config, files, memory, write));
            match write
            case Kept => read == ReadMemory(config, files)
            case Stored => read == memory
            case Torn(n) => read == if n < |config.encode(memory)| then NO_MEMORY else memory
  {
  }

  lemma RemoveKeepsFiles(config: Config, attested: set<(string, string)>, files: Files, path: string, removed: bool)
    requires FilesOK(config, attested, files) && path != config.MemoryPath()
    ensures FilesOK(config, attested, Remove(files, path, removed))
  {
    assert ReadMemory(config, Remove(files, path, removed)) == ReadMemory(config, files);
  }

  // ---- Threads ---------------------------------------------------------------------------------------

  /** The fields of the core a thread's own condition reads: the build, its place, the contexts handed out. */
  ghost predicate Onward(c: Core, c': Core) {
    c'.version == c.version && c'.location == c.location && c.nextContext <= c'.nextContext
  }

  lemma ThreadStaysOK(config: Config, c: Core, attested: set<(string, string)>, c': Core, attested': set<(string, string)>,
                      t: Thread)
    requires ThreadOK(config, c, attested, t) && Onward(c, c') && attested <= attested'
    ensures ThreadOK(config, c', attested', t)
  {
    hide SemVer.Newer, Named;
  }

  lemma ThreadsStayOK(config: Config, s: System, s': System)
    requires ThreadsOK(config, s.core, s.attested, s.threads) && Onward(s.core, s'.core) && s.attested <= s'.attested
    requires forall i | i in s'.threads ::
               (i in s.threads && s'.threads[i] == s.threads[i]) || ThreadOK(config, s'.core, s'.attested, s'.threads[i])
    ensures ThreadsOK(config, s'.core, s'.attested, s'.threads)
  {
    hide ThreadOK;
    forall i | i in s'.threads ensures ThreadOK(config, s'.core, s'.attested, s'.threads[i]) {
      if i in s.threads && s'.threads[i] == s.threads[i] {
        ThreadStaysOK(config, s.core, s.attested, s'.core, s'.attested, s.threads[i]);
      }
    }
  }

  // ---- Check -----------------------------------------------------------------------------------------

  lemma BeginCheckKeepsCore(config: Config, c: Core)
    requires CoreOK(config, c)
    ensures var (c', entry) := BeginCheck(c);
            CoreOK(config, c') && Onward(c, c') && c'.cancel == c.cancel &&
            (if entry == Entered then !c.busy && c'.busy else c' == c)
  {
    hide SemVer.Newer, Named;
  }

  lemma StartCheckKeepsSound(config: Config, s: System, i: nat, manual: bool)
    requires Sound(config, s) && i !in s.threads
    ensures Sound(config, DoStartCheck(s, i, manual))
  {
    hide BeginCheck, CoreOK, FilesOK, AppliedOK;
    var s' := DoStartCheck(s, i, manual);
    BeginCheckKeepsCore(config, s.core);
    ThreadsStayOK(config, s, s') by { assert ThreadOK(config, s'.core, s'.attested, Checking(manual)); }
  }

  lemma AnswerIsOK(version: string, fetched: Result<Manifests.Fetched, Error>)
    ensures var answer := CheckLatest(version, fetched);
            answer.Ok? && answer.value.status == Available ==> ReleaseOK(version, answer.value)
  {
    CheckReportsNewer(version, fetched);
  }

  lemma RememberMirrorKeepsCore(config: Config, c: Core, release: Release, now: string)
    requires CoreOK(config, c)
    ensures var c' := RememberMirror(c, release, now);
            CoreOK(config, c') && c' == c.(memory := c'.memory) &&
            c'.memory.readyPath == c.memory.readyPath && c'.memory.readyVersion == c.memory.readyVersion
  {
    hide SemVer.Newer, Named;
  }

  lemma AnswerCheckKeepsSound(config: Config, s: System, i: nat, manual: bool, fetched: Result<Manifests.Fetched, Error>,
                            now: string, write: Write)
    requires config.Faithful() && Sound(config, s) && i in s.threads && s.threads[i] == Checking(manual)
    ensures Sound(config, DoAnswerCheck(config, s, i, manual, fetched, now, write))
  {
    hide SemVer.Newer, Named, CheckLatest, RememberMirror, ReadMemory, WriteMemory;
    var s' := DoAnswerCheck(config, s, i, manual, fetched, now, write);
    AnswerIsOK(s.core.version, fetched);
    var answer := CheckLatest(s.core.version, fetched);
    if answer.Ok? {
      RememberMirrorKeepsCore(config, s.core, answer.value, now);
      WriteKeepsFiles(config, s.attested, s.files, s'.core.memory, write);
    }
    ThreadsStayOK(config, s, s');
  }

  lemma FinishCheckKeepsCore(config: Config, c: Core, answer: Result<Release, Error>, manual: bool, now: string, policy: Policy)
    requires CoreOK(config, c)
    requires answer.Ok? && answer.value.status == Available ==> ReleaseOK(c.version, answer.value)
    ensures var (c', unasked) := FinishCheck(c, answer, manual, now, policy);
            CoreOK(config, c') && Onward(c, c') && !c'.busy && c'.cancel == c.cancel && c'.nextContext == c.nextContext &&
            (unasked.Some? ==> ReleaseOK(c.version, unasked.value))
  {
    hide SemVer.Newer, Named;
  }

  lemma EndCheckKeepsSound(config: Config, s: System, i: nat, manual: bool, answer: Result<Release, Error>, now: string,
                         policy: Policy, spawned: nat, write: Write)
    requires config.Faithful() && Sound(config, s) && i in s.threads && s.threads[i] == Answered(manual, answer)
    requires spawned !in s.threads
    ensures Sound(config, DoEndCheck(config, s, i, manual, answer, now, policy, spawned, write))
  {
    hide SemVer.Newer, Named, FinishCheck, ReadMemory, WriteMemory;
    var s' := DoEndCheck(config, s, i, manual, answer, now, policy, spawned, write);
    assert ThreadOK(config, s.core, s.attested, s.threads[i]);
    FinishCheckKeepsCore(config, s.core, answer, manual, now, policy);
    WriteKeepsFiles(config, s.attested, s.files, s'.core.memory, write);
    ThreadsStayOK(config, s, s');
  }

  // ---- Download ----------------------------------------------------------------------------------------

  lemma ResolveKeepsSound(config: Config, s: System, i: nat, fetched: Result<Manifests.Fetched, Error>, now: string,
                          write: Write)
    requires config.Faithful() && Sound(config, s) && i in s.threads && s.threads[i].Resolving?
    ensures Sound(config, DoResolve(config, s, i, fetched, now, write))
  {
    hide SemVer.Newer, Named, CheckLatest, RememberMirror, ReadMemory, WriteMemory;
    var s' := DoResolve(config, s, i, fetched, now, write);
    AnswerIsOK(s.core.version, fetched);
    var answer := CheckLatest(s.core.version, fetched);
    if answer.Ok? {
      RememberMirrorKeepsCore(config, s.core, answer.value, now);
      WriteKeepsFiles(config, s.attested, s.files, s'.core.memory, write);
    }
    ThreadsStayOK(config, s, s');
  }

  lemma AttestedGrows(config: Config, s: System, s': System)
    requires FilesOK(config, s.attested, s.files) && AppliedOK(config, s.attested, s.applied)
    requires s.attested <= s'.attested && s'.files == s.files && s'.applied == s.applied
    ensures FilesOK(config, s'.attested, s'.files) && AppliedOK(config, s'.attested, s'.applied)
  {
    hide SemVer.Newer, Named, ReadMemory;
    forall path | path in s.files ensures FileOK(config, s'.attested, path, s.files[path]) {
      assert FileOK(config, s.attested, path, s.files[path]);
    }
  }

  lemma StartDownloadKeepsSound(config: Config, s: System, i: nat, release: Release)
    requires Sound(config, s) && i in s.threads && s.threads[i] == Requested(release)
    ensures Sound(config, DoStartDownload(config, s, i, release))
  {
    hide SemVer.Newer, Named, Lower, FilesOK, AppliedOK;
    var s' := DoStartDownload(config, s, i, release);
    assert ThreadOK(config, s.core, s.attested, s.threads[i]);
    AttestedGrows(config, s, s');
    ThreadsStayOK(config, s, s');
  }

  lemma LocatedPackage(config: Config, c: Core, version: string)
    requires Located(c.location) && c.location.CanInstall()
    ensures Named(config, config.PackagePath(c.location.target, version), version)
  {
  }

  lemma PartIsPart(job: Job)
    ensures IsPart(job.Part())
  {
    assert job.Part()[|job.Part()| - 5..] == ".part";
  }

  lemma FetchStepKeepsFiles(config: Config, attested: set<(string, string)>, job: Job, before: Files, at: Attempt,
                            after: Files, next: Attempt)
    requires FilesOK(config, attested, before) && Holds(job, before, at) && FetchStep(job, before, at, after, next)
    requires job.hash == config.hash && job.memory == config.MemoryPath() && !IsPart(job.target)
    requires job.target != job.memory && (job.target, Lower(job.want)) in attested
    ensures FilesOK(config, attested, after)
  {
    hide Named, Lower, Join;
    PartIsPart(job);
    MemoryPathIsNoPart(config.directory);
    forall path | path in after ensures FileOK(config, attested, path, after[path]) {
      if path in before && after[path] == before[path] {
        assert FileOK(config, attested, path, before[path]);
      } else {
        assert path == job.target || path == job.Part();
        assert FileOK(config, attested, path, after[path]);
      }
    }
    assert ReadMemory(config, after).readyPath == "" || ReadMemory(config, after) == ReadMemory(config, before);
  }

  /** A fetch renames what it wrote over the package's name, because nothing beside it touched the part file; so it
      puts nothing there whose digest no manifest gave, and writes nothing else under a package's name. */
  lemma FetchWritesKeepsSound(config: Config, s: System, i: nat, files: Files, at: Attempt)
    requires Inv(config, s) && Lifecycle.Ready(config, s, FetchWrites(i, files, at))
    ensures Sound(config, DoFetchWrites(s, i, s.threads[i], files, at))
  {
    hide SemVer.Newer, OwnerOK, AppliedOK, Lower, FetchStep, Named;
    var release := s.threads[i].release;
    var job := JobFor(config, s, release);
    assert ThreadOK(config, s.core, s.attested, s.threads[i]) && PartOK(config, s, s.threads[i]);
    LocatedPackage(config, s.core, release.latestVersion);
    NamedPath(config, job.target, release.latestVersion);
    FetchStepKeepsFiles(config, s.attested, job, s.files, s.threads[i].at, files, at);
    FetchWritesKeepsRest(config, s, i, files, at);
  }

  lemma FetchWritesKeepsRest(config: Config, s: System, i: nat, files: Files, at: Attempt)
    requires ThreadsOK(config, s.core, s.attested, s.threads) && OwnerOK(s.core, s.owner, s.threads)
    requires i in s.threads && s.threads[i].Fetching?
    ensures var s' := DoFetchWrites(s, i, s.threads[i], files, at);
            ThreadsOK(config, s'.core, s'.attested, s'.threads) && OwnerOK(s'.core, s'.owner, s'.threads)
  {
    hide SemVer.Newer, Named, Lower;
    assert ThreadOK(config, s.core, s.attested, s.threads[i]);
  }

  lemma ReportKeepsSound(config: Config, s: System, c: Core)
    requires Sound(config, s)
    requires (exists mirror :: c == TryMirror(s.core, mirror)) || (exists done, total :: c == Progress(s.core, done, total))
    ensures Sound(config, s.(core := c))
  {
    hide SemVer.Newer, Named, FilesOK, AppliedOK;
    ThreadsStayOK(config, s, s.(core := c));
  }

  lemma EndFetchKeepsSound(config: Config, s: System, i: nat, outcome: Result<string, Error>)
    requires Sound(config, s) && Lifecycle.Ready(config, s, EndFetch(i, outcome))
    ensures Sound(config, With(s, i, Thread.Fetched(s.threads[i].context, s.threads[i].release, outcome)))
  {
    hide SemVer.Newer, Named, CoreOK, FilesOK, AppliedOK;
    assert ThreadOK(config, s.core, s.attested, s.threads[i]);
    ThreadsStayOK(config, s, With(s, i, Thread.Fetched(s.threads[i].context, s.threads[i].release, outcome)));
  }

  lemma EndDownloadKeepsSound(config: Config, s: System, i: nat, context: nat, release: Release,
                            outcome: Result<string, Error>, write: Write)
    requires config.Faithful() && Sound(config, s) && i in s.threads
    requires s.threads[i] == Thread.Fetched(context, release, outcome)
    ensures Sound(config, DoEndDownload(config, s, i, context, release, outcome, write))
  {
    hide SemVer.Newer, Named, ReadMemory, WriteMemory;
    var s' := DoEndDownload(config, s, i, context, release, outcome, write);
    assert ThreadOK(config, s.core, s.attested, s.threads[i]);
    LocatedPackage(config, s.core, release.latestVersion);
    if outcome.Ok? {
      WriteKeepsFiles(config, s.attested, s.files, s'.core.memory, write);
    }
    ThreadsStayOK(config, s, s');
  }

  lemma GiveBackKeepsSound(config: Config, s: System, i: nat)
    requires Sound(config, s) && i in s.threads && s.threads[i].Releasing?
    ensures Sound(config, DoGiveBack(s, i))
  {
    hide SemVer.Newer, Named, FilesOK, AppliedOK;
    ThreadsStayOK(config, s, DoGiveBack(s, i));
  }

  lemma CancelKeepsSound(config: Config, s: System, i: nat)
    requires Sound(config, s)
    ensures i !in s.threads ==> Sound(config, With(s, i, Resolving)) && Sound(config, With(s, i, Cancelling(s.core.cancel)))
    ensures i in s.threads && s.threads[i].Cancelling? ==> Sound(config, DoFireCancel(s, i, s.threads[i].read))
  {
    hide SemVer.Newer, Named, CoreOK, FilesOK, AppliedOK;
    if i !in s.threads {
      assert s.core.cancel.Some? ==> ThreadOK(config, s.core, s.attested, s.threads[s.owner.value]);
      ThreadsStayOK(config, s, With(s, i, Resolving));
      ThreadsStayOK(config, s, With(s, i, Cancelling(s.core.cancel)));
    } else if s.threads[i].Cancelling? {
      assert ThreadOK(config, s.core, s.attested, s.threads[i]);
      ThreadsStayOK(config, s, DoFireCancel(s, i, s.threads[i].read));
    }
  }

  // ---- Install -----------------------------------------------------------------------------------------

  lemma StartInstallKeepsSound(config: Config, s: System, i: nat)
    requires Sound(config, s) && i !in s.threads
    ensures Sound(config, DoStartInstall(s, i))
  {
    hide SemVer.Newer, Named, FilesOK, AppliedOK;
    ThreadsStayOK(config, s, DoStartInstall(s, i));
  }

  lemma StartQuitInstallKeepsSound(config: Config, s: System, i: nat, policy: Policy)
    requires Sound(config, s) && i !in s.threads
    ensures Sound(config, DoStartQuitInstall(s, i, policy))
  {
    hide SemVer.Newer, Named, FilesOK, AppliedOK;
    ThreadsStayOK(config, s, DoStartQuitInstall(s, i, policy));
  }

  lemma OpenPackageKeepsSound(config: Config, s: System, i: nat)
    requires Sound(config, s) && i in s.threads && s.threads[i].Applying? && s.threads[i].path in s.files
    ensures Sound(config, DoOpenPackage(s, i, s.threads[i]))
  {
    hide SemVer.Newer, Named;
    var t := s.threads[i];
    assert ThreadOK(config, s.core, s.attested, t);
    NamedPath(config, t.path, t.version);
    assert FileOK(config, s.attested, t.path, s.files[t.path]);
    ThreadsStayOK(config, s, DoOpenPackage(s, i, t));
  }

  lemma EndInstallKeepsSound(config: Config, s: System, i: nat, relaunch: bool, failure: Option<Error>, removed: bool,
                             write: Write)
    requires config.Faithful() && Sound(config, s) && i in s.threads && s.threads[i].Applying?
    ensures Sound(config, DoEndInstall(config, s, i, relaunch, failure, removed, write))
  {
    hide SemVer.Newer, Named, ReadMemory, WriteMemory;
    var s' := DoEndInstall(config, s, i, relaunch, failure, removed, write);
    if failure.None? {
      ForgetKeepsFiles(config, s, removed, write);
    }
    ThreadsStayOK(config, s, s');
  }

  lemma ForgetKeepsFiles(config: Config, s: System, removed: bool, write: Write)
    requires config.Faithful() && FilesOK(config, s.attested, s.files) && CoreOK(config, s.core)
    ensures FilesOK(config, s.attested,
              WriteMemory(config, Remove(s.files, s.core.memory.readyPath, removed), ForgetReady(s.core).memory, write))
  {
    hide SemVer.Newer;
    var path := s.core.memory.readyPath;
    if path != "" {
      NamedPath(config, path, s.core.memory.readyVersion);
    } else {
      assert config.MemoryPath() != "";
    }
    RemoveKeepsFiles(config, s.attested, s.files, path, removed);
    WriteKeepsFiles(config, s.attested, Remove(s.files, path, removed), ForgetReady(s.core).memory, write);
  }

  lemma SkipKeepsSound(config: Config, s: System, version: string, write: Write)
    requires config.Faithful() && Sound(config, s)
    ensures Sound(config, DoSkip(config, s, version, write))
  {
    hide SemVer.Newer, Named, ReadMemory, WriteMemory;
    var s' := DoSkip(config, s, version, write);
    WriteKeepsFiles(config, s.attested, s.files, s'.core.memory, write);
    ThreadsStayOK(config, s, s');
  }

  // ---- Restart -----------------------------------------------------------------------------------------

  lemma RestartKeepsSound(config: Config, s: System, version: string, location: Location, removed: bool, write: Write)
    requires config.Faithful() && Sound(config, s) && Located(location)
    ensures Sound(config, DoRestart(config, s, version, location, removed, write))
  {
    hide SemVer.Newer, Named, ReadMemory, WriteMemory;
    var memory := ReadMemory(config, s.files);
    if memory.readyPath != "" {
      NamedPath(config, memory.readyPath, memory.readyVersion);
      RemoveKeepsFiles(config, s.attested, s.files, memory.readyPath, removed);
      WriteKeepsFiles(config, s.attested, Remove(s.files, memory.readyPath, removed), ClearReady(memory), write);
    }
  }

  // ---- Part files --------------------------------------------------------------------------------------

  lemma WriteLeavesOthers(config: Config, files: Files, memory: Memory, write: Write, path: string)
    requires path != config.MemoryPath()
    ensures var after := WriteMemory(config, files, memory, write);
            (path in after <==> path in files) && (path in after ==> after[path] == files[path])
  {
  }

  /** While a fetch is at work nothing beside it touches its part file: not a check, a skip or a download's end, which
      write the record, not an install, which removes a package, and not another fetch, which there is none. */
  lemma OnlyItsFetchTouchesThePart(config: Config, s: System, event: Event, i: nat)
    requires Inv(config, s) && Step(config, s, event).Some? && i in s.threads && s.threads[i].Fetching?
    requires PackageOf(s, s.threads[i].release) in s.threads[i].release.manifest.files
    requires !event.Restart? && !(event.FetchWrites? && event.thread == i)
    ensures var part, after := JobFor(config, s, s.threads[i].release).Part(), Step(config, s, event).value.files;
            (part in after <==> part in s.files) && (part in after ==> after[part] == s.files[part])
  {
    hide SemVer.Newer, CheckLatest, ThreadOK, FilesOK, AppliedOK, WriteMemory, FetchStep, FinishCheck, RememberMirror, Skip,
      FinishDownload, BeginDownload, BeginCheck, PartOK, IsPart, Named, Lower, Progress, TryMirror, Answers, FetchMayEnd,
      ReleaseBusy, BeginInstall, FailInstall, ForgetReady, SetError, Restore, OwnerOK;
    var job := JobFor(config, s, s.threads[i].release);
    PartIsPart(job);
    MemoryPathIsNoPart(config.directory);
    forall files, memory, write
      ensures var after := WriteMemory(config, files, memory, write);
              (job.Part() in after <==> job.Part() in files) &&
              (job.Part() in after ==> after[job.Part()] == files[job.Part()])
    {
      WriteLeavesOthers(config, files, memory, write, job.Part());
    }
    assert s.core.memory.readyPath != job.Part() by {
      if s.core.memory.readyPath != "" {
        NamedPath(config, s.core.memory.readyPath, s.core.memory.readyVersion);
      }
    }
    if event.FetchWrites? {
      OneFetch(config, s, i, event.thread);
    }
  }

  lemma OneFetch(config: Config, s: System, i: nat, j: nat)
    requires Inv(config, s) && i in s.threads && s.threads[i].Fetching? && j in s.threads && s.threads[j].Fetching?
    ensures i == j
  {
    assert Owns(s.threads[i]) && Owns(s.threads[j]);
  }

  /** Another thread's step, and this one's until it ends, leave what a fetch is doing to itself. */
  lemma OthersLeaveFetch(config: Config, s: System, event: Event, j: nat)
    requires Step(config, s, event).Some? && !event.Restart? && !(event.FetchWrites? && event.thread == j)
    ensures var s' := Step(config, s, event).value;
            j in s'.threads && s'.threads[j].Fetching? ==>
              (j in s.threads && s'.threads[j] == s.threads[j]) || s'.threads[j].at == Idle
  {
    hide SemVer.Newer, CheckLatest, WriteMemory, FetchStep, RememberMirror, FetchMayEnd, Answers, JobFor, FinishCheck,
      BeginCheck, BeginDownload, FinishDownload, ReleaseBusy, BeginInstall, FailInstall, ForgetReady, Skip, TryMirror, Progress,
      SetError;
  }

  lemma LocationStays(config: Config, s: System, event: Event)
    requires Step(config, s, event).Some? && !event.Restart?
    ensures Step(config, s, event).value.core.location == s.core.location
  {
    hide SemVer.Newer, CheckLatest, WriteMemory, FetchStep, RememberMirror, FetchMayEnd, Answers, JobFor;
    RememberMirrorStaysPut(s.core);
  }

  lemma RememberMirrorStaysPut(c: Core)
    ensures forall release, now :: RememberMirror(c, release, now).location == c.location
  {
  }

  lemma PartStaysOK(config: Config, s: System, event: Event, j: nat)
    requires Inv(config, s) && Step(config, s, event).Some? && !event.Restart?
    requires j in Step(config, s, event).value.threads
    ensures PartOK(config, Step(config, s, event).value, Step(config, s, event).value.threads[j])
  {
    hide Sound, Do, FetchStep, JobFor;
    var s' := Step(config, s, event).value;
    assert j in s.threads ==> PartOK(config, s, s.threads[j]);
    if event.FetchWrites? && event.thread == j {
      OwnStepKeepsPart(config, s, j, event.files, event.at);
    } else if s'.threads[j].Fetching? {
      OthersLeaveFetch(config, s, event, j);
      LocationStays(config, s, event);
      var release := s'.threads[j].release;
      if s'.threads[j].at != Idle && PackageOf(s, release) in release.manifest.files {
        OnlyItsFetchTouchesThePart(config, s, event, j);
        SameJob(config, s, s', release);
      }
    }
  }

  lemma SameJob(config: Config, s: System, s': System, release: Release)
    requires PackageOf(s, release) in release.manifest.files && s'.core.location == s.core.location
    ensures JobFor(config, s', release) == JobFor(config, s, release)
  {
  }

  lemma OwnStepKeepsPart(config: Config, s: System, i: nat, files: Files, at: Attempt)
    requires PartsOK(config, s) && Lifecycle.Ready(config, s, FetchWrites(i, files, at))
    ensures var s' := Do(config, s, FetchWrites(i, files, at)); PartOK(config, s', s'.threads[i])
  {
    hide FetchStep, Holds;
    var job := JobFor(config, s, s.threads[i].release);
    assert PartOK(config, s, s.threads[i]);
    FetchStepHolds(job, s.files, s.threads[i].at, files, at);
  }

  lemma StepKeepsParts(config: Config, s: System, event: Event)
    requires Inv(config, s) && Step(config, s, event).Some?
    ensures PartsOK(config, Step(config, s, event).value)
  {
    hide Inv, Step, PartOK;
    var s' := Step(config, s, event).value;
    if event.Restart? {
      RestartHasNoThreads(config, s, event);
    } else {
      forall j | j in s'.threads ensures PartOK(config, s', s'.threads[j]) {
        PartStaysOK(config, s, event, j);
      }
    }
  }

  lemma RestartHasNoThreads(config: Config, s: System, event: Event)
    requires event.Restart? && Step(config, s, event).Some?
    ensures Step(config, s, event).value.threads == map[]
  {
    hide Restore;
  }

  // ---- Every reachable state ----------------------------------------------------------------------------

  lemma StepKeepsSound(config: Config, s: System, event: Event)
    requires config.Faithful() && Inv(config, s) && Step(config, s, event).Some?
    ensures Sound(config, Step(config, s, event).value)
  {
    hide Sound, PartsOK, DoStartCheck, DoAnswerCheck, DoEndCheck, DoResolve, DoStartDownload, DoFetchWrites, DoEndDownload,
      DoGiveBack, DoFireCancel, DoStartInstall, DoStartQuitInstall, DoOpenPackage, DoEndInstall, DoSkip, DoRestart, TryMirror,
      Progress;
    match event
    case StartCheck(i, manual) => StartCheckKeepsSound(config, s, i, manual);
    case AnswerCheck(i, fetched, now, write) =>
      AnswerCheckKeepsSound(config, s, i, s.threads[i].manual, fetched, now, write);
    case EndCheck(i, now, policy, spawned, write) =>
      EndCheckKeepsSound(config, s, i, s.threads[i].manual, s.threads[i].answer, now, policy, spawned, write);
    case AskDownload(i) => CancelKeepsSound(config, s, i);
    case ResolveDownload(i, fetched, now, write) => ResolveKeepsSound(config, s, i, fetched, now, write);
    case StartDownload(i) => StartDownloadKeepsSound(config, s, i, s.threads[i].release);
    case FetchFrom(_, mirror) => ReportKeepsSound(config, s, TryMirror(s.core, mirror));
    case FetchWrites(i, files, at) => FetchWritesKeepsSound(config, s, i, files, at);
    case FetchReports(_, done, total) => ReportKeepsSound(config, s, Progress(s.core, done, total));
    case EndFetch(i, outcome) => EndFetchKeepsSound(config, s, i, outcome);
    case EndDownload(i, write) =>
      EndDownloadKeepsSound(config, s, i, s.threads[i].context, s.threads[i].release, s.threads[i].outcome, write);
    case GiveBack(i) => GiveBackKeepsSound(config, s, i);
    case ReadCancel(i) => CancelKeepsSound(config, s, i);
    case FireCancel(i) => CancelKeepsSound(config, s, i);
    case StartInstall(i) => StartInstallKeepsSound(config, s, i);
    case StartQuitInstall(i, policy) => StartQuitInstallKeepsSound(config, s, i, policy);
    case OpenPackage(i) => OpenPackageKeepsSound(config, s, i);
    case EndInstall(i, failure, removed, write) =>
      EndInstallKeepsSound(config, s, i, s.threads[i].relaunch, failure, removed, write);
    case SkipRelease(version, write) => SkipKeepsSound(config, s, version, write);
    case Restart(version, location, removed, write) => RestartKeepsSound(config, s, version, location, removed, write);
  }

  lemma StepKeepsInv(config: Config, s: System, event: Event)
    requires config.Faithful() && Inv(config, s) && Step(config, s, event).Some?
    ensures Inv(config, Step(config, s, event).value)
  {
    hide Step, Sound, PartsOK;
    StepKeepsSound(config, s, event);
    StepKeepsParts(config, s, event);
  }

  lemma {:induction false} RunKeepsInv(config: Config, s: System, events: seq<Event>)
    requires config.Faithful() && Inv(config, s) && Run(config, s, events).Some?
    ensures Inv(config, Run(config, s, events).value)
  {
    hide Inv, Step;
    if events != [] {
      RunKeepsInv(config, s, events[..|events| - 1]);
      StepKeepsInv(config, Run(config, s, events[..|events| - 1]).value, events[|events| - 1]);
    }
  }

  lemma LaunchIsOK(config: Config, version: string, location: Location)
    requires Located(location)
    ensures Inv(config, Launch(version, location))
  {
    hide SemVer.ParseStable;
  }
}
