/** What the manager's whole calls come to: what a check finds and leaves, how a download and an install end. */
module Outcomes {
  import opened Calls
  import opened Common
  import opened Disk
  import opened Download
  import opened Fetch
  import opened Lifecycle
  import opened LifecycleSafety
  import opened Manifests
  import opened Mirrors
  import opened Target
  import Race
  import SemVer

  predicate ListsPackage(location: Location, release: Release) {
    location.target.PackageName(release.latestVersion) in release.manifest.files
  }

  /** The release lists a usable package for this build. */
  predicate Listed(location: Location, release: Release) {
    var name := location.target.PackageName(release.latestVersion);
    name in release.manifest.files && UsableFile(release.manifest.files[name])
  }

  function ListedJob(config: Config, location: Location, release: Release): Job
    requires location.target.PackageName(release.latestVersion) in release.manifest.files
  {
    var name := location.target.PackageName(release.latestVersion);
    JobOf(config.hash, config.directory, name, release.manifest.files[name])
  }

  /** The path is the package's, and the file there has the digest the release gives for it. */
  ghost predicate HasPackage(config: Config, location: Location, release: Release, files: Files, path: string) {
    location.target.PackageName(release.latestVersion) in release.manifest.files &&
    var job := ListedJob(config, location, release);
    path == job.target && path in files && job.Genuine(files[path])
  }

  /** How the first `n` requests are answered. */
  function ResponsesTo(respond: nat -> Response, n: nat): (responses: seq<Response>)
    ensures |responses| == n && forall k | 0 <= k < n :: responses[k] == respond(k)
  {
    seq(n, k requires 0 <= k < n => respond(k))
  }

  function ListedFile(location: Location, release: Release): ManifestFile
    requires ListsPackage(location, release)
  {
    release.manifest.files[location.target.PackageName(release.latestVersion)]
  }

  /** What was published since begins with a state of this phase. */
  ghost predicate FirstShown(before: seq<State>, published: seq<State>, phase: Phase) {
    |before| < |published| && before <= published && published[|before|].phase == phase
  }

  ghost predicate LastShown(published: seq<State>, state: State) {
    published != [] && published[|published| - 1] == state
  }

  // ---- How a check ends --------------------------------------------------------------------------------

  /** What a check leaves on display and on record: its failure; nothing, when nothing newer was found; or the release.
      Only a manual check takes the release it finds off the skip list. */
  ghost predicate ChecksOut(before: Memory, answer: Result<Release, Error>, manual: bool, ended: string, state: State,
                            memory: Memory)
  {
    var newer := answer.Ok? && answer.value.status == Available;
    memory.checkedAt == state.checkedAt == ended && memory.readyPath == before.readyPath &&
    memory.readyVersion == before.readyVersion &&
    (answer.Err? ==> state.phase == PhaseError && state.failedStep == StepCheck && state.error == Some(answer.error)) &&
    (answer.Ok? ==>
       state.error == None && state.failedStep == StepNone && state.outcome == Some(answer.value.status) &&
       state.releaseURL == answer.value.releaseURL) &&
    (answer.Ok? && !newer ==>
       state.phase == PhaseIdle && state.latestVersion == "" && state.notes == "" && state.publishedAt == "") &&
    (newer ==>
       state.phase == PhaseAvailable && state.latestVersion == answer.value.latestVersion &&
       state.notes == answer.value.notes && state.publishedAt == answer.value.publishedAt) &&
    (newer && manual && before.skipped == answer.value.latestVersion ==> state.skipped == "") &&
    memory.skipped == if newer && manual && before.skipped == answer.value.latestVersion then "" else before.skipped
  }

  /** A download starts unasked exactly for a newer release that is not on the skip list, when the policy downloads and the
      build can install. */
  ghost predicate StartsUnasked(answer: Result<Release, Error>, policy: Policy, location: Location, memory: Memory,
                                unasked: Option<Release>)
  {
    (unasked.Some? <==>
       answer.Ok? && answer.value.status == Available && policy in {PolicyDownload, PolicyAuto} &&
       location.blocker == BlockerNone && memory.skipped != answer.value.latestVersion) &&
    (unasked.Some? ==> unasked.value == answer.value)
  }

  lemma CheckEndsAs(c: Core, before: Memory, answer: Result<Release, Error>, manual: bool, now: string, policy: Policy)
    requires c.memory.skipped == before.skipped && c.memory.readyPath == before.readyPath &&
             c.memory.readyVersion == before.readyVersion
    requires c.state.phase == PhaseChecking && c.state.error == None && c.state.failedStep == StepNone
    ensures var (c', unasked) := Lifecycle.FinishCheck(c, answer, manual, now, policy);
            ChecksOut(before, answer, manual, now, c'.state, c'.memory) && !c'.busy &&
            c'.published == c.published + [c'.state] &&
            c'.memory.preferredMirror == c.memory.preferredMirror && c'.memory.mirrorMeasured == c.memory.mirrorMeasured &&
            c'.memory.learnedMirrors == c.memory.learnedMirrors &&
            StartsUnasked(answer, policy, c.location, c'.memory, unasked)
  {
  }

  lemma CheckBegun(c: Core)
    ensures var (c', entry) := Lifecycle.BeginCheck(c);
            entry == (if SemVer.ParseStable(c.version).None? then Development else if c.busy then Busy else Entered) &&
            (entry != Entered ==> c' == c) &&
            (entry == Entered ==>
               c'.published == c.published + [c'.state] && c'.memory == c.memory &&
               c'.state.phase == PhaseChecking && c'.state.error == None &&
               c'.state.failedStep == StepNone)
  {
    hide SemVer.ParseStable;
  }

  /** What is recorded of an answer: the mirror it came from, and the mirrors its index names. */
  ghost predicate Learnt(before: Memory, answer: Result<Release, Error>, now: string, memory: Memory) {
    if answer.Err? then
      memory.preferredMirror == before.preferredMirror && memory.mirrorMeasured == before.mirrorMeasured &&
      memory.learnedMirrors == before.learnedMirrors
    else
      var mirror, named := answer.value.mirror, answer.value.manifest.mirrors;
      (mirror.name != "" ==> memory.preferredMirror == mirror.name && memory.mirrorMeasured == now) &&
      memory.learnedMirrors == if named == [] then before.learnedMirrors else Merge(before.learnedMirrors, named)
  }

  lemma Remembered(c: Core, answer: Result<Release, Error>, now: string)
    ensures answer.Ok? ==>
              var c' := Lifecycle.RememberMirror(c, answer.value, now);
              c' == c.(memory := c'.memory) && Learnt(c.memory, answer, now, c'.memory) &&
              c'.memory.skipped == c.memory.skipped && c'.memory.checkedAt == c.memory.checkedAt &&
              c'.memory.readyPath == c.memory.readyPath && c'.memory.readyVersion == c.memory.readyVersion
  {
    hide Merge;
  }

  lemma NothingLearnt(before: Memory, answer: Result<Release, Error>, now: string)
    ensures answer.Err? ==> Learnt(before, answer, now, before)
  {
  }

  // ---- How an install ends -----------------------------------------------------------------------------

  /** An install that succeeded leaves no trace of its package: not in the record, and without a fault of the disk not in
      the directory either. */
  ghost predicate InstallLeaves(config: Config, before: Memory, memory: Memory, files: Files, faultless: bool) {
    memory == before.(readyPath := "", readyVersion := "") &&
    (faultless ==> before.readyPath !in files && (config.Faithful() ==> ReadMemory(config, files) == memory))
  }

  lemma InstallLeavesNothing(config: Config, c: Core, files: Files, memory: Memory, removed: bool, write: Write, faultless: bool)
    requires CoreOK(config, c) && c.memory.readyPath != "" && memory == c.memory.(readyPath := "", readyVersion := "")
    requires faultless ==> write == Stored && (removed || c.memory.readyPath !in files)
    ensures InstallLeaves(config, c.memory, memory,
                          WriteMemory(config, Lifecycle.Remove(files, c.memory.readyPath, removed), memory, write), faultless)
  {
    hide WriteMemory, ReadMemory, Named, SemVer.Newer;
    var path, left := c.memory.readyPath, Lifecycle.Remove(files, c.memory.readyPath, removed);
    NamedPath(config, path, c.memory.readyVersion);
    WriteLeavesOthers(config, left, memory, write, path);
    if config.Faithful() {
      RecordReadsBack(config, left, memory, write);
    }
  }

  // ---- How a download ends -----------------------------------------------------------------------------

  /** The release a download is about is on display. */
  ghost predicate Displays(state: State, release: Release) {
    state.latestVersion == release.latestVersion && state.notes == release.notes && state.publishedAt == release.publishedAt
  }

  /** A download's failure is on display. */
  ghost predicate Failed(state: State) {
    state.phase == PhaseError && state.failedStep == StepDownload && state.error.Some?
  }

  /** The release is on offer again, as if its download had never begun, and nothing is reported. */
  ghost predicate OnOffer(state: State) {
    state.phase == PhaseAvailable && state.error == None && state.failedStep == StepNone &&
    state.downloaded == 0 && state.total == -1
  }

  /** How a download of a listed package ends: ready, on offer again or failed, with a reason for every mirror. It is on
      offer only after a cancellation; and without a fault of the disk the answers alone decide. */
  ghost predicate EndedAs(job: Job, release: Release, responses: seq<Response>, faultless: bool, state: State) {
    (state.phase == PhaseReady || OnOffer(state) ||
     (Failed(state) && state.error.value.MirrorFailure? && NamesEach(state.error.value.reasons, MirrorsOf(release)))) &&
    (state.phase == PhaseAvailable ==> exists k :: 0 <= k < |responses| && Cancels(job, responses[k])) &&
    (faultless ==>
       (state.phase == PhaseReady <==> SomeMirrorServes(job, responses)) &&
       (state.phase == PhaseAvailable <==> CancelledFirst(job, responses)) &&
       (state.phase == PhaseError <==> NothingCame(job, responses)))
  }

  /** What a download that was let in leaves: the phase tells how it ended, and a package that is ready is genuine. */
  ghost predicate EndsIn(config: Config, location: Location, release: Release, responses: seq<Response>, faultless: bool,
                         state: State, memory: Memory, files: Files)
  {
    Displays(state, release) &&
    (state.phase == PhaseReady ==>
       memory.readyVersion == release.latestVersion && HasPackage(config, location, release, files, memory.readyPath)) &&
    (!ListsPackage(location, release) ==> Failed(state)) &&
    (ListsPackage(location, release) ==>
       EndedAs(ListedJob(config, location, release), release, responses, faultless && Listed(location, release), state))
  }

  lemma EndsInStill(config: Config, location: Location, release: Release, responses: seq<Response>, was: bool, faultless: bool,
                    state: State, memory: Memory, files: Files)
    requires EndsIn(config, location, release, responses, was, state, memory, files) && (faultless ==> was)
    ensures EndsIn(config, location, release, responses, faultless, state, memory, files)
  {
    hide HasPackage, Failed, OnOffer, Listed, SomeMirrorServes, CancelledFirst, NothingCame, NamesEach;
  }

  lemma EntryIs(c: Core, release: Release)
    ensures var (c', entry) := Lifecycle.BeginDownload(c, release);
            entry == (if c.busy then Busy else if c.location.CanInstall() then Entered else Blocked) &&
            (entry == Busy ==> c' == c) &&
            (entry == Blocked ==> Failed(c'.state) && c'.state.error == Some(NotInstallable)) &&
            (entry != Busy ==> c'.published == c.published + [c'.state]) &&
            (entry == Entered ==>
               c'.state.phase == PhaseDownloading && c'.state.error == None && c'.state.failedStep == StepNone &&
               Displays(c'.state, release))
  {
  }

  lemma FinishedAs(c: Core, release: Release, r: Result<string, Error>)
    requires c.state.error == None && c.state.failedStep == StepNone && Displays(c.state, release)
    ensures var c' := Lifecycle.ReleaseBusy(Lifecycle.FinishDownload(c, release, r));
            c'.published == c.published + [c'.state] && !c'.busy && Displays(c'.state, release) &&
            (c'.state.phase == PhaseReady <==> r.Ok?) &&
            (r.Ok? ==> c'.memory.readyPath == r.value && c'.memory.readyVersion == release.latestVersion) &&
            (r.Err? && IsCanceled(r.error) ==> OnOffer(c'.state)) &&
            (r.Err? && !IsCanceled(r.error) ==> Failed(c'.state) && c'.state.error == Some(r.error))
  {
    hide IsCanceled;
  }

  lemma FetchEndsAs(c: Core, job: Job, release: Release, responses: seq<Response>, was: bool, faultless: bool,
                    file: ManifestFile, files: Files, r: Result<string, Error>)
    requires c.state.error == None && c.state.failedStep == StepNone && Displays(c.state, release)
    requires FetchedAs(job, release, file, responses, files, was, r) && (faultless ==> was)
    ensures EndedAs(job, release, responses, faultless && UsableFile(file),
                    Lifecycle.ReleaseBusy(Lifecycle.FinishDownload(c, release, r)).state)
  {
    hide IsCanceled, UsableFile, Lifecycle.FinishDownload, Lifecycle.ReleaseBusy, SomeMirrorServes, CancelledFirst,
      NothingCame, Cancels, NamesEach;
    FinishedAs(c, release, r);
  }

  lemma RecordLeavesPackage(config: Config, location: Location, release: Release, files: Files, memory: Memory, write: Write)
    requires Located(location) && location.CanInstall()
    requires location.target.PackageName(release.latestVersion) in release.manifest.files
    requires HasPackage(config, location, release, files, ListedJob(config, location, release).target)
    ensures HasPackage(config, location, release, WriteMemory(config, files, memory, write),
                       ListedJob(config, location, release).target)
  {
    hide WriteMemory, Lower;
    PackagePathIsNeither(config.directory, location.target, release.latestVersion);
    WriteLeavesOthers(config, files, memory, write, ListedJob(config, location, release).target);
  }

  // ---- What a check finds ----------------------------------------------------------------------------

  /** The release described by this index, to be downloaded from these mirrors in this order. */
  ghost predicate Carries(release: Release, manifest: Manifest, order: seq<Mirror>) {
    release.manifest == manifest && order != [] && release.mirror == order[0] && MirrorsOf(release) == order
  }

  /** The mirror that answered last is still known, was measured recently enough, and answers on its own. */
  ghost predicate PreferredAnswers(memory: Memory, measured: Option<int>, clock: int, quick: seq<Race.Answer>) {
    memory.preferredMirror != "" && memory.preferredMirror in Names(Merge(BOOTSTRAP, memory.learnedMirrors)) &&
    measured.Some? && clock - measured.value < PREFERENCE_TTL && exists k :: Race.Wins(quick, k)
  }

  /** A check finds a release when the preferred mirror or the race has a winner: then it is the release of the index that
      won, to be downloaded from the preferred mirror alone, or from the winner first and then the others as configured. */
  ghost predicate FoundBy(version: string, memory: Memory, measured: Option<int>, clock: int, quick: seq<Race.Answer>,
                          full: seq<Race.Answer>, answer: Result<Release, Error>)
    requires forall a | a in full :: a.sender < |Merge(BOOTSTRAP, memory.learnedMirrors)|
  {
    var plan, preferred := Merge(BOOTSTRAP, memory.learnedMirrors), PreferredAnswers(memory, measured, clock, quick);
    (answer.Ok? <==> SemVer.ParseStable(version).Some? && (preferred || exists k :: Race.Wins(full, k))) &&
    (answer.Ok? && preferred ==>
       forall k | Race.Wins(quick, k) ::
         exists m :: m in plan && m.name == memory.preferredMirror && Carries(answer.value, quick[k].outcome.value, [m])) &&
    (answer.Ok? && !preferred ==>
       forall k | Race.Wins(full, k) ::
         var w := full[k].sender;
         Carries(answer.value, full[k].outcome.value, [plan[w]] + (plan[..w] + plan[w + 1..])))
  }

  /** One check against these mirrors: the first index to arrive, the mirror it came from, and then the others. */
  ghost predicate CheckedAs(version: string, mirrors: seq<Mirror>, arrivals: seq<Race.Answer>, answer: Result<Release, Error>)
    requires forall a | a in arrivals :: a.sender < |mirrors|
  {
    (answer.Ok? <==> SemVer.ParseStable(version).Some? && exists k :: Race.Wins(arrivals, k)) &&
    (answer.Ok? ==>
       forall k | Race.Wins(arrivals, k) ::
         var w := arrivals[k].sender;
         Carries(answer.value, arrivals[k].outcome.value, [mirrors[w]] + (mirrors[..w] + mirrors[w + 1..])))
  }

  lemma RaceIsChecked(version: string, mirrors: seq<Mirror>, arrivals: seq<Race.Answer>, r: Result<Manifests.Fetched, Error>)
    requires mirrors != [] && DistinctNames(mirrors) && forall a | a in arrivals :: a.sender < |mirrors|
    requires forall a | a in arrivals && a.outcome.Ok? :: Usable(a.outcome.value)
    requires Race.RacedAs(mirrors, arrivals, r)
    ensures CheckedAs(version, mirrors, arrivals, CheckLatest(version, r))
  {
    hide SemVer.ParseStable, SemVer.Newer, CheckLatest, Order, DistinctNames;
    CheckReportsNewer(version, r);
    if k :| Race.Wins(arrivals, k) {
      assert arrivals[k] in arrivals;
    }
    if CheckLatest(version, r).Ok? {
      CheckCarriesAnswer(version, r);
      forall k | Race.Wins(arrivals, k)
        ensures var w := arrivals[k].sender;
                Carries(CheckLatest(version, r).value, arrivals[k].outcome.value,
                        [mirrors[w]] + (mirrors[..w] + mirrors[w + 1..]))
      {
        assert arrivals[k] in arrivals;
        OrderMovesWinnerFirst(mirrors, arrivals[k].sender);
      }
    }
  }

  method CheckMirrors(version: string, mirrors: seq<Mirror>, arrivals: seq<Race.Answer>)
    returns (answer: Result<Release, Error>, ghost fetched: Result<Manifests.Fetched, Error>)
    requires mirrors != [] && DistinctNames(mirrors) && forall m | m in mirrors :: m.Valid()
    requires Race.Complete(|mirrors|, arrivals)
    requires forall a | a in arrivals && a.outcome.Ok? :: Usable(a.outcome.value)
    ensures Answers(fetched) && answer == CheckLatest(version, fetched)
    ensures CheckedAs(version, mirrors, arrivals, answer)
  {
    hide Usable, Race.UsableMirrors, CheckLatest, CheckedAs, Race.RacedAs;
    Race.AllUsable(mirrors);
    var r := Race.RaceManifest(mirrors, arrivals);
    Race.RaceAnswers(mirrors, arrivals, r);
    Race.RaceDecides(mirrors, arrivals, r);
    RaceIsChecked(version, mirrors, arrivals, r);
    answer, fetched := CheckLatest(version, r), r;
  }

  lemma PlanIsUsable(learned: seq<Mirror>)
    ensures var plan := Merge(BOOTSTRAP, learned);
            plan != [] && DistinctNames(plan) && Race.UsableMirrors(plan) == plan && forall m | m in plan :: m.Valid()
  {
    PlanKeepsCompiledIn(learned, []);
    Race.AllUsable(Merge(BOOTSTRAP, learned));
  }

  lemma FoundAlone(version: string, memory: Memory, measured: Option<int>, clock: int, quick: seq<Race.Answer>,
                   full: seq<Race.Answer>, answer: Result<Release, Error>, m: Mirror)
    requires forall a | a in full :: a.sender < |Merge(BOOTSTRAP, memory.learnedMirrors)|
    requires m in Merge(BOOTSTRAP, memory.learnedMirrors) && m.name == memory.preferredMirror != ""
    requires measured.Some? && clock - measured.value < PREFERENCE_TTL
    requires (forall a | a in quick :: a.sender < 1) && answer.Ok? && CheckedAs(version, [m], quick, answer)
    ensures FoundBy(version, memory, measured, clock, quick, full, answer)
  {
    hide Carries, SemVer.ParseStable, Merge;
    assert [m] + ([m][..0] + [m][1..]) == [m];
  }

  lemma FoundByRace(version: string, memory: Memory, measured: Option<int>, clock: int, quick: seq<Race.Answer>,
                    full: seq<Race.Answer>, answer: Result<Release, Error>)
    requires forall a | a in full :: a.sender < |Merge(BOOTSTRAP, memory.learnedMirrors)|
    requires SemVer.ParseStable(version).Some? ==> !PreferredAnswers(memory, measured, clock, quick)
    requires CheckedAs(version, Merge(BOOTSTRAP, memory.learnedMirrors), full, answer)
    ensures FoundBy(version, memory, measured, clock, quick, full, answer)
  {
    hide Carries, SemVer.ParseStable, Merge, PreferredAnswers;
  }
}
