/** The manager itself: its fields, and the sections it runs under its lock, each against the step it is. */
module Manager {
  import opened Calls
  import opened Common
  import opened Disk
  import opened Download
  import opened Fetch
  import opened Lifecycle
  import opened LifecycleSafety
  import opened Manifests
  import opened Mirrors
  import opened Outcomes
  import opened Target
  import Race
  import SemVer

  class Manager {
    const config: Config
    const version: string
    const location: Location
    const disk: FileSystem
    var state: State
    var memory: Memory
    var busy: bool
    var cancel: Option<nat>
    var nextContext: nat
    // the mailbox: the last state published and not yet emitted, and whether its signal is set
    var pending: Option<State>
    var notified: bool
    ghost var published: seq<State>

    ghost predicate Valid()
      reads this, disk
    {
      disk.Valid() && (published != [] ==> pending == Some(published[|published| - 1]))
    }

    ghost function View(): Core
      reads this
    {
      Core(version, location, state, memory, busy, cancel, nextContext, published)
    }

    constructor (config: Config, version: string, location: Location, disk: FileSystem)
      requires disk.Valid()
      modifies disk
      ensures Valid() && this.config == config && this.disk == disk && View().version == version
      ensures exists removed, write ::
                (View(), disk.files) == Restore(config, version, location, 0, old(disk.files), removed, write)
    {
      this.config := config;
      this.version := version;
      this.location := location;
      this.disk := disk;
      this.state := Fresh(version, location, NO_MEMORY, 0).state;
      this.memory := NO_MEMORY;
      busy, cancel, nextContext, pending, notified, published := false, None, 0, None, false, [];
      new;
      ReadRecord();
      state := state.(checkedAt := memory.checkedAt, skipped := memory.skipped);
      assert View() == Fresh(version, location, ReadMemory(config, old(disk.files)), 0);
      ghost var removed, write := RestoreReady();
    }

    method ReadRecord()
      requires Valid()
      modifies this`memory
      ensures Valid() && memory == ReadMemory(config, disk.files)
    {
      memory := NO_MEMORY;
      if config.MemoryPath() in disk.files {
        var stored := config.decode(disk.files[config.MemoryPath()]);
        if stored.Some? {
          memory := stored.value;
        }
      }
    }

    /** A failure costs what the record holds, so it is not reported; `write` says how far it got. */
    method WriteRecord() returns (ghost write: Write)
      requires Valid()
      modifies disk
      ensures Valid() && disk.files == WriteMemory(config, old(disk.files), memory, write)
      ensures disk.faults >= old(disk.faults) && (disk.faults == old(disk.faults) ==> write == Stored)
    {
      var content := config.encode(memory);
      var ok := disk.MakeDirectory();
      if !ok {
        return Kept;
      }
      ok := disk.Create(config.MemoryPath());
      if !ok {
        return Kept;
      }
      ok := disk.Append(config.MemoryPath(), content);
      ghost var written := disk.files[config.MemoryPath()];
      assert written == content[..|written|] && content[..|content|] == content;
      assert disk.files == old(disk.files)[config.MemoryPath() := written];
      return if ok then Stored else Torn(|written|);
    }

    /** Picks a finished download back up, or clears one that is no update any more. */
    method RestoreReady() returns (ghost removed: bool, ghost write: Write)
      requires Valid() && memory == ReadMemory(config, disk.files)
      requires View() == Fresh(version, location, memory, nextContext)
      modifies this`state, this`memory, disk
      ensures Valid()
      ensures (View(), disk.files) == Restore(config, version, location, nextContext, old(disk.files), removed, write)
    {
      hide WriteMemory, SemVer.ParseStable;
      removed, write := false, Kept;
      if memory.readyPath == "" {
        return;
      }
      var stale := true;
      if memory.readyPath in disk.files {
        var comparison := SemVer.CompareStable(version, memory.readyVersion);
        if comparison.Some? && comparison.value < 0 {
          SemVer.PrecedenceIsLexicographic(version, memory.readyVersion);
          stale := false;
        }
      }
      if stale {
        disk.Remove(memory.readyPath);
        removed := disk.files == old(disk.files) - {memory.readyPath};
        memory := memory.(readyPath := "", readyVersion := "");
        write := WriteRecord();
        return;
      }
      state := state.(phase := PhaseReady, latestVersion := memory.readyVersion);
    }

    /** Hands the current state to the emitter; never waits. */
    method Publish()
      requires Valid()
      modifies this`pending, this`notified, this`published
      ensures Valid() && notified && pending == Some(state)
      ensures View() == Lifecycle.Publish(old(View()))
    {
      pending := Some(state);
      published := published + [state];
      if !notified {
        notified := true;
      }
    }

    /** One turn of the pump: takes the signal and then whatever is newest by the time it looks. */
    method PumpOnce() returns (emitted: Option<State>)
      requires Valid() && notified && published != []
      modifies this`notified
      ensures Valid() && !notified && emitted == Some(published[|published| - 1])
    {
      notified := false;
      emitted := pending;
    }

    method SetError(step: FailedStep, error: Error)
      requires Valid()
      modifies this`state, this`pending, this`notified, this`published
      ensures Valid() && View() == Lifecycle.SetError(old(View()), step, error)
      ensures state == old(state).(phase := PhaseError, failedStep := step, error := Some(error))
      ensures published == old(published) + [state]
    {
      state := state.(phase := PhaseError);
      state := state.(failedStep := step);
      state := state.(error := Some(error));
      Publish();
    }

    // ---- Check ---------------------------------------------------------------------------------------

    method BeginCheck() returns (entry: Entry)
      requires Valid()
      modifies this
      ensures Valid() && (View(), entry) == Lifecycle.BeginCheck(old(View()))
    {
      var parsed := SemVer.ParseStableVersion(version);
      if parsed.None? {
        return Development;
      }
      if busy {
        return Busy;
      }
      busy := true;
      state := state.(phase := PhaseChecking);
      state := state.(error := None, failedStep := StepNone);
      Publish();
      entry := Entered;
    }

    method RememberMirror(release: Release, now: string) returns (ghost write: Write)
      requires Valid()
      modifies this`memory, disk
      ensures Valid() && View() == Lifecycle.RememberMirror(old(View()), release, now)
      ensures disk.files == WriteMemory(config, old(disk.files), memory, write)
      ensures disk.faults >= old(disk.faults)
    {
      if release.mirror.name != "" {
        memory := memory.(preferredMirror := release.mirror.name);
        memory := memory.(mirrorMeasured := now);
      }
      if |release.manifest.mirrors| > 0 {
        var learned := MergeMirrors(memory.learnedMirrors, release.manifest.mirrors);
        memory := memory.(learnedMirrors := learned);
      }
      write := WriteRecord();
    }

    /** No release on display, and idle. */
    method NothingNewer()
      requires Valid()
      modifies this`state, this`pending, this`notified, this`published
      ensures Valid()
      ensures View() == Lifecycle.Publish(old(View()).(state :=
                old(state).(phase := PhaseIdle, latestVersion := "", notes := "", publishedAt := "")))
    {
      state := state.(phase := PhaseIdle);
      state := state.(latestVersion := "");
      state := state.(notes := "", publishedAt := "");
      Publish();
    }

    method Announce(release: Release, policy: Policy) returns (unasked: Option<Release>)
      requires Valid()
      modifies this`state, this`pending, this`notified, this`published
      ensures Valid()
      ensures View() == Lifecycle.Announce(old(View()), release, policy).0
      ensures unasked == Lifecycle.Announce(old(View()), release, policy).1
    {
      hide Lifecycle.Publish;
      unasked := None;
      if release.status != Available {
        NothingNewer();
        return;
      }
      state := state.(latestVersion := release.latestVersion, notes := release.notes, publishedAt := release.publishedAt);
      if state.phase == PhaseReady && memory.readyVersion == release.latestVersion {
        Publish();
        return;
      }
      state := state.(phase := PhaseAvailable);
      Publish();
      if policy.Downloads() && location.CanInstall() && release.latestVersion != memory.skipped {
        unasked := Some(release);
      }
    }

    /** `unasked` is the release whose download starts in the background. */
    method FinishCheck(answer: Result<Release, Error>, manual: bool, now: string, policy: Policy)
      returns (unasked: Option<Release>, ghost write: Write)
      requires Valid()
      modifies this, disk
      ensures Valid()
      ensures View() == Lifecycle.FinishCheck(old(View()), answer, manual, now, policy).0
      ensures unasked == Lifecycle.FinishCheck(old(View()), answer, manual, now, policy).1
      ensures disk.files == WriteMemory(config, old(disk.files), memory, write)
      ensures disk.faults >= old(disk.faults) && (disk.faults == old(disk.faults) ==> write == Stored)
    {
      hide WriteMemory, Lifecycle.Announce, Lifecycle.SetError, Lifecycle.Publish;
      unasked := None;
      busy := false;
      memory := memory.(checkedAt := now);
      state := state.(checkedAt := memory.checkedAt);
      if answer.Err? {
        write := WriteRecord();
        SetError(StepCheck, answer.error);
        return;
      }
      var release := answer.value;
      state := state.(releaseURL := release.releaseURL, outcome := Some(release.status));
      if manual && release.status == Available && memory.skipped == release.latestVersion {
        memory := memory.(skipped := "");
        state := state.(skipped := "");
      }
      write := WriteRecord();
      unasked := Announce(release, policy);
    }

    // ---- Download ------------------------------------------------------------------------------------

    method BeginDownload(release: Release) returns (entry: Entry)
      requires Valid()
      modifies this
      ensures Valid() && (View(), entry) == Lifecycle.BeginDownload(old(View()), release)
    {
      if busy {
        return Busy;
      }
      if !location.CanInstall() {
        SetError(StepDownload, NotInstallable);
        return Blocked;
      }
      busy := true;
      cancel := Some(nextContext);
      nextContext := nextContext + 1;
      state := state.(phase := PhaseDownloading, latestVersion := release.latestVersion, notes := release.notes,
                      publishedAt := release.publishedAt);
      state := state.(downloaded := 0, total := -1, error := None, failedStep := StepNone);
      Publish();
      entry := Entered;
    }

    method TryMirror(name: string)
      requires Valid()
      modifies this`state, this`pending, this`notified, this`published
      ensures Valid() && View() == Lifecycle.TryMirror(old(View()), name)
      ensures state == old(state).(mirror := name, downloaded := 0, total := -1) && published == old(published) + [state]
    {
      state := state.(mirror := name);
      state := state.(downloaded := 0, total := -1);
      Publish();
    }

    method Progress(done: int, total: int)
      requires Valid()
      modifies this`state, this`pending, this`notified, this`published
      ensures Valid() && View() == Lifecycle.Progress(old(View()), done, total)
      ensures state == old(state).(downloaded := done, total := total) && published == old(published) + [state]
    {
      state := state.(downloaded := done, total := total);
      Publish();
    }

    method FinishDownload(release: Release, outcome: Result<string, Error>) returns (ghost write: Write)
      requires Valid()
      modifies this, disk
      ensures Valid() && View() == Lifecycle.FinishDownload(old(View()), release, outcome)
      ensures disk.files == if outcome.Ok? then WriteMemory(config, old(disk.files), memory, write) else old(disk.files)
      ensures disk.faults >= old(disk.faults)
    {
      write := Kept;
      if outcome.Err? {
        if IsCanceled(outcome.error) {
          state := state.(phase := PhaseAvailable);
          state := state.(downloaded := 0, total := -1);
          Publish();
          return;
        }
        SetError(StepDownload, outcome.error);
        return;
      }
      memory := memory.(readyVersion := release.latestVersion, readyPath := outcome.value);
      write := WriteRecord();
      state := state.(phase := PhaseReady);
      Publish();
    }

    method ReleaseBusy()
      requires Valid()
      modifies this`busy, this`cancel
      ensures Valid() && View() == Lifecycle.ReleaseBusy(old(View()))
    {
      busy := false;
      cancel := None;
    }

    /** The first mirror alone when the plan has one, and the whole race when that fails. `quick` and `full` are the
        answers in the order they arrive. */
    method RunCheck(quick: seq<Race.Answer>, full: seq<Race.Answer>, measured: Option<int>, clock: int, now: string)
      returns (answer: Result<Release, Error>, ghost fetched: Result<Manifests.Fetched, Error>, ghost write: Write)
      requires Valid() && Race.Complete(1, quick)
      requires Race.Complete(|Merge(BOOTSTRAP, memory.learnedMirrors)|, full)
      requires forall a | (a in quick || a in full) && a.outcome.Ok? :: Usable(a.outcome.value)
      modifies this`memory, disk
      ensures Valid() && disk.faults >= old(disk.faults) && Answers(fetched) && answer == CheckLatest(version, fetched)
      ensures (View(), disk.files) == Resolved(config, old(View()), old(disk.files), fetched, now, write)
      ensures FoundBy(version, old(memory), measured, clock, quick, full, answer)
    {
      PlanIsUsable(memory.learnedMirrors);
      hide Usable, Merge, Race.UsableMirrors, CheckLatest, Lifecycle.RememberMirror, WriteMemory, FoundBy, Answers,
        SemVer.ParseStable, Carries, Mirror.Valid;
      ghost var known := memory;
      var mirrors, first := Mirrors.Plan(memory.learnedMirrors, memory.preferredMirror, measured, clock);
      write := Kept;
      if first.Some? {
        answer, fetched := CheckMirrors(version, [first.value], quick);
        if answer.Ok? {
          FoundAlone(version, known, measured, clock, quick, full, answer, first.value);
          write := RememberMirror(answer.value, now);
          return;
        }
      }
      answer, fetched := CheckMirrors(version, mirrors, full);
      FoundByRace(version, known, measured, clock, quick, full, answer);
      if answer.Ok? {
        write := RememberMirror(answer.value, now);
      }
    }

    /** A whole check. With nothing else going on it is a run of the lifecycle, from `s` to `after`. */
    method Check(manual: bool, quick: seq<Race.Answer>, full: seq<Race.Answer>, measured: Option<int>, clock: int, now: string,
                 ended: string, policy: Policy, ghost s: System, ghost i: nat, ghost spawned: nat)
      returns (entry: Entry, unasked: Option<Release>, ghost answer: Result<Release, Error>, ghost events: seq<Event>,
               ghost after: System)
      requires Valid() && Race.Complete(1, quick)
      requires Race.Complete(|Merge(BOOTSTRAP, memory.learnedMirrors)|, full)
      requires forall a | (a in quick || a in full) && a.outcome.Ok? :: Usable(a.outcome.value)
      requires s.core == View() && s.files == disk.files && i !in s.threads && spawned !in s.threads && spawned != i
      modifies this, disk
      ensures Valid()
      ensures entry == if SemVer.ParseStable(version).None? then Development else if old(busy) then Busy else Entered
      ensures entry == Entered ==>
                !busy && FoundBy(version, old(memory), measured, clock, quick, full, answer) &&
                Learnt(old(memory), answer, now, memory) && ChecksOut(old(memory), answer, manual, ended, state, memory) &&
                StartsUnasked(answer, policy, location, memory, unasked)
      ensures entry == Entered ==>
                FirstShown(old(published), published, PhaseChecking) && LastShown(published, state)
      ensures entry == Entered && config.Faithful() && disk.faults == old(disk.faults) ==>
                ReadMemory(config, disk.files) == memory
      ensures if entry == Entered
              then Leaves(config, s, events, after, View(), disk.files,
                          if unasked.Some? then s.threads[spawned := Requested(unasked.value)] else s.threads)
              else View() == old(View()) && disk.files == old(disk.files) && unasked == None
    {
      hide Usable, Merge, Race.UsableMirrors, Race.Complete, CheckLatest, Lifecycle.RememberMirror, WriteMemory,
        Lifecycle.FinishCheck, Lifecycle.BeginCheck, ReadMemory, Leaves, Answers, FoundBy, ChecksOut, StartsUnasked,
        SemVer.ParseStable;
      unasked, events, after, answer := None, [], s, Err(NotInstallable);
      CheckBegun(View());
      entry := BeginCheck();
      if entry != Entered {
        return;
      }
      var found;
      ghost var fetched, write, write';
      found, fetched, write := RunCheck(quick, full, measured, clock, now);
      Remembered(Lifecycle.BeginCheck(s.core).0, found, now);
      CheckEndsAs(View(), s.core.memory, found, manual, ended, policy);
      ghost var files := disk.files;
      unasked, write' := FinishCheck(found, manual, ended, policy);
      if config.Faithful() {
        RecordReadsBack(config, files, memory, write');
      }
      answer := found;
      events, after := CheckRuns(config, s, i, spawned, manual, fetched, now, write, ended, policy, write');
    }

    /** Publishes what a fetch showed, in its order. */
    method Show(shown: seq<Shown>)
      requires Valid()
      modifies this`state, this`pending, this`notified, this`published
      ensures Valid() && View() == ShowAll(old(View()), shown)
    {
      hide Lifecycle.TryMirror, Lifecycle.Progress;
      for k := 0 to |shown|
        invariant Valid() && View() == ShowAll(old(View()), shown[..k])
      {
        assert shown[..k + 1][..k] == shown[..k];
        match shown[k]
        case Tried(mirror) => TryMirror(mirror);
        case Reported(done, total) => Progress(done, total);
      }
      assert shown[..|shown|] == shown;
    }

    /** Fetches the package of a release, showing how far it is. The states of the directory on the way are those of
        its trace from `from` on. */
    method Fetch(release: Release, responses: seq<Response>)
      returns (r: Result<string, Error>, ghost shown: seq<Shown>, ghost from: nat, ghost at: Attempt)
      requires Valid() && |responses| == |MirrorsOf(release)|
      requires forall response | response in responses :: response.Body? ==> FitsBuffer(response.chunks)
      modifies this`state, this`pending, this`notified, this`published, disk
      ensures Valid() && disk.faults >= old(disk.faults) && View() == ShowAll(old(View()), shown)
      ensures 0 < from <= |disk.trace| && disk.trace[from - 1] == old(disk.files) && (r.Ok? <==> at.Arrived?)
      ensures !ListsPackage(location, release) ==> r.Err? && !IsCanceled(r.error) && |disk.trace| == from && at == Idle
      ensures ListsPackage(location, release) ==>
                var job := ListedJob(config, location, release);
                Reaches(job, disk.trace, from, at) &&
                (r.Ok? ==> r.value == job.target && HasPackage(config, location, release, disk.files, job.target)) &&
                FetchedAs(job, release, ListedFile(location, release), responses, disk.files, disk.faults == old(disk.faults), r)
    {
      hide Reaches, ShowAll, Asked, SomeMirrorServes, CancelledFirst, NothingCame, NamesEach, IsCanceled, Lower, UsableFile;
      from := |disk.trace|;
      var urls, told;
      r, urls, told := FetchPackage(disk, config.hash, config.directory, location, release, responses);
      at := if r.Ok? then Arrived(disk.files[r.value]) else Idle;
      shown := told;
      Show(told);
    }

    /** From the fetch to giving `busy` back. */
    method CompleteDownload(release: Release, responses: seq<Response>)
      returns (outcome: Result<string, Error>, ghost shown: seq<Shown>, ghost from: nat, ghost at: Attempt,
               ghost fetched: seq<Files>, ghost write: Write)
      requires Valid() && Located(location) && location.CanInstall() && |responses| == |MirrorsOf(release)|
      requires forall response | response in responses :: response.Body? ==> FitsBuffer(response.chunks)
      requires state.error == None && state.failedStep == StepNone && Displays(state, release)
      modifies this, disk
      ensures Valid() && disk.faults >= old(disk.faults)
      ensures View() == Lifecycle.ReleaseBusy(Lifecycle.FinishDownload(ShowAll(old(View()), shown), release, outcome))
      ensures 0 < from <= |fetched| && fetched[from - 1] == old(disk.files) && (outcome.Ok? <==> at.Arrived?)
      ensures if ListsPackage(location, release) then Reaches(ListedJob(config, location, release), fetched, from, at)
              else |fetched| == from && at == Idle
      ensures disk.files == if outcome.Ok? then WriteMemory(config, fetched[|fetched| - 1], memory, write)
                            else fetched[|fetched| - 1]
      ensures outcome.Ok? ==>
                ListsPackage(location, release) && outcome.value == ListedJob(config, location, release).target
      ensures EndsIn(config, location, release, responses, disk.faults == old(disk.faults), state, memory, disk.files)
      ensures !busy && old(published) <= published && LastShown(published, state)
    {
      hide Reaches, ShowAll, WriteMemory, IsCanceled, Located, Lower, FetchedAs, EndedAs, Failed, UsableFile, HasPackage,
        Lifecycle.FinishDownload, Lifecycle.ReleaseBusy;
      outcome, shown, from, at := Fetch(release, responses);
      ghost var clean, displayed := disk.faults == old(disk.faults), View();
      ShowAllKeeps(old(View()), shown);
      fetched := disk.trace;
      write := FinishDownload(release, outcome);
      ReleaseBusy();
      FinishedAs(displayed, release, outcome);
      if ListsPackage(location, release) {
        FetchEndsAs(displayed, ListedJob(config, location, release), release, responses, clean,
                    disk.faults == old(disk.faults), ListedFile(location, release), fetched[|fetched| - 1], outcome);
      }
      if outcome.Ok? {
        RecordLeavesPackage(config, location, release, fetched[|fetched| - 1], memory, write);
      }
    }

    /** The download of a release. `respond` is what each request would be answered with. With nothing else going on
        it is a run of the lifecycle. It is turned away when busy or when the build cannot install; otherwise it ends
        Ready with a genuine package in place, Available after a cancellation, or with an error on display. */
    method DownloadRelease(release: Release, respond: nat -> Response, ghost s: System, ghost i: nat, ghost j: nat)
      returns (entry: Entry, ghost events: seq<Event>, ghost after: System)
      requires Valid() && Located(location)
      requires forall k :: respond(k).Body? ==> FitsBuffer(respond(k).chunks)
      requires s.core == View() && s.files == disk.files && i in s.threads && s.threads[i] == Requested(release)
      requires j !in s.threads
      modifies this, disk
      ensures Valid() && disk.faults >= old(disk.faults)
      ensures entry == if old(busy) then Busy else if location.CanInstall() then Entered else Blocked
      ensures entry == Busy ==> View() == old(View())
      ensures entry == Blocked ==> Failed(state) && state.error == Some(NotInstallable)
      ensures Leaves(config, s, events, after, View(), disk.files, s.threads - {i})
      ensures entry == Entered ==>
                !busy && FirstShown(old(published), published, PhaseDownloading) && LastShown(published, state)
      ensures entry == Entered ==>
                EndsIn(config, location, release, ResponsesTo(respond, |MirrorsOf(release)|), disk.faults == old(disk.faults),
                       state, memory, disk.files)
    {
      hide Reaches, ShowAll, WriteMemory, Leaves, Lifecycle.BeginDownload, Located, EndsIn, Failed, UsableFile,
        Lifecycle.FinishDownload;
      EntryIs(View(), release);
      entry := BeginDownload(release);
      if entry != Entered {
        events, after := RefusedRuns(config, s, i, release);
        return;
      }
      var responses := ResponsesTo(respond, |MirrorsOf(release)|);
      ghost var outcome, shown, from, at, fetched, write;
      outcome, shown, from, at, fetched, write := CompleteDownload(release, responses);
      events, after := DownloadRuns(config, s, i, j, release, fetched, from, at, shown, outcome, write);
    }

    /** A release to download, when none was named: the newer one a check finds. A check that fails is a failed download. */
    method Resolve(quick: seq<Race.Answer>, full: seq<Race.Answer>, measured: Option<int>, clock: int, now: string,
                   ghost s: System, ghost i: nat)
      returns (release: Option<Release>, ghost answer: Result<Release, Error>, ghost events: seq<Event>, ghost after: System)
      requires Valid() && Race.Complete(1, quick)
      requires Race.Complete(|Merge(BOOTSTRAP, memory.learnedMirrors)|, full)
      requires forall a | (a in quick || a in full) && a.outcome.Ok? :: Usable(a.outcome.value)
      requires s.core == View() && s.files == disk.files && i !in s.threads
      modifies this, disk
      ensures Valid() && busy == old(busy) && disk.faults >= old(disk.faults)
      ensures FoundBy(version, old(memory), measured, clock, quick, full, answer) && Learnt(old(memory), answer, now, memory)
      ensures release == if answer.Ok? && answer.value.status == Available then Some(answer.value) else None
      ensures if answer.Ok? then state == old(state) else Failed(state) && state.error == Some(answer.error)
      ensures Leaves(config, s, events, after, View(), disk.files,
                     if release.Some? then s.threads[i := Requested(release.value)] else s.threads)
    {
      hide Usable, Merge, Race.UsableMirrors, Race.Complete, CheckLatest, WriteMemory, Leaves, Answers, FoundBy, Learnt,
        Lifecycle.RememberMirror;
      var found;
      ghost var fetched, write;
      found, fetched, write := RunCheck(quick, full, measured, clock, now);
      events, after := ResolveRuns(config, s, i, fetched, now, write);
      Remembered(s.core, found, now);
      NothingLearnt(s.core.memory, found, now);
      answer, release := found, None;
      if found.Err? {
        SetError(StepDownload, found.error);
        return;
      }
      if found.value.status == Available {
        release := Some(found.value);
      }
    }

    /** A download that was asked for without naming a release finds one first; `release` is the one it takes up. */
    method Download(requested: Option<Release>, quick: seq<Race.Answer>, full: seq<Race.Answer>, measured: Option<int>,
                    clock: int, now: string, respond: nat -> Response, ghost s: System, ghost i: nat, ghost j: nat)
      returns (release: Option<Release>, ghost answer: Result<Release, Error>, ghost events: seq<Event>, ghost after: System)
      requires Valid() && Located(location) && Race.Complete(1, quick)
      requires Race.Complete(|Merge(BOOTSTRAP, memory.learnedMirrors)|, full)
      requires forall a | (a in quick || a in full) && a.outcome.Ok? :: Usable(a.outcome.value)
      requires forall k :: respond(k).Body? ==> FitsBuffer(respond(k).chunks)
      requires s.core == View() && s.files == disk.files && j !in s.threads && i != j
      requires if requested.Some? then i in s.threads && s.threads[i] == Requested(requested.value) else i !in s.threads
      modifies this, disk
      ensures Valid() && Leaves(config, s, events, after, View(), disk.files, s.threads - {i})
      ensures requested.Some? ==> release == requested
      ensures requested.None? ==>
                FoundBy(version, old(memory), measured, clock, quick, full, answer) &&
                release == (if answer.Ok? && answer.value.status == Available then Some(answer.value) else None) &&
                (answer.Err? ==> Failed(state) && state.error == Some(answer.error)) &&
                (answer.Ok? && release.None? ==> state == old(state))
      ensures release.Some? && !old(busy) && !location.CanInstall() ==>
                Failed(state) && state.error == Some(NotInstallable)
      ensures release.Some? && !old(busy) && location.CanInstall() ==>
                EndsIn(config, location, release.value, ResponsesTo(respond, |MirrorsOf(release.value)|),
                       disk.faults == old(disk.faults), state, memory, disk.files)
    {
      hide Usable, Merge, Race.UsableMirrors, Race.Complete, Located, Listed, SomeMirrorServes, Lifecycle.BeginDownload, Run,
        FoundBy, Learnt, EndsIn, Failed;
      ghost var found := s;
      events, release, answer := [], requested, Err(NotInstallable);
      if requested.None? {
        release, answer, events, found := Resolve(quick, full, measured, clock, now, s, i);
      } else {
        RunNothing(config, s);
      }
      if release.None? {
        after := found;
        assert s.threads - {i} == s.threads;
        return;
      }
      ghost var more, faults := [], disk.faults;
      var entry;
      entry, more, after := DownloadRelease(release.value, respond, found, i, j);
      if entry == Entered {
        EndsInStill(config, location, release.value, ResponsesTo(respond, |MirrorsOf(release.value)|), disk.faults == faults,
                    disk.faults == old(disk.faults), state, memory, disk.files);
      }
      LeavesOn(config, s, events, found, more, after);
      events := events + more;
      assert found.threads - {i} == s.threads - {i};
    }

    // ---- Install, skip ----------------------------------------------------------------------------------

    /** The package to apply, None when no downloaded update is ready. */
    method BeginInstall() returns (path: Option<string>)
      requires Valid()
      modifies this`state, this`pending, this`notified, this`published
      ensures Valid() && View() == Lifecycle.BeginInstall(old(View()))
      ensures path == if IsReady(old(View())) then Some(memory.readyPath) else None
    {
      if state.phase != PhaseReady || memory.readyPath == "" {
        return None;
      }
      state := state.(phase := PhaseInstalling);
      Publish();
      path := Some(memory.readyPath);
    }

    method FailInstall(error: Error)
      requires Valid()
      modifies this`state, this`pending, this`notified, this`published
      ensures Valid() && View() == Lifecycle.FailInstall(old(View()), error)
    {
      state := state.(phase := PhaseReady);
      SetError(StepInstall, error);
    }

    method BeginInstallOnQuit(policy: Policy) returns (path: Option<string>)
      requires Valid()
      ensures path == if IsReady(View()) && policy == PolicyAuto then Some(memory.readyPath) else None
    {
      var ready := state.phase == PhaseReady && memory.readyPath != "";
      if !ready || policy != PolicyAuto {
        return None;
      }
      path := Some(memory.readyPath);
    }

    /** Drops the finished package from the state and the disk. */
    method ForgetReady() returns (ghost removed: bool, ghost write: Write)
      requires Valid()
      modifies this, disk
      ensures Valid() && View() == Lifecycle.ForgetReady(old(View()))
      ensures disk.files ==
              WriteMemory(config, Lifecycle.Remove(old(disk.files), old(memory.readyPath), removed), memory, write)
      ensures disk.faults >= old(disk.faults)
      ensures disk.faults == old(disk.faults) ==> write == Stored && (removed || old(memory.readyPath) !in old(disk.files))
    {
      disk.Remove(memory.readyPath);
      removed := disk.files == old(disk.files) - {memory.readyPath};
      memory := memory.(readyPath := "", readyVersion := "");
      write := WriteRecord();
      state := state.(phase := PhaseIdle);
      state := state.(downloaded := 0, total := -1);
    }

    /** A whole install; `failure` is what Apply comes to. With nothing else going on it is a run of the lifecycle: refused
        without a package that is ready; a failure puts the package back on offer and reports itself; success drops the
        package from state, record and disk. */
    method Install(failure: Option<Error>, ghost s: System, ghost i: nat)
      returns (path: Option<string>, ghost events: seq<Event>, ghost after: System)
      requires Valid() && CoreOK(config, View()) && s.core == View() && s.files == disk.files && i !in s.threads
      requires failure.None? && state.phase == PhaseReady ==> memory.readyPath in disk.files
      modifies this, disk
      ensures Valid() && path == if old(state.phase) == PhaseReady then Some(old(memory.readyPath)) else None
      ensures path.None? ==> View() == old(View()) && disk.files == old(disk.files)
      ensures path.Some? && failure.Some? ==>
                disk.files == old(disk.files) && memory == old(memory) && state.phase == PhaseError &&
                state.failedStep == StepInstall && state.error == failure && LastShown(published, state)
      ensures path.Some? && failure.None? ==>
                state.phase == PhaseIdle &&
                InstallLeaves(config, old(memory), memory, disk.files, disk.faults == old(disk.faults))
      ensures path.Some? ==> FirstShown(old(published), published, PhaseInstalling)
      ensures path.Some? ==>
                Installs(config, s, events, after, View(), disk.files, if failure.None? then [Opened(s)] else [])
    {
      hide WriteMemory, Installs, InstallLeaves, ReadyOK, PublishedOK;
      path := BeginInstall();
      events, after := [], s;
      if path.None? {
        return;
      }
      if failure.Some? {
        FailInstall(failure.value);
        events, after := FailedInstallRuns(config, s, i, true, failure.value);
        return;
      }
      ghost var removed, write := ForgetReady();
      InstallLeavesNothing(config, s.core, s.files, memory, removed, write, disk.faults == old(disk.faults));
      events, after := InstallRuns(config, s, i, true, removed, write);
    }

    /** The same on quitting: only under the automatic policy, and a failure is told to no one but the caller. */
    method InstallOnQuit(policy: Policy, failure: Option<Error>, ghost s: System, ghost i: nat)
      returns (path: Option<string>, ghost events: seq<Event>, ghost after: System)
      requires Valid() && CoreOK(config, View()) && s.core == View() && s.files == disk.files && i !in s.threads
      requires failure.None? && state.phase == PhaseReady && policy == PolicyAuto ==> memory.readyPath in disk.files
      modifies this, disk
      ensures Valid()
      ensures path == if old(state.phase) == PhaseReady && policy == PolicyAuto then Some(old(memory.readyPath)) else None
      ensures path.None? || failure.Some? ==> View() == old(View()) && disk.files == old(disk.files)
      ensures path.Some? && failure.None? ==>
                state.phase == PhaseIdle &&
                InstallLeaves(config, old(memory), memory, disk.files, disk.faults == old(disk.faults))
      ensures path.Some? ==>
                Installs(config, s, events, after, View(), disk.files, if failure.None? then [Opened(s)] else [])
    {
      hide WriteMemory, Installs, InstallLeaves, ReadyOK, PublishedOK;
      path := BeginInstallOnQuit(policy);
      events, after := [], s;
      if path.None? {
        return;
      }
      if failure.Some? {
        events, after := FailedInstallRuns(config, s, i, false, failure.value);
        return;
      }
      ghost var removed, write := ForgetReady();
      InstallLeavesNothing(config, s.core, s.files, memory, removed, write, disk.faults == old(disk.faults));
      events, after := InstallRuns(config, s, i, false, removed, write);
    }

    method Skip(version: string) returns (ghost write: Write)
      requires Valid()
      modifies this, disk
      ensures Valid() && View() == Lifecycle.Skip(old(View()), version)
      ensures disk.files == WriteMemory(config, old(disk.files), memory, write)
      ensures memory == old(memory).(skipped := version) && state == old(state).(skipped := version)
      ensures published == old(published) + [state]
      ensures config.Faithful() && disk.faults == old(disk.faults) ==> ReadMemory(config, disk.files) == memory
    {
      memory := memory.(skipped := version);
      state := state.(skipped := version);
      write := WriteRecord();
      Publish();
    }
  }
}
