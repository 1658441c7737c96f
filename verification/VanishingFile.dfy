/** The interleaving that loses a ready package: from a first launch to a package shown as ready, and from any such
    state on to one whose file is gone. */
module VanishingFile {
  import opened Common
  import opened Disk
  import opened Download
  import opened Fetch
  import opened Lifecycle
  import opened LifecycleSafety
  import opened LifecycleTheorems
  import opened Manifests
  import opened Mirrors
  import opened Target
  import SemVer

  // ---- One download, from the button to the record ------------------------------------------------------------

  /** The first mirror's index for `version`, listing a package with this content. */
  function Offer(config: Config, target: Asset, version: string, content: Bytes): Result<Manifests.Fetched, Error> {
    var file := ManifestFile("package", |content|, config.hash(content));
    Ok(Manifests.Fetched(Manifest(1, version, "", "", "", "", [], map[target.PackageName(version) := file]),
                         BOOTSTRAP[0], Order(BOOTSTRAP, BOOTSTRAP[0])))
  }

  /** A version in the form the updater records it, newer than the build. */
  ghost predicate IsUpdate(version: string, next: string) {
    SemVer.Newer(version, next) && SemVer.ParseStable(next).Some? && SemVer.ParseStable(next).value.normalized == next
  }

  lemma OfferIsAnswer(config: Config, target: Asset, version: string, content: Bytes)
    requires config.Hexadecimal() && SemVer.ParseStable(version).Some?
    ensures Answers(Offer(config, target, version, content))
  {
    hide SemVer.ParseStable, Lower, Others;
    var fetched := Offer(config, target, version, content).value;
    assert fetched.order[0] == fetched.mirror;
    assert "https://" <= fetched.mirror.manifestURL && "https://" <= fetched.mirror.assetBase;
    assert target.PackageName(version) in fetched.manifest.files;
    forall name | name in fetched.manifest.files ensures UsableFile(fetched.manifest.files[name]) {
      assert "package" != "" && |config.hash(content)| == HEX_SHA256;
    }
  }

  lemma OfferIsAvailable(config: Config, version: string, target: Asset, next: string, content: Bytes)
    requires IsUpdate(version, next)
    ensures var answer := CheckLatest(version, Offer(config, target, next, content));
            answer.Ok? && answer.value.status == Available && answer.value.latestVersion == next &&
            answer.value.manifest == Offer(config, target, next, content).value.manifest &&
            answer.value.mirror == BOOTSTRAP[0]
  {
    hide Order;
    CheckReportsNewer(version, Offer(config, target, next, content));
    SemVer.NormalizedReparses(next);
  }

  /** The release is asked for, found and takes busy. */
  lemma DownloadStarts(config: Config, s: System, events: seq<Event>, t: System, i: nat, next: string, content: Bytes,
                       release: Release) returns (events': seq<Event>, t': System)
    requires Run(config, s, events) == Some(t) && i !in t.threads && !t.core.busy && t.core.location.CanInstall()
    requires config.Hexadecimal() && SemVer.ParseStable(next).Some?
    requires CheckLatest(t.core.version, Offer(config, t.core.location.target, next, content)) == Ok(release)
    requires release.status == Available && release.manifest.mirrors == []
    ensures Run(config, s, events') == Some(t')
    ensures t'.files == t.files && t'.core.memory.readyPath == t.core.memory.readyPath
    ensures t'.core.location == t.core.location && t'.core.version == t.core.version
    ensures t'.threads == t.threads[i := Fetching(t.core.nextContext, release, Idle)]
  {
    hide SemVer.Newer, SemVer.ParseStable, CheckLatest, Lower, Run, Answers, Usable, Order, IsDevelopment;
    var offer := Offer(config, t.core.location.target, next, content);
    OfferIsAnswer(config, t.core.location.target, next, content);
    var resolve := ResolveDownload(i, offer, "", Kept);
    var t1 := With(t, i, Resolving);
    var t2 := DoResolve(config, t1, i, offer, "", Kept);
    t' := DoStartDownload(config, t2, i, release);
    RunThen(config, s, events, t, AskDownload(i), t1);
    RunThen(config, s, events + [AskDownload(i)], t1, resolve, t2);
    RunThen(config, s, events + [AskDownload(i)] + [resolve], t2, StartDownload(i), t');
    events' := events + [AskDownload(i)] + [resolve] + [StartDownload(i)];
  }

  /** The directory as the three operations of a fetch on it leave it: open, write, put in place. */
  lemma PlacesPackage(job: Job, files: Files, content: Bytes) returns (trace: seq<Files>)
    requires job.Genuine(content)
    ensures |trace| == 4 && trace[0] == files && Reaches(job, trace, 1, Arrived(content))
    ensures job.target in trace[3] && trace[3][job.target] == content
  {
    var f1 := files[job.Part() := []];
    var f2 := f1[job.Part() := content];
    var f3 := f2[job.target := content] - {job.Part()};
    assert [] + content == content && content[0..] == content;
    assert Opens(job, files, Idle, f1, Copying([]));
    assert Feeds(job, f1, Copying([]), f2, Copying(content));
    assert Places(job, f2, Copying(content), f3, Arrived(content));
    hide Opens, Feeds, Places, Reaches;
    NothingYet(job, [files]);
    ReachesOneMore(job, [files], 1, Idle, f1, Copying([]));
    ReachesOneMore(job, [files] + [f1], 1, Copying([]), f2, Copying(content));
    ReachesOneMore(job, [files] + [f1] + [f2], 1, Copying(content), f3, Arrived(content));
    trace := [files] + [f1] + [f2] + [f3];
  }

  /** The fetch writes the package, puts it in place and ends. */
  lemma FetchPlaces(config: Config, s: System, events: seq<Event>, t: System, i: nat, context: nat, release: Release,
                    content: Bytes) returns (events': seq<Event>, t': System)
    requires Run(config, s, events) == Some(t) && i in t.threads && t.threads[i] == Fetching(context, release, Idle)
    requires PackageOf(t, release) in release.manifest.files && JobFor(config, t, release).Genuine(content)
    ensures Run(config, s, events') == Some(t')
    ensures var job := JobFor(config, t, release);
            t' == t.(files := t'.files, threads := t.threads[i := Thread.Fetched(context, release, Ok(job.target))]) &&
            job.target in t'.files && t'.files[job.target] == content
  {
    hide Lower, Run, Reaches;
    var job := JobFor(config, t, release);
    var trace := PlacesPackage(job, t.files, content);
    var writes := TraceIsRun(config, t, i, trace, 1, Arrived(content));
    var t1 := DoFetchWrites(t, i, t.threads[i], trace[3], Arrived(content));
    RunOn(config, s, events, t, writes);
    t' := With(t1, i, Thread.Fetched(context, release, Ok(job.target)));
    assert t'.threads == t.threads[i := Thread.Fetched(context, release, Ok(job.target))];
    RunThen(config, s, events + writes, t1, EndFetch(i, Ok(job.target)), t');
    events' := events + writes + [EndFetch(i, Ok(job.target))];
  }

  /** The download is recorded and gives busy back. */
  lemma DownloadEnds(config: Config, s: System, events: seq<Event>, t: System, i: nat, context: nat, release: Release,
                     path: string) returns (events': seq<Event>, t': System)
    requires Run(config, s, events) == Some(t) && i in t.threads
    requires t.threads[i] == Thread.Fetched(context, release, Ok(path))
    ensures Run(config, s, events') == Some(t')
    ensures t'.core.state.phase == PhaseReady && t'.core.memory.readyPath == path && !t'.core.busy
    ensures t'.core.memory.readyVersion == release.latestVersion && t'.threads == t.threads - {i}
    ensures t'.core.location == t.core.location && t'.core.version == t.core.version
    ensures path in t'.files <==> path in t.files || path == config.MemoryPath()
  {
    hide Run;
    var t1 := DoEndDownload(config, t, i, context, release, Ok(path), Stored);
    t' := DoGiveBack(t1, i);
    RunThen(config, s, events, t, EndDownload(i, Stored), t1);
    RunThen(config, s, events + [EndDownload(i, Stored)], t1, GiveBack(i), t');
    events' := events + [EndDownload(i, Stored)] + [GiveBack(i)];
    assert t1.threads - {i} == t.threads - {i};
  }

  // ---- Ready is reached -----------------------------------------------------------------------------------------

  /** A quiet manager with a package ready to install. */
  ghost predicate QuietAndReady(config: Config, s: System) {
    var memory := s.core.memory;
    s.core.state.phase == PhaseReady && memory.readyPath != "" && memory.readyPath in s.files &&
    s.threads == map[] && !s.core.busy && s.core.location.CanInstall() &&
    IsUpdate(s.core.version, memory.readyVersion) &&
    memory.readyPath == config.PackagePath(s.core.location.target, memory.readyVersion)
  }

  /** Such a state is reached from every first launch of an installable build, for every newer version. */
  lemma ReadyIsReached(config: Config, version: string, location: Location, next: string, content: Bytes)
    returns (events: seq<Event>, s: System)
    requires config.Hexadecimal() && Located(location) && location.CanInstall() && IsUpdate(version, next)
    ensures Run(config, Launch(version, location), events) == Some(s) && QuietAndReady(config, s) && s.core.location == location
  {
    hide SemVer.Newer, SemVer.ParseStable, CheckLatest, Lower, Run, IsDevelopment, Order;
    var start := Launch(version, location);
    OfferIsAvailable(config, version, location.target, next, content);
    var release := CheckLatest(version, Offer(config, location.target, next, content)).value;
    PackagePathIsNeither(config.directory, location.target, next);
    var t;
    RunNothing(config, start);
    events, t := DownloadStarts(config, start, [], start, 0, next, content, release);
    events, t := FetchPlaces(config, start, events, t, 0, start.core.nextContext, release, content);
    events, s := DownloadEnds(config, start, events, t, 0, start.core.nextContext, release,
                              config.PackagePath(location.target, next));
  }

  // ---- And lost again -----------------------------------------------------------------------------------------

  lemma InstallStarts(config: Config, s: System) returns (t: System)
    requires QuietAndReady(config, s)
    ensures Step(config, s, StartInstall(0)) == Some(t)
    ensures t.threads == map[0 := Applying(s.core.memory.readyPath, s.core.memory.readyVersion, true, None)]
    ensures t.files == s.files && t.core.memory == s.core.memory && t.core.location == s.core.location &&
            t.core.version == s.core.version && !t.core.busy
  {
    hide SemVer.Newer, SemVer.ParseStable;
    t := DoStartInstall(s, 0);
  }

  /** Install starts and opens the package. */
  lemma InstallOpens(config: Config, s: System) returns (events: seq<Event>, t: System)
    requires QuietAndReady(config, s)
    ensures Run(config, s, events) == Some(t)
    ensures t.files == s.files && t.core.memory == s.core.memory && t.core.location == s.core.location &&
            t.core.version == s.core.version && !t.core.busy
    ensures t.threads == map[0 := Applying(s.core.memory.readyPath, s.core.memory.readyVersion, true,
                                           Some(s.files[s.core.memory.readyPath]))]
  {
    hide SemVer.Newer, SemVer.ParseStable, Run;
    RunNothing(config, s);
    var s1 := InstallStarts(config, s);
    t := DoOpenPackage(s1, 0, s1.threads[0]);
    RunThen(config, s, [], s, StartInstall(0), s1);
    RunThen(config, s, [] + [StartInstall(0)], s1, OpenPackage(0), t);
    events := [] + [StartInstall(0)] + [OpenPackage(0)];
  }

  /** The install ends first and deletes what is recorded. */
  lemma InstallEndsFirst(config: Config, s: System, events: seq<Event>, t: System, path: string)
    returns (events': seq<Event>, t': System)
    requires Run(config, s, events) == Some(t) && t.core.memory.readyPath == path != config.MemoryPath()
    requires 0 in t.threads && t.threads[0].Applying? && t.threads[0].content.Some?
    ensures Run(config, s, events') == Some(t')
    ensures path !in t'.files && t'.threads == t.threads - {0} && t'.core.location == t.core.location
  {
    hide Run;
    t' := DoEndInstall(config, t, 0, t.threads[0].relaunch, None, true, Stored);
    RunThen(config, s, events, t, EndInstall(0, None, true, Stored), t');
    events' := events + [EndInstall(0, None, true, Stored)];
  }

  /** From every quiet state with a package ready there is a run after which a package is shown as ready and its
      file is gone: an install, and a second download of the same release let in while it applies. */
  lemma ReadyFileCanVanish(config: Config, s: System) returns (events: seq<Event>)
    requires config.Hexadecimal() && QuietAndReady(config, s) && Located(s.core.location)
    ensures Run(config, s, events).Some?
    ensures var t := Run(config, s, events).value;
            t.core.state.phase == PhaseReady && t.core.memory.readyPath != "" && t.core.memory.readyPath !in t.files
  {
    hide SemVer.Newer, SemVer.ParseStable, CheckLatest, Lower, Run, Order;
    var path, next := s.core.memory.readyPath, s.core.memory.readyVersion;
    var content := s.files[path];
    OfferIsAvailable(config, s.core.version, s.core.location.target, next, content);
    var release := CheckLatest(s.core.version, Offer(config, s.core.location.target, next, content)).value;
    PackagePathIsNeither(config.directory, s.core.location.target, next);
    var t;
    events, t := InstallOpens(config, s);
    var context := t.core.nextContext;
    events, t := DownloadStarts(config, s, events, t, 1, next, content, release);
    events, t := FetchPlaces(config, s, events, t, 1, context, release, content);
    events, t := InstallEndsFirst(config, s, events, t, path);
    events, t := DownloadEnds(config, s, events, t, 1, context, release, path);
  }

  /** So a first launch can come to it, whatever the newer version and the package. */
  lemma LaunchCanLoseItsPackage(config: Config, version: string, location: Location, next: string, content: Bytes)
    returns (events: seq<Event>)
    requires config.Hexadecimal() && Located(location) && location.CanInstall() && IsUpdate(version, next)
    ensures Run(config, Launch(version, location), events).Some?
    ensures var t := Run(config, Launch(version, location), events).value;
            t.core.state.phase == PhaseReady && t.core.memory.readyPath != "" && t.core.memory.readyPath !in t.files
  {
    hide Run, QuietAndReady;
    var s;
    events, s := ReadyIsReached(config, version, location, next, content);
    var more := ReadyFileCanVanish(config, s);
    RunOn(config, Launch(version, location), events, s, more);
    events := events + more;
  }
}
