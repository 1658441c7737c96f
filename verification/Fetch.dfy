/** Fetching a release's package: sweep the directory, then try each mirror in turn. */
module Fetch {
  import opened Common
  import opened Disk
  import opened Download
  import opened Manifests
  import opened Mirrors
  import SemVer
  import Target

  /** What a sweep may leave of the directory: everything it keeps is as it was, and its two paths are kept. */
  ghost predicate Swept(job: Job, before: Files, after: Files) {
    (forall path | path in after :: path in before && after[path] == before[path]) &&
    (job.target in before ==> job.target in after) && (job.memory in before ==> job.memory in after)
  }

  /** Nothing is left in the directory but the package and the record. */
  ghost predicate Tidy(job: Job, files: Files) {
    forall path | path in files :: path == job.target || path == job.memory
  }

  method SweepOne(disk: FileSystem, job: Job, path: string, ghost start: nat)
    requires disk.Valid() && Reaches(job, disk.trace, start, Idle) && path != job.target && path != job.memory
    modifies disk
    ensures disk.Valid() && old(disk.trace) <= disk.trace && Reaches(job, disk.trace, start, Idle)
    ensures disk.files == old(disk.files) - {path} || disk.files == old(disk.files)
    ensures disk.faults >= old(disk.faults) && (disk.faults == old(disk.faults) ==> path !in disk.files)
  {
    hide Reaches;
    disk.Remove(path);
    assert old(disk.files).Keys - disk.files.Keys <= {path};
    assert SweepStep(job, old(disk.files), disk.files);
    ReachesOneMore(job, old(disk.trace), start, Idle, disk.files, Idle);
  }

  /** Removes abandoned packages; the package about to be fetched and the updater's record stay. */
  method Sweep(disk: FileSystem, job: Job, ghost start: nat)
    requires disk.Valid() && Reaches(job, disk.trace, start, Idle)
    modifies disk
    ensures disk.Valid() && old(disk.trace) <= disk.trace && Reaches(job, disk.trace, start, Idle)
    ensures disk.faults >= old(disk.faults)
    ensures Swept(job, old(disk.files), disk.files)
    ensures disk.faults == old(disk.faults) ==> Tidy(job, disk.files)
  {
    hide Reaches;
    var listed, left := disk.List();
    if !listed {
      return;
    }
    while left != {}
      invariant disk.Valid() && old(disk.trace) <= disk.trace && Reaches(job, disk.trace, start, Idle)
      invariant disk.faults >= old(disk.faults)
      invariant Swept(job, old(disk.files), disk.files)
      invariant disk.faults == old(disk.faults) ==>
                  forall path | path in disk.files :: path in left || path == job.target || path == job.memory
      decreases |left|
    {
      var path :| path in left;
      left := left - {path};
      if path != job.target && path != job.memory {
        SweepOne(disk, job, path, start);
      }
    }
  }

  function MirrorsOf(release: Release): seq<Mirror> {
    if release.order == [] then [release.mirror] else release.order
  }

  function JobOf(hash: Bytes -> string, directory: string, name: string, file: ManifestFile): Job {
    Job(hash, Target.Join(directory, Target.MEMORY_FILE), Target.Join(directory, name), file.sha256)
  }

  /** One reason per mirror, in the order they were tried. */
  ghost predicate NamesEach(reasons: seq<Reason>, mirrors: seq<Mirror>) {
    |reasons| == |mirrors| && forall i | 0 <= i < |mirrors| :: reasons[i].mirror == mirrors[i].name
  }

  /** A mirror before the first cancelled one served the package. */
  ghost predicate SomeMirrorServes(job: Job, responses: seq<Response>) {
    exists i :: 0 <= i < |responses| && Served(job, responses[i]) && forall j | 0 <= j < i :: !Cancels(job, responses[j])
  }

  ghost predicate Cancels(job: Job, response: Response) {
    Refusal(job, response).Some? && IsCanceled(Refusal(job, response).value)
  }

  /** A mirror was cancelled before any served the package. */
  ghost predicate CancelledFirst(job: Job, responses: seq<Response>) {
    exists i :: 0 <= i < |responses| && Cancels(job, responses[i]) && forall j | 0 <= j < i :: !Served(job, responses[j])
  }

  ghost predicate NothingCame(job: Job, responses: seq<Response>) {
    forall i | 0 <= i < |responses| :: !Served(job, responses[i]) && !Cancels(job, responses[i])
  }

  /** What a fetch shows while it is at work: the mirror it turns to, and how far it is. */
  datatype Shown = Tried(mirror: string) | Reported(done: nat, total: int)

  function Reports(reports: seq<(nat, int)>, total: nat := |reports|): (shown: seq<Shown>)
    requires total <= |reports|
    ensures |shown| == total && forall i | 0 <= i < total :: shown[i].Reported?
  {
    seq(total, i requires 0 <= i < total => Reported(reports[i].0, reports[i].1))
  }

  function Tries(shown: seq<Shown>): seq<string> {
    if shown == [] then []
    else Tries(shown[..|shown| - 1]) + if shown[|shown| - 1].Tried? then [shown[|shown| - 1].mirror] else []
  }

  lemma {:induction false} TriesOneMirror(shown: seq<Shown>, mirror: string, reports: seq<Shown>)
    requires forall i | 0 <= i < |reports| :: reports[i].Reported?
    ensures Tries(shown + [Tried(mirror)] + reports) == Tries(shown) + [mirror]
  {
    var all := shown + [Tried(mirror)] + reports;
    if reports == [] {
      assert all[..|all| - 1] == shown;
    } else {
      assert all[..|all| - 1] == shown + [Tried(mirror)] + reports[..|reports| - 1];
      TriesOneMirror(shown, mirror, reports[..|reports| - 1]);
    }
  }

  /** What a fetch of a listed package comes to, when the mirrors would answer with `responses`. */
  ghost predicate FetchedAs(job: Job, release: Release, file: ManifestFile, responses: seq<Response>, files: Files,
                            faultless: bool, r: Result<string, Error>)
  {
    (r.Ok? ==> r.value == job.target && job.target in files && job.Genuine(files[job.target]) && job.Part() !in files) &&
    (r.Err? && IsCanceled(r.error) ==> exists i :: 0 <= i < |responses| && Cancels(job, responses[i])) &&
    (r.Err? && !IsCanceled(r.error) ==> r.error.MirrorFailure? && NamesEach(r.error.reasons, MirrorsOf(release))) &&
    (faultless && UsableFile(file) ==>
       (r.Ok? <==> SomeMirrorServes(job, responses)) &&
       (r.Err? && IsCanceled(r.error) <==> CancelledFirst(job, responses)) &&
       (r.Err? && !IsCanceled(r.error) <==> NothingCame(job, responses)))
  }

  /** The mirrors were asked in order, each for the listed path, and shown as they were. */
  ghost predicate Asked(release: Release, file: ManifestFile, urls: seq<string>, shown: seq<Shown>) {
    |urls| <= |MirrorsOf(release)| && |Tries(shown)| == |urls| &&
    forall i | 0 <= i < |urls| ::
      urls[i] == MirrorsOf(release)[i].AssetURL(file.path) && Tries(shown)[i] == MirrorsOf(release)[i].name
  }

  ghost predicate AllFailed(job: Job, mirrors: seq<Mirror>, responses: seq<Response>, usable: bool, reasons: seq<Reason>)
    requires |responses| == |mirrors|
  {
    |reasons| <= |mirrors| &&
    (forall j | 0 <= j < |reasons| :: reasons[j].mirror == mirrors[j].name && !IsCanceled(reasons[j].error)) &&
    (usable ==> forall j | 0 <= j < |reasons| :: !Served(job, responses[j]) && !Cancels(job, responses[j]))
  }

  /** One mirror, on top of those before it. */
  method TryOne(disk: FileSystem, job: Job, mirror: Mirror, path: string, response: Response, shown: seq<Shown>,
                urls: seq<string>, ghost start: nat)
    returns (failure: Option<Error>, told: seq<Shown>, asked: seq<string>)
    requires disk.Valid() && (response.Body? ==> FitsBuffer(response.chunks)) && Reaches(job, disk.trace, start, Idle)
    modifies disk
    ensures disk.Valid() && old(disk.trace) <= disk.trace && disk.faults >= old(disk.faults)
    ensures asked == urls + [mirror.AssetURL(path)] && Tries(told) == Tries(shown) + [mirror.name]
    ensures failure.None? ==>
              Served(job, response) && job.target in disk.files && job.Genuine(disk.files[job.target]) &&
              job.Part() !in disk.files && Reaches(job, disk.trace, start, Arrived(disk.files[job.target]))
    ensures disk.faults == old(disk.faults) && Tidy(job, old(disk.files)) ==> Tidy(job, disk.files)
    ensures failure.Some? ==> Reaches(job, disk.trace, start, Idle)
    ensures failure.Some? && IsCanceled(failure.value) ==> Cancels(job, response)
    ensures failure.Some? && !IsCanceled(failure.value) && disk.faults == old(disk.faults) && |job.want| == HEX_SHA256 ==>
              !Served(job, response) && !Cancels(job, response)
  {
    hide Reaches, Tries, Delivered, Interruption, IsCanceled;
    asked := urls + [mirror.AssetURL(path)];
    var reports;
    failure, reports := Download.Download(disk, job, response, start);
    told := shown + [Tried(mirror.name)] + Reports(reports);
    TriesOneMirror(shown, mirror.name, Reports(reports));
  }

  /** `responses` are the answers the mirrors would give, one each; `urls` are the requests made. */
  method FetchPackage(disk: FileSystem, hash: Bytes -> string, directory: string, location: Target.Location,
                      release: Release, responses: seq<Response>)
    returns (r: Result<string, Error>, urls: seq<string>, shown: seq<Shown>)
    requires disk.Valid() && |responses| == |MirrorsOf(release)|
    requires forall response | response in responses :: response.Body? ==> FitsBuffer(response.chunks)
    modifies disk
    ensures disk.Valid() && old(disk.trace) <= disk.trace && disk.faults >= old(disk.faults)
    ensures var name := location.target.PackageName(release.latestVersion);
            name !in release.manifest.files ==>
              r.Err? && !IsCanceled(r.error) && disk.trace == old(disk.trace) && urls == [] && shown == []
    ensures var name := location.target.PackageName(release.latestVersion);
            name in release.manifest.files ==>
              var file := release.manifest.files[name];
              var job := JobOf(hash, directory, name, file);
              FetchedAs(job, release, file, responses, disk.files, disk.faults == old(disk.faults), r) &&
              Asked(release, file, urls, shown) &&
              (disk.faults == old(disk.faults) ==> Tidy(job, disk.files)) &&
              Reaches(job, disk.trace, |old(disk.trace)|, if r.Ok? then Arrived(disk.files[job.target]) else Idle)
  {
    hide Reaches, Tries, Served, IsCanceled, SemVer.ParseStable, FetchedAs, Cancels, AllFailed, Asked, Tidy;
    NothingAsked(release);
    urls, shown := [], [];
    var name := location.target.PackageName(release.latestVersion);
    if name !in release.manifest.files {
      r := Err(Fault("release " + release.latestVersion + " has no package for this platform"));
      FaultIsNoCancel(r.error);
      return;
    }
    var file := release.manifest.files[name];
    var mirrors := MirrorsOf(release);
    var job := JobOf(hash, directory, name, file);
    ghost var start := |disk.trace|;
    NothingYet(job, disk.trace);
    NoneFailed(job, mirrors, responses);
    Sweep(disk, job, start);
    var reasons: seq<Reason> := [];
    for i := 0 to |mirrors|
      invariant disk.Valid() && old(disk.trace) <= disk.trace && Reaches(job, disk.trace, start, Idle)
      invariant disk.faults == old(disk.faults) ==> Tidy(job, disk.files)
      invariant disk.faults >= old(disk.faults) && |reasons| == |urls| == i
      invariant AllFailed(job, mirrors, responses, disk.faults == old(disk.faults) && UsableFile(file), reasons)
      invariant Asked(release, file, urls, shown)
    {
      assert responses[i] in responses;
      ghost var usable := disk.faults == old(disk.faults) && UsableFile(file);
      var failure, told, asked := TryOne(disk, job, mirrors[i], file.path, responses[i], shown, urls, start);
      StillFailed(job, mirrors, responses, usable, disk.faults == old(disk.faults) && UsableFile(file), reasons);
      OneMoreAsked(release, file, urls, shown, asked, told);
      urls, shown := asked, told;
      if failure.None? {
        ServedEndsIt(job, release, file, responses, disk.files, disk.faults == old(disk.faults), reasons);
        return Ok(job.target), urls, shown;
      }
      if IsCanceled(failure.value) {
        CancelEndsIt(job, release, file, responses, disk.files, disk.faults == old(disk.faults), reasons, failure.value);
        return Err(failure.value), urls, shown;
      }
      OneMoreFailed(job, mirrors, responses, disk.faults == old(disk.faults) && UsableFile(file), reasons, failure.value);
      reasons := reasons + [Reason(mirrors[i].name, failure.value)];
    }
    r := Err(MirrorFailure(name + " could not be downloaded", reasons));
    NobodyServed(job, release, file, responses, disk.files, disk.faults == old(disk.faults), reasons, r);
  }

  lemma NothingAsked(release: Release)
    ensures forall file :: Asked(release, file, [], [])
  {
  }

  lemma OneMoreAsked(release: Release, file: ManifestFile, urls: seq<string>, shown: seq<Shown>,
                     asked: seq<string>, told: seq<Shown>)
    requires Asked(release, file, urls, shown) && |urls| < |MirrorsOf(release)|
    requires var mirror := MirrorsOf(release)[|urls|];
             asked == urls + [mirror.AssetURL(file.path)] && Tries(told) == Tries(shown) + [mirror.name]
    ensures Asked(release, file, asked, told)
  {
    hide Tries;
  }

  lemma NoneFailed(job: Job, mirrors: seq<Mirror>, responses: seq<Response>)
    requires |responses| == |mirrors|
    ensures forall usable :: AllFailed(job, mirrors, responses, usable, [])
  {
  }

  lemma StillFailed(job: Job, mirrors: seq<Mirror>, responses: seq<Response>, was: bool, usable: bool, reasons: seq<Reason>)
    requires |responses| == |mirrors| && AllFailed(job, mirrors, responses, was, reasons) && (usable ==> was)
    ensures AllFailed(job, mirrors, responses, usable, reasons)
  {
  }

  lemma OneMoreFailed(job: Job, mirrors: seq<Mirror>, responses: seq<Response>, usable: bool, reasons: seq<Reason>,
                      error: Error)
    requires |responses| == |mirrors| && |reasons| < |mirrors| && AllFailed(job, mirrors, responses, usable, reasons)
    requires !IsCanceled(error)
    requires usable ==> !Served(job, responses[|reasons|]) && !Cancels(job, responses[|reasons|])
    ensures AllFailed(job, mirrors, responses, usable, reasons + [Reason(mirrors[|reasons|].name, error)])
  {
    hide Served, Cancels, IsCanceled;
  }

  lemma ServedEndsIt(job: Job, release: Release, file: ManifestFile, responses: seq<Response>, files: Files,
                     faultless: bool, reasons: seq<Reason>)
    requires |responses| == |MirrorsOf(release)| && |reasons| < |responses| && Served(job, responses[|reasons|])
    requires AllFailed(job, MirrorsOf(release), responses, faultless && UsableFile(file), reasons)
    requires job.target in files && job.Genuine(files[job.target]) && job.Part() !in files
    ensures FetchedAs(job, release, file, responses, files, faultless, Ok(job.target))
  {
    hide IsCanceled, UsableFile, Refusal;
  }

  lemma CancelEndsIt(job: Job, release: Release, file: ManifestFile, responses: seq<Response>, files: Files,
                     faultless: bool, reasons: seq<Reason>, error: Error)
    requires |responses| == |MirrorsOf(release)| && |reasons| < |responses| && Cancels(job, responses[|reasons|])
    requires AllFailed(job, MirrorsOf(release), responses, faultless && UsableFile(file), reasons) && IsCanceled(error)
    ensures FetchedAs(job, release, file, responses, files, faultless, Err(error))
  {
    hide IsCanceled, UsableFile, Refusal;
  }

  lemma NobodyServed(job: Job, release: Release, file: ManifestFile, responses: seq<Response>, files: Files,
                     faultless: bool, reasons: seq<Reason>, r: Result<string, Error>)
    requires |responses| == |MirrorsOf(release)| == |reasons|
    requires AllFailed(job, MirrorsOf(release), responses, faultless && UsableFile(file), reasons)
    requires r.Err? && r.error.MirrorFailure? && r.error.reasons == reasons
    ensures FetchedAs(job, release, file, responses, files, faultless, r)
  {
    hide Served, IsCanceled, UsableFile;
    NoneIsCancel(r.error);
  }

  lemma NothingYet(job: Job, trace: seq<Files>)
    requires trace != []
    ensures Reaches(job, trace, |trace|, Idle)
    ensures Tries([]) == []
  {
  }

  lemma FaultIsNoCancel(error: Error)
    requires error.Fault?
    ensures !IsCanceled(error)
  {
  }

  lemma NoneIsCancel(error: Error)
    requires error.MirrorFailure? && forall reason | reason in error.reasons :: !IsCanceled(reason.error)
    ensures !IsCanceled(error)
  {
  }
}
