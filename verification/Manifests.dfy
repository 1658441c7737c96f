/** The release description a mirror serves, the failures a fetch can meet, and the check that reads one. */
module Manifests {
  import opened Common
  import opened Mirrors
  import SemVer

  const SUPPORTED_SCHEMA: int := 1
  const HEX_SHA256: nat := 64

  datatype Reason = Reason(mirror: string, error: Error)

  datatype Error =
    | SchemaTooNew(schema: int)
    | Canceled
    | ChecksumMismatch
    | NotInstallable
    | Fault(text: string)
    | MirrorFailure(what: string, reasons: seq<Reason>)

  /** errors.Is against a sentinel: a mirror failure is whatever any of the failures it collected is. */
  predicate IsTooNew(error: Error) {
    error.SchemaTooNew? || (error.MirrorFailure? && exists reason | reason in error.reasons :: IsTooNew(reason.error))
  }

  predicate IsCanceled(error: Error) {
    error.Canceled? || (error.MirrorFailure? && exists reason | reason in error.reasons :: IsCanceled(reason.error))
  }

  datatype ManifestFile = ManifestFile(path: string, size: int, sha256: string)

  datatype Manifest = Manifest(
    schema: int, version: string, tag: string, publishedAt: string, releaseURL: string, notes: string,
    mirrors: seq<Mirror>, files: map<string, ManifestFile>)

  predicate UsableFile(file: ManifestFile) {
    file.path != "" && |file.sha256| == HEX_SHA256
  }

  /** What a build acts on: its own schema, a stable version, and a path and digest for every package. */
  ghost predicate Usable(manifest: Manifest) {
    1 <= manifest.schema <= SUPPORTED_SCHEMA && SemVer.ParseStable(manifest.version).Some? &&
    manifest.files != map[] && forall name | name in manifest.files :: UsableFile(manifest.files[name])
  }

  /** `decoded` is what the JSON decoder made of the bytes, None when it refused them. */
  method ParseManifest(decoded: Option<Manifest>) returns (r: Result<Manifest, Error>)
    ensures r.Ok? <==> decoded.Some? && Usable(decoded.value)
    ensures r.Ok? ==>
              r.value == decoded.value && r.value.schema == 1 && SemVer.ParseStable(r.value.version).Some? &&
              forall name | name in r.value.files :: r.value.files[name].path != "" && |r.value.files[name].sha256| == 64
    ensures r.Err? ==> (IsTooNew(r.error) <==> decoded.Some? && decoded.value.schema > SUPPORTED_SCHEMA)
  {
    hide SemVer.ParseStable;
    if decoded.None? {
      return Err(Fault("unreadable release index"));
    }
    var manifest := decoded.value;
    if manifest.schema > SUPPORTED_SCHEMA {
      return Err(SchemaTooNew(manifest.schema));
    }
    if manifest.schema < 1 {
      return Err(Fault("the release index does not say which schema it uses"));
    }
    if SemVer.ParseStable(manifest.version).None? {
      return Err(Fault("the release index names no stable version"));
    }
    if |manifest.files| == 0 {
      return Err(Fault("the release index lists no packages"));
    }
    var left := manifest.files.Keys;
    while left != {}
      invariant left <= manifest.files.Keys
      invariant forall name | name in manifest.files && name !in left :: UsableFile(manifest.files[name])
      decreases |left|
    {
      var name :| name in left;
      left := left - {name};
      if manifest.files[name].path == "" {
        return Err(Fault(name + " has no path in the release index"));
      }
      if |manifest.files[name].sha256| != HEX_SHA256 {
        return Err(Fault(name + " has no usable checksum in the release index"));
      }
    }
    r := Ok(manifest);
  }

  datatype Fetched = Fetched(manifest: Manifest, mirror: Mirror, order: seq<Mirror>)

  datatype Status = Available | Current | Ahead

  datatype Release = Release(
    status: Status, currentVersion: string, latestVersion: string, notes: string, publishedAt: string,
    releaseURL: string, manifest: Manifest, mirror: Mirror, order: seq<Mirror>)

  function StatusFromComparison(comparison: int): Status {
    if comparison < 0 then Available else if comparison > 0 then Ahead else Current
  }

  function CheckLatest(currentVersion: string, fetched: Result<Fetched, Error>): Result<Release, Error> {
    match SemVer.ParseStable(currentVersion)
    case None => Err(Fault("invalid stable SemVer: " + currentVersion))
    case Some(current) =>
      match fetched
      case Err(error) => Err(error)
      case Ok(answer) =>
        match SemVer.ParseStable(answer.manifest.version)
        case None => Err(Fault("invalid stable SemVer: " + answer.manifest.version))
        case Some(latest) =>
          match SemVer.Compare(current.normalized, latest.normalized)
          case None => Err(Fault("invalid stable SemVer"))
          case Some(comparison) =>
            Ok(Release(StatusFromComparison(comparison), current.normalized, latest.normalized,
                       Trim(answer.manifest.notes, SemVer.IsSpace),
                       Trim(answer.manifest.publishedAt, SemVer.IsSpace),
                       Trim(answer.manifest.releaseURL, SemVer.IsSpace),
                       answer.manifest, answer.mirror, answer.order))
  }

  /** A release is reported as available exactly when the manifest's version is strictly newer than the build,
      and a development build or an unusable answer is an error rather than an outcome. */
  lemma CheckReportsNewer(currentVersion: string, fetched: Result<Fetched, Error>)
    ensures CheckLatest(currentVersion, fetched).Ok? <==>
            SemVer.ParseStable(currentVersion).Some? && fetched.Ok? &&
            SemVer.ParseStable(fetched.value.manifest.version).Some?
    ensures CheckLatest(currentVersion, fetched).Ok? ==>
              var release := CheckLatest(currentVersion, fetched).value;
              release.latestVersion == SemVer.ParseStable(fetched.value.manifest.version).value.normalized != "" &&
              (release.status == Available <==> SemVer.Newer(currentVersion, release.latestVersion)) &&
              (release.status == Available <==> SemVer.Newer(currentVersion, fetched.value.manifest.version)) &&
              (release.status == Current <==> release.currentVersion == release.latestVersion)
  {
    if SemVer.ParseStable(currentVersion).Some? {
      SemVer.NormalizedReparses(currentVersion);
      if fetched.Ok? && SemVer.ParseStable(fetched.value.manifest.version).Some? {
        var version := fetched.value.manifest.version;
        SemVer.NormalizedReparses(version);
        SemVer.NormalizingKeepsPrecedence(currentVersion, version);
        SemVer.PrecedenceIsLexicographic(currentVersion, version);
      }
    }
  }

  /** The text without the space around it. */
  ghost predicate Stripped(text: string, core: string) {
    Trimmed(core, SemVer.IsSpace) &&
    exists before, after :: AllIn(before, SemVer.IsSpace) && AllIn(after, SemVer.IsSpace) && text == before + core + after
  }

  lemma TrimStrips(text: string)
    ensures Stripped(text, Trim(text, SemVer.IsSpace))
  {
    hide Trim, AllIn, Trimmed, SemVer.IsSpace;
    var before, after := TrimSplits(text, SemVer.IsSpace);
  }

  /** A successful check passes on the index that was read, the mirror it came from and the order to download in. */
  lemma CheckCarriesAnswer(currentVersion: string, fetched: Result<Fetched, Error>)
    requires CheckLatest(currentVersion, fetched).Ok?
    ensures var release, answer := CheckLatest(currentVersion, fetched).value, fetched.value;
            release.manifest == answer.manifest && release.mirror == answer.mirror && release.order == answer.order &&
            Stripped(answer.manifest.notes, release.notes) && Stripped(answer.manifest.publishedAt, release.publishedAt) &&
            Stripped(answer.manifest.releaseURL, release.releaseURL)
  {
    hide Stripped, Trim, SemVer.ParseStable, SemVer.Compare;
    TrimStrips(fetched.value.manifest.notes);
    TrimStrips(fetched.value.manifest.publishedAt);
    TrimStrips(fetched.value.manifest.releaseURL);
  }
}
