/** Where a build is installed, which package it installs from, and whether it may replace itself. */
module Target {
  import opened Common
  import SemVer

  datatype Kind = AppBundle | Installer | AppImage | Managed | Unknown

  datatype Blocker = BlockerNone | PackageManager | ReadOnly | NotPackaged | Unsupported

  datatype Asset = Asset(os: string, arch: string, ext: string) {
    function PackageName(version: string): string {
      "mq-studio-" + (if version != "" && version[0] == 'v' then version[1..] else version) + Suffix()
    }

    function Suffix(): string { "-" + os + "-" + arch + "." + ext }
  }

  datatype Location = Location(kind: Kind, target: Asset, root: string, blocker: Blocker) {
    predicate CanInstall() { blocker == BlockerNone }
  }

  const NO_ASSET := Asset("", "", "")

  /** A directory name with the extension .app, in any case. */
  predicate IsApp(name: string) {
    |name| >= 4 && name[|name| - 4] == '.' && name[|name| - 3] in "aA" && name[|name| - 2] in "pP" && name[|name| - 1] in "pP"
  }

  /** A path is the names from the file system's root down; as a text, the root alone is a slash. */
  function Text(path: seq<string>): string {
    if path == [] then "/" else if |path| == 1 then "/" + path[0] else Text(path[..|path| - 1]) + "/" + path[|path| - 1]
  }

  /** The bundle at or above a directory, walking up. */
  function BundleAbove(directory: seq<string>): Option<seq<string>> {
    if directory == [] then None
    else if IsApp(directory[|directory| - 1]) then Some(directory)
    else BundleAbove(directory[..|directory| - 1])
  }

  function DirectoryOf(path: seq<string>): seq<string> {
    if path == [] then [] else path[..|path| - 1]
  }

  method BundleRoot(executable: seq<string>) returns (root: Option<seq<string>>)
    ensures root == BundleAbove(DirectoryOf(executable))
  {
    var directory := DirectoryOf(executable);
    while directory != []
      invariant BundleAbove(directory) == BundleAbove(DirectoryOf(executable))
      decreases |directory|
    {
      if IsApp(directory[|directory| - 1]) {
        return Some(directory);
      }
      directory := directory[..|directory| - 1];
    }
    root := None;
  }

  /** The walk finds the innermost .app directory above the executable, and none exactly when there is none. */
  lemma {:induction false} BundleIsInnermost(directory: seq<string>)
    ensures BundleAbove(directory).None? <==> forall i | 0 <= i < |directory| :: !IsApp(directory[i])
    ensures BundleAbove(directory).Some? ==>
              var root := BundleAbove(directory).value;
              root != [] && root <= directory && IsApp(root[|root| - 1]) &&
              forall i | |root| <= i < |directory| :: !IsApp(directory[i])
  {
    if directory != [] && !IsApp(directory[|directory| - 1]) {
      var above := directory[..|directory| - 1];
      BundleIsInnermost(above);
      assert forall i | 0 <= i < |above| :: above[i] == directory[i];
    }
  }

  /** An empty executable is one the system did not name; `appImage` is the running image, "" for none. */
  function Locate(goos: string, goarch: string, executable: seq<string>, appImage: string, writable: string -> bool): Location {
    if goarch != "amd64" && goarch != "arm64" then Location(Unknown, NO_ASSET, "", Unsupported)
    else if goos == "darwin" then
      var target := Asset("mac", goarch, "dmg");
      match BundleAbove(DirectoryOf(executable))
      case None => Location(Unknown, target, "", NotPackaged)
      case Some(root) =>
        Location(AppBundle, target, Text(root), if writable(Text(DirectoryOf(root))) then BlockerNone else ReadOnly)
    else if goos == "windows" then
      var target := Asset("windows", goarch, "exe");
      if executable == [] then Location(Unknown, target, "", NotPackaged)
      else Location(Installer, target, Text(executable), BlockerNone)
    else if goos == "linux" then
      if appImage == "" then Location(Managed, Asset("linux", goarch, "deb"), "", PackageManager)
      else Location(AppImage, Asset("linux", goarch, "AppImage"), appImage,
                    if writable(appImage) then BlockerNone else ReadOnly)
    else Location(Unknown, NO_ASSET, "", Unsupported)
  }

  /** What every located build has: an installable one names a thing to replace and one of the shipped formats. */
  ghost predicate Located(location: Location) {
    location.CanInstall() ==>
      location.root != "" && location.kind in {AppBundle, Installer, AppImage} &&
      location.target.ext in {"dmg", "exe", "AppImage"}
  }

  /** The innermost .app directory the executable lies in, at this depth. */
  ghost predicate InnermostApp(executable: seq<string>, depth: nat) {
    0 < depth < |executable| && IsApp(executable[depth - 1]) && forall i | depth <= i < |executable| - 1 :: !IsApp(executable[i])
  }

  /** A build can install exactly when it runs from a bundle whose parent can be written, is installed on Windows, or is
      a writable AppImage, on a supported architecture; and then its root is that bundle, executable or image. */
  lemma LocateIsLocated(goos: string, goarch: string, executable: seq<string>, appImage: string, writable: string -> bool)
    ensures var location := Locate(goos, goarch, executable, appImage, writable);
            Located(location) &&
            (location.CanInstall() <==>
              goarch in {"amd64", "arm64"} &&
              ((goos == "darwin" &&
                exists depth: nat :: InnermostApp(executable, depth) && writable(Text(executable[..depth - 1]))) ||
               (goos == "windows" && executable != []) || (goos == "linux" && appImage != "" && writable(appImage))))
    ensures var location := Locate(goos, goarch, executable, appImage, writable);
            location.kind.AppBundle? ==>
              exists depth: nat :: InnermostApp(executable, depth) && location.root == Text(executable[..depth])
    ensures var location := Locate(goos, goarch, executable, appImage, writable);
            location.CanInstall() ==>
              location.target == (if goos == "darwin" then Asset("mac", goarch, "dmg")
                                  else if goos == "windows" then Asset("windows", goarch, "exe")
                                  else Asset("linux", goarch, "AppImage")) &&
              (goos == "windows" ==> location.kind == Installer && location.root == Text(executable)) &&
              (goos == "linux" ==> location.kind == AppImage && location.root == appImage)
    ensures var location := Locate(goos, goarch, executable, appImage, writable);
            (location.blocker == Unsupported <==>
               goarch !in {"amd64", "arm64"} || goos !in {"darwin", "windows", "linux"}) &&
            (location.blocker == PackageManager <==> goarch in {"amd64", "arm64"} && goos == "linux" && appImage == "") &&
            (location.blocker == NotPackaged <==>
               goarch in {"amd64", "arm64"} &&
               ((goos == "darwin" && forall depth: nat :: !InnermostApp(executable, depth)) ||
                (goos == "windows" && executable == [])))
  {
    hide Text, IsApp;
    assert forall path: seq<string> :: Text(path) != "" by {
      forall path: seq<string> ensures Text(path) != "" {
        TextIsSomething(path);
      }
    }
    if executable != [] {
      var directory := DirectoryOf(executable);
      BundleIsInnermost(directory);
      assert forall i | 0 <= i < |directory| :: directory[i] == executable[i];
      match BundleAbove(directory)
      case None => assert forall depth: nat :: !InnermostApp(executable, depth);
      case Some(root) =>
        assert root == executable[..|root|] && DirectoryOf(root) == executable[..|root| - 1];
        assert InnermostApp(executable, |root|);
        forall depth: nat | InnermostApp(executable, depth) ensures depth == |root| {
          assert executable[depth - 1] == directory[depth - 1];
        }
    }
  }

  lemma TextIsSomething(path: seq<string>)
    ensures Text(path) != ""
  {
  }

  // ---- Paths in the download directory ----------------------------------------------------------

  function Join(directory: string, name: string): string { directory + "/" + name }

  const MEMORY_FILE := "update.json"

  /** A package is stored under its own name, a part file under that name and ".part". */
  ghost predicate IsPart(path: string) {
    |path| >= 5 && path[|path| - 5..] == ".part"
  }

  lemma PartEnds(path: string)
    ensures IsPart(path) ==> path[|path| - 1] == 't'
  {
    if IsPart(path) {
      assert path[|path| - 1] == path[|path| - 5..][4];
    }
  }

  /** Package paths never collide with part files or with the updater's own record. */
  lemma PackagePathIsNeither(directory: string, target: Asset, version: string)
    requires target.ext in {"dmg", "exe", "AppImage"}
    ensures var path := Join(directory, target.PackageName(version));
            path != "" && !IsPart(path) && path != Join(directory, MEMORY_FILE)
  {
    var name := target.PackageName(version);
    var path := Join(directory, name);
    assert path[|path| - 1] == target.ext[|target.ext| - 1] by {
      assert path[|path| - |target.ext|..] == target.ext;
    }
    PartEnds(path);
    assert name[0] == 'm' && MEMORY_FILE[0] == 'u';
    assert path[|directory| + 1] == name[0];
    assert Join(directory, MEMORY_FILE)[|directory| + 1] == 'u';
  }

  lemma MemoryPathIsNoPart(directory: string)
    ensures !IsPart(Join(directory, MEMORY_FILE))
  {
    var path := Join(directory, MEMORY_FILE);
    assert path[|path| - 1] == MEMORY_FILE[10] == 'n';
    PartEnds(path);
  }

  function WithoutV(version: string): string {
    if version != "" && version[0] == 'v' then version[1..] else version
  }

  /** Two releases share a package path exactly when they are one version, a leading `v` aside: the file a record names
      is its own. */
  lemma PackageNamesItsVersion(directory: string, target: Asset, left: string, right: string)
    ensures Join(directory, target.PackageName(left)) == Join(directory, target.PackageName(right)) <==>
            WithoutV(left) == WithoutV(right)
  {
    var n := |directory| + 11;
    var l, r := Join(directory, target.PackageName(left)), Join(directory, target.PackageName(right));
    assert l[n..|l| - |target.Suffix()|] == WithoutV(left);
    assert r[n..|r| - |target.Suffix()|] == WithoutV(right);
  }
}
