/** Replacing the installation: the bundle swap with its rollback, and the AppImage rename. */
module Apply {
  import opened Common
  import opened Disk
  import opened Manifests
  import opened Target

  // ---- Directory trees ----------------------------------------------------------------------------

  /** A directory tree: what each file in it, named by its path from the top, holds. */
  type Tree = map<string, Bytes>

  type Trees = map<string, Tree>

  function TreeAt(trees: Trees, path: string): Tree {
    if path in trees then trees[path] else map[]
  }

  function Restricted(tree: Tree, paths: set<string>): Tree {
    map path | path in tree && path in paths :: tree[path]
  }

  /** A deletion: complete, or with the files that resisted it still there. */
  function Removed(trees: Trees, path: string, stays: Option<set<string>>): Trees {
    if path !in trees then trees
    else if stays.None? then trees - {path}
    else trees[path := Restricted(trees[path], stays.value)]
  }

  /** A copy over what is there already: its files replace those, the others stay. Cut short it leaves `broken`. */
  function Copied(trees: Trees, target: string, source: Tree, broken: Option<Tree>): Trees {
    trees[target := if broken.Some? then broken.value else TreeAt(trees, target) + source]
  }

  /** A directory is not renamed over another one. */
  predicate Movable(trees: Trees, source: string, target: string, granted: bool) {
    granted && source in trees && target !in trees
  }

  function Moved(trees: Trees, source: string, target: string): Trees
    requires source in trees
  {
    trees[target := trees[source]] - {source}
  }

  /** Throughout the trace, only what is at this one path changes. */
  ghost predicate OnlyAt(path: string, before: Trees, trace: seq<Trees>, from: nat) {
    forall k | from <= k < |trace| :: trace[k] - {path} == before - {path}
  }

  ghost predicate Puts(before: Trees, path: string, tree: Tree, trees: Trees) {
    trees == before[path := tree]
  }

  lemma NothingYet(path: string, trees: Trees, trace: seq<Trees>)
    ensures OnlyAt(path, trees, trace, |trace|)
  {
  }

  lemma StillOnlyAt(path: string, before: Trees, trace: seq<Trees>, from: nat, trees: Trees)
    requires OnlyAt(path, before, trace, from) && trees - {path} == before - {path}
    ensures OnlyAt(path, before, trace + [trees], from)
  {
  }

  lemma OneFileLess(tree: Tree, paths: set<string>, file: string)
    ensures Restricted(tree, paths) - {file} == Restricted(tree, paths - {file})
  {
  }

  lemma WithoutPath(trees: Trees, path: string, tree: Tree)
    ensures trees[path := tree] - {path} == trees - {path}
  {
  }

  lemma PutAgain(trees: Trees, before: Trees, path: string, tree: Tree)
    requires trees - {path} == before - {path}
    ensures trees[path := tree] == before[path := tree]
    ensures trees[path := tree] - {path} == before - {path}
  {
    assert trees[path := tree] == (trees - {path})[path := tree];
    assert before[path := tree] == (before - {path})[path := tree];
  }

  lemma NoFileYet(before: Tree, source: Tree)
    ensures before + Restricted(source, source.Keys - source.Keys) == before
  {
    assert Restricted(source, source.Keys - source.Keys) == map[];
  }

  lemma OneFileMore(before: Tree, source: Tree, paths: set<string>, file: string)
    requires file in source
    ensures (before + Restricted(source, paths))[file := source[file]] == before + Restricted(source, paths + {file})
  {
  }

  lemma EveryFile(source: Tree, paths: set<string>)
    requires paths == source.Keys
    ensures Restricted(source, paths) == source
  {
  }

  datatype Command = Attach | Ditto | Detach

  class Volume {
    var trees: Trees
    var commands: seq<Command>
    ghost var trace: seq<Trees>

    ghost predicate Valid()
      reads this
    {
      trace != [] && trace[|trace| - 1] == trees
    }

    method MakeMountPoint() returns (ok: bool)
    {
      ok := *;
    }

    /** Runs hdiutil, which does not touch the installation. */
    method Run(command: Command) returns (ok: bool)
      modifies this`commands
      ensures commands == old(commands) + [command]
    {
      commands := commands + [command];
      ok := *;
    }

    /** Changes what is at the path, as everything since `from` has. */
    method Put(path: string, tree: Tree, ghost before: Trees, ghost from: nat)
      requires Valid() && OnlyAt(path, before, trace, from) && trees - {path} == before - {path}
      modifies this`trees, this`trace
      ensures Valid() && old(trace) <= trace && OnlyAt(path, before, trace, from)
      ensures trees == before[path := tree] && trees - {path} == before - {path}
    {
      PutAgain(trees, before, path, tree);
      trees := trees[path := tree];
      StillOnlyAt(path, before, trace, from, trees);
      trace := trace + [trees];
    }

    /** Deletes one file of the tree. */
    method DeleteFrom(path: string, file: string, ghost before: Trees, ghost at: Tree, ghost from: nat)
      requires Valid() && OnlyAt(path, before, trace, from) && Puts(before, path, at, trees)
      modifies this`trees, this`trace
      ensures Valid() && old(trace) <= trace && OnlyAt(path, before, trace, from) && Puts(before, path, at - {file}, trees)
    {
      hide OnlyAt;
      WithoutPath(before, path, at);
      Put(path, trees[path] - {file}, before, from);
    }

    /** Deletes the files of a tree, as many as do not resist. */
    method DeleteFiles(path: string, files: set<string>, ghost before: Trees, ghost tree: Tree, ghost from: nat)
      returns (resisted: bool, ghost there: set<string>)
      requires Valid() && OnlyAt(path, before, trace, from) && Puts(before, path, tree, trees) && files == tree.Keys
      modifies this`trees, this`trace
      ensures Valid() && old(trace) <= trace && OnlyAt(path, before, trace, from)
      ensures Puts(before, path, Restricted(tree, there), trees) && (!resisted ==> there == {})
    {
      hide OnlyAt, Restricted, Puts;
      resisted, there := false, files;
      var left := files;
      EveryFile(tree, files);
      while left != {}
        invariant Valid() && old(trace) <= trace && left <= there && (!resisted ==> there == left)
        invariant Puts(before, path, Restricted(tree, there), trees) && OnlyAt(path, before, trace, from)
        decreases |left|
      {
        var file :| file in left;
        left := left - {file};
        var deleted: bool := *;
        if deleted {
          OneFileLess(tree, there, file);
          DeleteFrom(path, file, before, Restricted(tree, there), from);
          there := there - {file};
        } else {
          resisted := true;
        }
      }
    }

    /** Deletes a tree file by file, and then its directories. */
    method RemoveAll(path: string) returns (ghost stays: Option<set<string>>)
      requires Valid()
      modifies this`trees, this`trace
      ensures Valid() && old(trace) <= trace && trees == Removed(old(trees), path, stays)
      ensures OnlyAt(path, old(trees), trace, |old(trace)|)
    {
      hide OnlyAt, Restricted;
      stays := None;
      NothingYet(path, trees, trace);
      if path !in trees {
        return;
      }
      assert Puts(trees, path, trees[path], trees);
      ghost var there;
      var resisted;
      resisted, there := DeleteFiles(path, trees[path].Keys, trees, trees[path], |trace|);
      WithoutPath(old(trees), path, Restricted(old(trees)[path], there));
      var gone: bool := *;
      if gone && !resisted {
        trees := trees - {path};
        StillOnlyAt(path, old(trees), trace, |old(trace)|, trees);
        trace := trace + [trees];
      } else {
        stays := Some(there);
      }
    }

    /** Copies one file into the tree at the target, or part of it. */
    method CopyInto(content: Bytes, target: string, file: string, ghost before: Trees, ghost at: Tree, ghost from: nat)
      returns (ok: bool, ghost now: Tree)
      requires Valid() && OnlyAt(target, before, trace, from) && Puts(before, target, at, trees)
      modifies this`trees, this`trace
      ensures Valid() && old(trace) <= trace && OnlyAt(target, before, trace, from) && Puts(before, target, now, trees)
      ensures ok ==> now == at[file := content]
    {
      hide OnlyAt;
      WithoutPath(before, target, at);
      ok := *;
      var tree;
      if ok {
        tree := trees[target][file := content];
      } else {
        var written: nat :| written <= |content|;
        tree := trees[target][file := content[..written]];
      }
      Put(target, tree, before, from);
      now := tree;
    }

    /** Copies the files of a tree over the one at the target. */
    method CopyFiles(source: Tree, target: string, ghost before: Trees, ghost tree: Tree, ghost from: nat)
      returns (ok: bool, ghost broken: Option<Tree>)
      requires Valid() && OnlyAt(target, before, trace, from) && Puts(before, target, tree, trees)
      modifies this`trees, this`trace
      ensures Valid() && old(trace) <= trace && OnlyAt(target, before, trace, from) && (ok <==> broken.None?)
      ensures Puts(before, target, if ok then tree + source else broken.value, trees)
    {
      hide OnlyAt, Restricted, Puts;
      var left := source.Keys;
      ghost var at := tree;
      NoFileYet(tree, source);
      while left != {}
        invariant Valid() && old(trace) <= trace && left <= source.Keys
        invariant Puts(before, target, at, trees) && at == tree + Restricted(source, source.Keys - left)
        invariant OnlyAt(target, before, trace, from)
        decreases |left|
      {
        var file :| file in left;
        OneFileMore(tree, source, source.Keys - left, file);
        assert source.Keys - left + {file} == source.Keys - (left - {file});
        left := left - {file};
        ok, at := CopyInto(source[file], target, file, before, at, from);
        if !ok {
          broken := Some(at);
          return;
        }
      }
      EveryFile(source, source.Keys - left);
      ok, broken := true, None;
    }

    /** Copies a tree file by file. */
    method CopyTree(source: Tree, target: string) returns (ok: bool, ghost broken: Option<Tree>)
      requires Valid()
      modifies this
      ensures Valid() && old(trace) <= trace && commands == old(commands) + [Ditto]
      ensures trees == Copied(old(trees), target, source, broken) && (ok <==> broken.None?)
      ensures OnlyAt(target, old(trees), trace, |old(trace)|)
    {
      hide OnlyAt, TreeAt;
      commands := commands + [Ditto];
      NothingYet(target, trees, trace);
      Put(target, TreeAt(trees, target), trees, |trace|);
      ok, broken := CopyFiles(source, target, old(trees), TreeAt(old(trees), target), |old(trace)|);
    }

    method Rename(source: string, target: string) returns (ok: bool, ghost granted: bool)
      requires Valid() && source != target
      modifies this`trees, this`trace
      ensures Valid() && trace == old(trace) + [trees] && ok == Movable(old(trees), source, target, granted)
      ensures trees == if ok then Moved(old(trees), source, target) else old(trees)
    {
      var may: bool := *;
      granted := may;
      ok := may && source in trees && target !in trees;
      if ok {
        trees := trees[target := trees[source]] - {source};
      }
      trace := trace + [trees];
    }
  }

  // ---- The swap as a function of what the system lets happen ----------------------------------------

  datatype Paths = Paths(bundle: string, staging: string, previous: string) {
    ghost predicate Distinct() { bundle != staging && bundle != previous && staging != previous }
  }

  /** The bundle and the two names beside it the swap uses. */
  function PathsOf(parent: string, name: string): (p: Paths)
    ensures p.Distinct()
  {
    var p := Paths(Join(parent, name), Join(parent, "." + name + ".new"), Join(parent, "." + name + ".old"));
    assert |p.staging| == |p.previous| > |p.bundle|;
    assert p.staging[|p.staging| - 1] == 'w' && p.previous[|p.previous| - 1] == 'd';
    p
  }

  /** Which calls succeed, which files resist each of the three deletions, and what a copy cut short leaves. */
  datatype Choices = Choices(
    mounted: bool, attached: bool, staleStays: Option<set<string>>, olderStays: Option<set<string>>, broken: Option<Tree>,
    aside: bool, placed: bool, restored: bool, restStays: Option<set<string>>)

  /** Everything works. */
  const SMOOTH := Choices(true, true, None, None, None, true, true, true, None)

  /** The choices up to the end of the copy. */
  predicate SameStart(c: Choices, c': Choices) {
    c'.mounted == c.mounted && c'.attached == c.attached && c'.staleStays == c.staleStays && c'.olderStays == c.olderStays &&
    c'.broken == c.broken
  }

  /** The new bundle into the free place, or the old one back. */
  function Settled(p: Paths, trees: Trees, c: Choices): (Trees, bool) {
    if Movable(trees, p.staging, p.bundle, c.placed)
    then (Removed(Moved(trees, p.staging, p.bundle), p.previous, c.restStays), true)
    else
      var back := if Movable(trees, p.previous, p.bundle, c.restored) then Moved(trees, p.previous, p.bundle) else trees;
      (Removed(back, p.staging, c.restStays), false)
  }

  /** The old bundle aside, and the new one in its place. */
  function Swapped(p: Paths, trees: Trees, c: Choices): (Trees, bool) {
    if !Movable(trees, p.bundle, p.previous, c.aside) then (Removed(trees, p.staging, c.restStays), false)
    else Settled(p, Moved(trees, p.bundle, p.previous), c)
  }

  /** The trees after the leftovers of earlier attempts have been deleted, as far as they could be. */
  function Cleared(p: Paths, trees: Trees, c: Choices): Trees {
    Removed(Removed(trees, p.staging, c.staleStays), p.previous, c.olderStays)
  }

  function CopiedAndSwapped(p: Paths, trees: Trees, image: Tree, c: Choices): (Trees, bool) {
    var copied := Copied(Cleared(p, trees, c), p.staging, image, c.broken);
    if c.broken.Some? then (Removed(copied, p.staging, c.restStays), false) else Swapped(p, copied, c)
  }

  /** `image` is the bundle of that name inside the disk image, None when the image lacks it. */
  function Outcome(p: Paths, trees: Trees, image: Option<Tree>, c: Choices): (Trees, bool) {
    if c.mounted && c.attached && image.Some? then CopiedAndSwapped(p, trees, image.value, c) else (trees, false)
  }

  /** The image is detached last whenever it was attached. */
  function CommandsOf(image: Option<Tree>, c: Choices): seq<Command> {
    if !c.mounted then []
    else if !c.attached then [Attach]
    else [Attach] + (if image.Some? then [Ditto] else []) + [Detach]
  }

  /** What is in the staging directory when the copy begins, and when it is done. */
  function Leftover(p: Paths, trees: Trees, c: Choices): Tree {
    TreeAt(Removed(trees, p.staging, c.staleStays), p.staging)
  }

  function Staged(p: Paths, trees: Trees, image: Tree, c: Choices): Tree {
    Leftover(p, trees, c) + image
  }

  // ---- What every outcome is ------------------------------------------------------------------------

  ghost predicate InPlace(p: Paths, current: Tree, trees: Trees) {
    p.bundle in trees && trees[p.bundle] == current
  }

  ghost predicate SetAside(p: Paths, current: Tree, trees: Trees) {
    p.bundle !in trees && p.previous in trees && trees[p.previous] == current
  }

  lemma MergeIsSource(left: Tree, source: Tree)
    ensures left + source == source <==> left.Keys <= source.Keys
  {
    if left.Keys <= source.Keys {
      assert (left + source).Keys == source.Keys;
    } else {
      var path :| path in left && path !in source;
      assert path in left + source;
    }
  }

  /** Success means the bundle is the image merged over what resisted deletion in the staging directory, and so the
      release itself if and only if the release has every file that was left there. */
  lemma SuccessInstalls(p: Paths, trees: Trees, image: Option<Tree>, c: Choices)
    requires p.Distinct() && Outcome(p, trees, image, c).1
    ensures image.Some? && InPlace(p, Staged(p, trees, image.value, c), Outcome(p, trees, image, c).0)
    ensures InPlace(p, image.value, Outcome(p, trees, image, c).0) <==> Leftover(p, trees, c).Keys <= image.value.Keys
  {
    MergeIsSource(Leftover(p, trees, c), image.value);
  }

  /** An error means the old bundle is in place, or set aside when the rename of the new one and the rename back were
      both refused. */
  lemma FailureKeeps(p: Paths, trees: Trees, image: Option<Tree>, c: Choices, current: Tree)
    requires p.Distinct() && InPlace(p, current, trees) && !Outcome(p, trees, image, c).1
    ensures InPlace(p, current, Outcome(p, trees, image, c).0) ||
            (SetAside(p, current, Outcome(p, trees, image, c).0) && !c.placed && !c.restored)
  {
  }

  lemma RemovedHere(trees: Trees, path: string, others: set<string>)
    requires path in others
    ensures forall stays :: Removed(trees, path, stays) - others == trees - others
    ensures path !in Removed(trees, path, None)
  {
  }

  lemma CopiedHere(trees: Trees, path: string, image: Tree, broken: Option<Tree>, others: set<string>)
    requires path in others
    ensures Copied(trees, path, image, broken) - others == trees - others
  {
  }

  lemma MovedHere(trees: Trees, source: string, target: string, others: set<string>)
    requires source in trees && source in others && target in others
    ensures Moved(trees, source, target) - others == trees - others
  {
  }

  lemma SwapLeavesTheRest(p: Paths, trees: Trees, c: Choices)
    requires p.Distinct()
    ensures var (after, ok) := Swapped(p, trees, c);
            after - {p.bundle, p.staging, p.previous} == trees - {p.bundle, p.staging, p.previous} &&
            (!ok && c.restStays.None? ==> p.staging !in after) && (ok && c.restStays.None? ==> p.previous !in after)
  {
    hide Removed, Moved;
    var others := {p.bundle, p.staging, p.previous};
    RemovedHere(trees, p.staging, others);
    if Movable(trees, p.bundle, p.previous, c.aside) {
      var aside := Moved(trees, p.bundle, p.previous);
      MovedHere(trees, p.bundle, p.previous, others);
      RemovedHere(aside, p.staging, others);
      if Movable(aside, p.staging, p.bundle, c.placed) {
        MovedHere(aside, p.staging, p.bundle, others);
        RemovedHere(Moved(aside, p.staging, p.bundle), p.previous, others);
      } else if Movable(aside, p.previous, p.bundle, c.restored) {
        MovedHere(aside, p.previous, p.bundle, others);
        RemovedHere(Moved(aside, p.previous, p.bundle), p.staging, others);
      }
    }
  }

  /** Nothing beside the bundle and the two names is touched, and nothing at all before the image is attached and has been
      found to hold the bundle; and a failure leaves nothing in the staging directory that did not resist deletion. */
  lemma LeavesTheRest(p: Paths, trees: Trees, image: Option<Tree>, c: Choices)
    requires p.Distinct()
    ensures var (after, ok) := Outcome(p, trees, image, c);
            after - {p.bundle, p.staging, p.previous} == trees - {p.bundle, p.staging, p.previous} &&
            (!c.mounted || !c.attached || image.None? ==> !ok && after == trees) &&
            (c.mounted && c.attached && image.Some? && !ok && c.restStays.None? ==> p.staging !in after) &&
            (ok && c.restStays.None? ==> p.previous !in after)
  {
    hide Removed, Copied, Swapped;
    if c.mounted && c.attached && image.Some? {
      var others, cleared := {p.bundle, p.staging, p.previous}, Cleared(p, trees, c);
      RemovedHere(trees, p.staging, others);
      RemovedHere(Removed(trees, p.staging, c.staleStays), p.previous, others);
      CopiedHere(cleared, p.staging, image.value, c.broken, others);
      var copied := Copied(cleared, p.staging, image.value, c.broken);
      RemovedHere(copied, p.staging, others);
      SwapLeavesTheRest(p, copied, c);
    }
  }

  /** An image that was attached is detached, once and after everything else; only what is in one is copied. */
  lemma AttachedIsDetached(image: Option<Tree>, c: Choices)
    ensures var commands := CommandsOf(image, c);
            (commands != [] <==> c.mounted) && (c.mounted ==> commands[0] == Attach && Attach !in commands[1..]) &&
            (Detach in commands <==> c.mounted && c.attached) &&
            (Detach in commands ==>
               commands[|commands| - 1] == Detach && Detach !in commands[..|commands| - 1] &&
               (Ditto in commands <==> image.Some?))
  {
  }

  /** When everything works it succeeds, with the release in place and nothing else left of it. */
  lemma SmoothSucceeds(p: Paths, trees: Trees, image: Tree)
    requires p.Distinct() && p.bundle in trees
    ensures Outcome(p, trees, Some(image), SMOOTH) ==
            (trees[p.bundle := image] - {p.staging, p.previous}, true)
  {
    var cleared := Cleared(p, trees, SMOOTH);
    assert TreeAt(cleared, p.staging) + image == image;
    var (after, ok) := Outcome(p, trees, Some(image), SMOOTH);
    assert after == trees[p.bundle := image] - {p.staging, p.previous};
  }

  /** A file left in the staging directory that the release lacks ends up in the installed bundle when it resists
      deletion and everything else works: the swap reports success for something that is not the release. */
  lemma StrayFileIsInstalled(p: Paths, trees: Trees, image: Tree) returns (c: Choices)
    requires p.Distinct() && p.bundle in trees && !(TreeAt(trees, p.staging).Keys <= image.Keys)
    ensures c == SMOOTH.(staleStays := Some(TreeAt(trees, p.staging).Keys))
    ensures Outcome(p, trees, Some(image), c).1 && !InPlace(p, image, Outcome(p, trees, Some(image), c).0)
  {
    var stale := TreeAt(trees, p.staging);
    c := SMOOTH.(staleStays := Some(stale.Keys));
    assert p.staging in trees;
    assert Restricted(stale, stale.Keys) == stale;
    assert Leftover(p, trees, c) == stale;
    SuccessInstalls(p, trees, Some(image), c);
  }

  /** Whether every success is the release can be told beforehand: it is if and only if the staging directory holds no
      file that the release lacks. */
  lemma SuccessIsTheRelease(p: Paths, trees: Trees, image: Tree)
    requires p.Distinct() && p.bundle in trees
    ensures (forall c | Outcome(p, trees, Some(image), c).1 :: InPlace(p, image, Outcome(p, trees, Some(image), c).0)) <==>
            TreeAt(trees, p.staging).Keys <= image.Keys
  {
    if TreeAt(trees, p.staging).Keys <= image.Keys {
      forall c | Outcome(p, trees, Some(image), c).1 ensures InPlace(p, image, Outcome(p, trees, Some(image), c).0) {
        SuccessInstalls(p, trees, Some(image), c);
        assert Leftover(p, trees, c).Keys <= TreeAt(trees, p.staging).Keys;
      }
    } else {
      var c := StrayFileIsInstalled(p, trees, image);
    }
  }

  /** One such run: a helper of an abandoned update stays and is installed with the new release. */
  lemma OneStrayFile(parent: string, name: string)
    ensures var p := PathsOf(parent, name);
            var trees := map[p.bundle := map["Contents/MacOS/app" := [1]], p.staging := map["Contents/helper" := [2]]];
            var image := map["Contents/MacOS/app" := [3]];
            var c := SMOOTH.(staleStays := Some({"Contents/helper"}));
            Outcome(p, trees, Some(image), c).1 &&
            InPlace(p, map["Contents/MacOS/app" := [3], "Contents/helper" := [2]], Outcome(p, trees, Some(image), c).0)
  {
    var p := PathsOf(parent, name);
    var stale := map["Contents/helper" := [2 as byte]];
    var trees := map[p.bundle := map["Contents/MacOS/app" := [1 as byte]], p.staging := stale];
    var image := map["Contents/MacOS/app" := [3 as byte]];
    var c := SMOOTH.(staleStays := Some({"Contents/helper"}));
    assert "Contents/MacOS/app"[9] != "Contents/helper"[9];
    assert Restricted(stale, {"Contents/helper"}) == stale;
    assert Leftover(p, trees, c) == stale;
    assert Outcome(p, trees, Some(image), c).1;
    SuccessInstalls(p, trees, Some(image), c);
    assert stale + image == map["Contents/MacOS/app" := [3], "Contents/helper" := [2]];
  }

  // ---- Every point on the way -----------------------------------------------------------------------

  /** The old bundle is in place or beside it, or what was staged is in place. */
  ghost predicate Recoverable(p: Paths, current: Tree, staged: Tree, trees: Trees) {
    InPlace(p, current, trees) || InPlace(p, staged, trees) || (p.previous in trees && trees[p.previous] == current)
  }

  ghost predicate AllRecoverable(p: Paths, current: Tree, staged: Tree, trace: seq<Trees>, from: nat) {
    forall k | from <= k < |trace| :: Recoverable(p, current, staged, trace[k])
  }

  lemma RecoverableThroughout(p: Paths, current: Tree, staged: Tree, a: seq<Trees>, b: seq<Trees>, from: nat)
    requires AllRecoverable(p, current, staged, a, from) && a <= b && AllRecoverable(p, current, staged, b, |a|)
    ensures AllRecoverable(p, current, staged, b, from)
  {
    assert forall k | 0 <= k < |a| :: b[k] == a[k];
  }

  /** Work on one path leaves the others recoverable. */
  lemma ElsewhereIsKept(before: Trees, path: string, trees: Trees, other: string)
    requires trees - {path} == before - {path} && other != path
    ensures other in trees <==> other in before
    ensures other in trees ==> trees[other] == before[other]
  {
    assert other in trees <==> other in trees - {path};
    assert other in before <==> other in before - {path};
    if other in trees {
      assert (trees - {path})[other] == trees[other];
      assert (before - {path})[other] == before[other];
    }
  }

  lemma BesideIsRecoverable(p: Paths, current: Tree, staged: Tree, before: Trees, path: string, trace: seq<Trees>, from: nat)
    requires p.Distinct() && OnlyAt(path, before, trace, from)
    requires (path != p.bundle && (InPlace(p, current, before) || InPlace(p, staged, before))) ||
             (path != p.previous && p.previous in before && before[p.previous] == current)
    ensures AllRecoverable(p, current, staged, trace, from)
  {
    forall k | from <= k < |trace| ensures Recoverable(p, current, staged, trace[k]) {
      if path != p.bundle {
        ElsewhereIsKept(before, path, trace[k], p.bundle);
      }
      if path != p.previous {
        ElsewhereIsKept(before, path, trace[k], p.previous);
      }
    }
  }

  // ---- The method -------------------------------------------------------------------------------------

  method Settle(volume: Volume, p: Paths, ghost current: Tree, ghost staged: Tree, ghost c: Choices, ghost from: nat)
    returns (ok: bool, ghost c': Choices)
    requires volume.Valid() && p.Distinct() && SetAside(p, current, volume.trees)
    requires p.staging in volume.trees && volume.trees[p.staging] == staged
    requires AllRecoverable(p, current, staged, volume.trace, from)
    modifies volume`trees, volume`trace
    ensures volume.Valid() && old(volume.trace) <= volume.trace && (volume.trees, ok) == Settled(p, old(volume.trees), c')
    ensures SameStart(c, c') && c'.aside == c.aside && AllRecoverable(p, current, staged, volume.trace, from)
  {
    hide AllRecoverable, Removed, OnlyAt;
    ghost var granted, restored, stays, trace := false, false, None, volume.trace;
    ok, granted := volume.Rename(p.staging, p.bundle);
    OneMoreRecoverable(p, current, staged, trace, volume.trees, from);
    if ok {
      stays := LastDeletion(volume, p, current, staged, p.previous, from);
    } else {
      trace := volume.trace;
      var back;
      back, restored := volume.Rename(p.previous, p.bundle);
      OneMoreRecoverable(p, current, staged, trace, volume.trees, from);
      stays := LastDeletion(volume, p, current, staged, p.staging, from);
    }
    c' := c.(placed := granted, restored := restored, restStays := stays);
  }

  method Swap(volume: Volume, p: Paths, ghost current: Tree, ghost c: Choices)
    returns (failure: Option<Error>, ghost c': Choices)
    requires volume.Valid() && p.Distinct() && InPlace(p, current, volume.trees) && p.staging in volume.trees
    modifies volume`trees, volume`trace
    ensures volume.Valid() && old(volume.trace) <= volume.trace
    ensures (volume.trees, failure.None?) == Swapped(p, old(volume.trees), c')
    ensures SameStart(c, c')
    ensures AllRecoverable(p, current, old(volume.trees[p.staging]), volume.trace, |old(volume.trace)|)
  {
    hide AllRecoverable, Removed, OnlyAt, Settled;
    ghost var staged, from := volume.trees[p.staging], |volume.trace|;
    var ok;
    ghost var granted;
    ok, granted := volume.Rename(p.bundle, p.previous);
    RenamedIsRecoverable(p, current, staged, old(volume.trace), volume.trees);
    if !ok {
      ghost var stays := LastDeletion(volume, p, current, staged, p.staging, from);
      c' := c.(aside := granted, restStays := stays);
      return Some(Fault("failed to move the current version aside")), c';
    }
    ok, c' := Settle(volume, p, current, staged, c.(aside := granted), from);
    failure := if ok then None else Some(Fault("failed to move the new version into place"));
  }

  lemma RenamedIsRecoverable(p: Paths, current: Tree, staged: Tree, trace: seq<Trees>, trees: Trees)
    requires Recoverable(p, current, staged, trees)
    ensures AllRecoverable(p, current, staged, trace + [trees], |trace|)
  {
  }

  lemma OneMoreRecoverable(p: Paths, current: Tree, staged: Tree, trace: seq<Trees>, trees: Trees, from: nat)
    requires AllRecoverable(p, current, staged, trace, from) && Recoverable(p, current, staged, trees)
    ensures AllRecoverable(p, current, staged, trace + [trees], from)
  {
  }

  /** A deletion beside what is recoverable. */
  method LastDeletion(volume: Volume, p: Paths, ghost current: Tree, ghost staged: Tree, path: string, ghost from: nat)
    returns (ghost stays: Option<set<string>>)
    requires volume.Valid() && p.Distinct() && AllRecoverable(p, current, staged, volume.trace, from)
    requires (path != p.bundle && (InPlace(p, current, volume.trees) || InPlace(p, staged, volume.trees))) ||
             (path != p.previous && p.previous in volume.trees && volume.trees[p.previous] == current)
    modifies volume`trees, volume`trace
    ensures volume.Valid() && old(volume.trace) <= volume.trace && volume.trees == Removed(old(volume.trees), path, stays)
    ensures AllRecoverable(p, current, staged, volume.trace, from)
  {
    ghost var trace, before := volume.trace, volume.trees;
    stays := volume.RemoveAll(path);
    BesideIsRecoverable(p, current, staged, before, path, volume.trace, |trace|);
    RecoverableThroughout(p, current, staged, trace, volume.trace, from);
  }

  /** Clears what earlier attempts left and copies the new bundle beside the old one. */
  method Stage(volume: Volume, p: Paths, image: Tree, ghost current: Tree, ghost c: Choices)
    returns (copied: bool, ghost c': Choices)
    requires volume.Valid() && p.Distinct() && InPlace(p, current, volume.trees)
    modifies volume
    ensures volume.Valid() && old(volume.trace) <= volume.trace && volume.commands == old(volume.commands) + [Ditto]
    ensures c'.mounted == c.mounted && c'.attached == c.attached && (copied <==> c'.broken.None?)
    ensures volume.trees == Copied(Cleared(p, old(volume.trees), c'), p.staging, image, c'.broken) && p.staging in volume.trees
    ensures InPlace(p, current, volume.trees)
    ensures copied ==> volume.trees[p.staging] == Staged(p, old(volume.trees), image, c')
    ensures AllRecoverable(p, current, Staged(p, old(volume.trees), image, c'), volume.trace, |old(volume.trace)|)
  {
    hide AllRecoverable, OnlyAt;
    ghost var from, trees := |volume.trace|, volume.trees;
    ghost var stays := volume.RemoveAll(p.staging);
    c' := c.(staleStays := stays);
    ghost var staged := Staged(p, trees, image, c');
    BesideIsRecoverable(p, current, staged, trees, p.staging, volume.trace, from);
    stays := LastDeletion(volume, p, current, staged, p.previous, from);
    c' := c'.(olderStays := stays);
    ghost var trace, before := volume.trace, volume.trees;
    ghost var broken;
    copied, broken := volume.CopyTree(image, p.staging);
    c' := c'.(broken := broken);
    BesideIsRecoverable(p, current, staged, before, p.staging, volume.trace, |trace|);
    RecoverableThroughout(p, current, staged, trace, volume.trace, from);
  }

  lemma EarlierChoices(p: Paths, trees: Trees, image: Tree, c: Choices, c': Choices)
    requires SameStart(c, c')
    ensures Staged(p, trees, image, c') == Staged(p, trees, image, c)
    ensures CopiedAndSwapped(p, trees, image, c') ==
            var copied := Copied(Cleared(p, trees, c), p.staging, image, c.broken);
            if c.broken.Some? then (Removed(copied, p.staging, c'.restStays), false) else Swapped(p, copied, c')
  {
    hide Removed, Copied, Swapped;
  }

  method CopyAndSwap(volume: Volume, p: Paths, image: Tree, ghost current: Tree, ghost c: Choices)
    returns (failure: Option<Error>, ghost c': Choices)
    requires volume.Valid() && p.Distinct() && InPlace(p, current, volume.trees)
    modifies volume
    ensures volume.Valid() && old(volume.trace) <= volume.trace && volume.commands == old(volume.commands) + [Ditto]
    ensures c'.mounted == c.mounted && c'.attached == c.attached
    ensures (volume.trees, failure.None?) == CopiedAndSwapped(p, old(volume.trees), image, c')
    ensures AllRecoverable(p, current, Staged(p, old(volume.trees), image, c'), volume.trace, |old(volume.trace)|)
  {
    hide AllRecoverable, Swapped, Copied, Removed, Cleared, Staged, CopiedAndSwapped;
    var copied;
    ghost var c0;
    copied, c0 := Stage(volume, p, image, current, c);
    ghost var trace, staged := volume.trace, Staged(p, old(volume.trees), image, c0);
    if copied {
      failure, c' := Swap(volume, p, current, c0);
      RecoverableThroughout(p, current, staged, trace, volume.trace, |old(volume.trace)|);
    } else {
      ghost var stays := LastDeletion(volume, p, current, staged, p.staging, |old(volume.trace)|);
      failure, c' := Some(Fault("failed to copy the new version out of the disk image")), c0.(restStays := stays);
    }
    EarlierChoices(p, old(volume.trees), image, c0, c');
  }

  /** The outcome is the one the choices of the system lead to, and at every point on the way the old bundle or what
      was staged can be recovered. */
  method ApplyBundle(volume: Volume, parent: string, name: string, image: Option<Tree>)
    returns (failure: Option<Error>, ghost c: Choices)
    requires volume.Valid() && PathsOf(parent, name).bundle in volume.trees
    modifies volume
    ensures volume.Valid() && old(volume.trace) <= volume.trace
    ensures (volume.trees, failure.None?) == Outcome(PathsOf(parent, name), old(volume.trees), image, c)
    ensures volume.commands == old(volume.commands) + CommandsOf(image, c)
    ensures image.Some? ==>
              var p := PathsOf(parent, name);
              AllRecoverable(p, old(volume.trees[p.bundle]), Staged(p, old(volume.trees), image.value, c), volume.trace,
                             |old(volume.trace)|)
  {
    hide AllRecoverable, CopiedAndSwapped, Staged, PathsOf;
    c := SMOOTH.(mounted := false);
    NothingHappened(PathsOf(parent, name), volume.trees, image, c, volume.trace);
    var made := volume.MakeMountPoint();
    if !made {
      return Some(Fault("no mount point")), c;
    }
    c := SMOOTH.(attached := false);
    NothingHappened(PathsOf(parent, name), volume.trees, image, c, volume.trace);
    var attached := volume.Run(Attach);
    if !attached {
      return Some(Fault("failed to open the downloaded disk image")), c;
    }
    c := SMOOTH;
    if image.None? {
      failure := Some(Fault("the downloaded disk image does not contain " + name));
    } else {
      var p := PathsOf(parent, name);
      failure, c := CopyAndSwap(volume, p, image.value, volume.trees[p.bundle], c);
    }
    var _ := volume.Run(Detach);
  }

  lemma NothingHappened(p: Paths, trees: Trees, image: Option<Tree>, c: Choices, trace: seq<Trees>)
    requires p.bundle in trees
    ensures image.Some? ==> AllRecoverable(p, trees[p.bundle], Staged(p, trees, image.value, c), trace, |trace|)
  {
  }

  // ---- The AppImage --------------------------------------------------------------------------------

  /** At every point the image path holds one whole image, the old or the new. */
  ghost predicate AlwaysWhole(path: string, before: Bytes, after: Bytes, trace: seq<Files>, from: nat) {
    forall k | from <= k < |trace| :: path in trace[k] && (trace[k][path] == before || trace[k][path] == after)
  }

  method CopyFile(disk: FileSystem, source: string, target: string, ghost kept: string) returns (ok: bool)
    requires disk.Valid() && source != target && kept != target && kept in disk.files
    modifies disk
    ensures disk.Valid() && old(disk.trace) <= disk.trace && disk.faults >= old(disk.faults)
    ensures forall path | path != target :: (path in disk.files <==> path in old(disk.files)) &&
                                            (path in disk.files ==> disk.files[path] == old(disk.files[path]))
    ensures AlwaysWhole(kept, old(disk.files[kept]), old(disk.files[kept]), disk.trace, |old(disk.trace)|)
    ensures ok ==> source in old(disk.files) && target in disk.files && disk.files[target] == old(disk.files[source]) &&
                   target in disk.executable
    ensures !ok ==> source !in old(disk.files) || disk.faults > old(disk.faults)
  {
    if source !in disk.files {
      return false;
    }
    ok := disk.Create(target);
    if !ok {
      return;
    }
    var copied: nat := 0;
    while true
      invariant disk.Valid() && old(disk.trace) <= disk.trace && disk.faults == old(disk.faults)
      invariant target in disk.files && disk.files == old(disk.files)[target := disk.files[target]]
      invariant copied <= |disk.files[source]| && disk.files[target] == disk.files[source][..copied]
      invariant AlwaysWhole(kept, old(disk.files[kept]), old(disk.files[kept]), disk.trace, |old(disk.trace)|)
      decreases |disk.files[source]| - copied
    {
      var data;
      ok, data := disk.Read(source, copied);
      if !ok {
        return;
      }
      if data == [] {
        break;
      }
      ok := disk.Append(target, data);
      if !ok {
        return;
      }
      copied := copied + |data|;
    }
    ok := disk.Close();
    if !ok {
      return;
    }
    ok := disk.SetExecutable(target);
  }

  function Staging(current: string): (staging: string)
    ensures staging != current
  {
    assert |current + ".new"| != |current|;
    current + ".new"
  }

  method ApplyAppImage(disk: FileSystem, current: string, downloaded: string) returns (failure: Option<Error>)
    requires disk.Valid() && current in disk.files && downloaded != current && downloaded != Staging(current)
    modifies disk
    ensures disk.Valid() && old(disk.trace) <= disk.trace && disk.faults >= old(disk.faults)
    ensures downloaded in old(disk.files) ==>
              AlwaysWhole(current, old(disk.files[current]), old(disk.files[downloaded]), disk.trace, |old(disk.trace)|)
    ensures failure.None? ==>
              downloaded in old(disk.files) && current in disk.files &&
              disk.files[current] == old(disk.files[downloaded]) && Staging(current) !in disk.files &&
              current in disk.executable
    ensures failure.Some? ==>
              current in disk.files && disk.files[current] == old(disk.files[current]) &&
              (downloaded !in old(disk.files) || disk.faults > old(disk.faults))
    ensures forall path | path != current && path != Staging(current) :: path in disk.files <==> path in old(disk.files)
  {
    var copied := CopyFile(disk, downloaded, Staging(current), current);
    if !copied {
      disk.Remove(Staging(current));
      return Some(Fault("failed to stage the new AppImage"));
    }
    var moved := disk.Rename(Staging(current), current);
    if !moved {
      disk.Remove(Staging(current));
      return Some(Fault("failed to move the new AppImage into place"));
    }
    failure := None;
  }
}
