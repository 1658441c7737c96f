# MQ Studio: a verified model of its update engine, connection registry, Markdown renderer and profile storage

The project models, in Dafny, the code of MQ Studio in which state, loops and failure points matter most, and proves what
that code promises for every input, every interleaving and every crash point. `dafny verify dfyconfig.toml` checks it.

## What is modelled

**The self-update engine** (`internal/update`).
- `SemVer`: the version pattern as a scanner, parsing with its 64-bit limit, and precedence.
- `Mirrors`, `Manifests`, `Race`: mirror lists and their merging, the checks on a release index, and the staggered race as
  a system of senders, a bounded channel and a collector, in every interleaving.
- `Disk`, `Download`, `Fetch`: a file system whose every operation can fail and which records every state it went
  through; the copy loop, the download that verifies before it renames, and the fall-through over mirrors. What holds
  "wherever a run is stopped" is stated about every recorded state.
- `Apply`, `ShellQuote`: the bundle swap with its rollback over trees of files, as a method and as a function of what the
  system lets happen; the AppImage rename; the quoting of the relaunch command against a lexer for the POSIX shell.
- `Lifecycle`: each section under the manager's lock is one function on the manager's fields; `Event` interleaves the
  sections of any number of concurrent calls with single disk operations of a fetch, torn writes of the record, crashes and
  restarts of any version. `LifecycleSafety` has the invariant, `LifecycleTheorems` and `ReadyFile` what follows from it;
  `VanishingFile` builds the run that `ReadyFile` excludes.
- `SkipList`: what starts a download nobody asked for, over whole runs.
- `Manager`: the manager as a class, whose methods change its fields step by step; each section is proved to be the function
  of `Lifecycle` of the same name, and the whole calls - check, download and install, with the race, the fetch and the disk -
  to be runs of the lifecycle, which `Calls` puts together, and to end as `Outcomes` says. `Mailbox`: the one-slot mailbox between publishers and the emitter.

**The connection registry** (`internal/driver/registry.go`, `internal/app/runtime.go`). `Registry` and `Runtime` are
the two classes; `RegistryRuns` interleaves runtime calls at every lock section, with dialling and closing outside the lock.

**The Markdown block parser** (`frontend/src/components/markdown.tsx`). `MarkdownLines` and `TableRows` read single lines,
`Markdown` has the parser as loops over an index and as a function, `MarkdownTheorems` what holds of every parse,
`MarkdownRoundTrip` and `MarkdownDocument` print blocks and prove that parsing undoes it, and `MarkdownWrapping` has what
wrapped lines are read as.

**Capability conformance and profile storage** (`internal/model`, `internal/driver/conformance.go`,
`internal/bridge/connection.go`). `Capability`, `Conformance` and `Profile` hold maps by reference (`StringMaps`), so that
sharing and copying are visible.

## Where the code does less than it seems to

- A package shown as ready can be gone. `Install` does not take `busy`: while its package is being applied, the same release
  can be downloaded again to the same path, and the install then deletes that path and lets the download record it.
  `VanishingFile.LaunchCanLoseItsPackage` gives the run from a first launch on, `ReadyFile.PresentUnlessDiscarded` shows
  that nothing else can do it, and `ReadyFile.ReadyFileExistsUnlessOverlapping` that it cannot happen when no download is
  let in while an install is applying. The next launch repairs it (`LifecycleTheorems.RestartDecides`).
- A bundle swap can report success for a bundle that is not the release: what resists deletion in the staging directory of an
  earlier attempt is merged with the copy. Success is always the release exactly when that directory held no file that the
  release lacks (`Apply.SuccessIsTheRelease`); `Apply.OneStrayFile` is a run in which it is not.
- The branch of `Check` that keeps the phase Ready (manager.go:460) is never taken, because the check itself has overwritten
  the phase (manager.go:415): `ReadyFile.CheckNeverSeesReady`. A release already downloaded is announced as available again.
- A record write cut short loses the whole record, the skip list and learned mirrors included
  (`LifecycleSafety.RecordReadsBack`).
- The last cell of a table row may leave inline code open and still reads back, an earlier one may not
  (`TableRows.RowReadsBack`). Pipes inside inline code stay in their cell, which differs from section 4.10 of the GitHub
  Flavored Markdown Spec.
- A heading loses number signs at its end even without a space before them: `# C#` reads as `C`
  (`MarkdownDocument.CSharpReadsAsC`, `MarkdownDocument.HeadingLine`). Section 4.2 of the GitHub Flavored Markdown Spec wants a
  space there.

## Model

| member | source | states |
|---|---|---|
| `SemVer.ParseStableVersion` | internal/update/update.go:62-79 | the loop over the three captured numbers computes the parse the lemmas below describe, failing on the first number of 2^64 or more |
| `SemVer.MatchIff` | internal/update/update.go:56-66 | the scanner accepts exactly the release pattern (optional `v`, three numbers without leading zeros, optional build metadata) and captures exactly its three groups |
| `SemVer.ParsesIff` | internal/update/update.go:62-79 | a text parses if and only if, trimmed, it has the form and each number is below 2^64 |
| `SemVer.NormalizedText` | internal/update/update.go:62-79 | the normalised text is the input, digit for digit, without surrounding space, `v` and build metadata |
| `SemVer.NormalizedReparses` | internal/update/update.go:62-79 | the normalised text parses to the very same version |
| `SemVer.NormalizedIsInjective` | internal/update/update.go:62-79 | two normalised texts are equal exactly when the three numbers are |
| `SemVer.CompareStable` | internal/update/update.go:82-100 | the loop with its early returns is the comparison the lemmas below describe; an error for either unparsable side |
| `SemVer.PrecedenceIsLexicographic` | internal/update/update.go:82-100 | comparison is antisymmetric, is 0 exactly for equal normalised texts, and is lexicographic on the numbers (section 11 of Semantic Versioning 2.0.0; build metadata is ignored, section 10) |
| `SemVer.PrecedenceIsTransitive` | internal/update/update.go:82-100 | comparison is transitive, so with the row above a total preorder |
| `SemVer.NormalizingKeepsPrecedence` | internal/update/update.go:120-161 | comparing normalised texts, as CheckLatest does, decides like comparing the inputs |
| `Manifests.CheckReportsNewer` | internal/update/update.go:102-161 | a release is reported as available exactly when its version is strictly newer than the build, and the version shown is the normalised text of the one in the index |
| `Manifests.CheckCarriesAnswer` | internal/update/update.go:147-161 | a successful check passes on the index that was read, the mirror it came from and the order of the race, and its notes, date and address without the space around them |
| `Manifests.ParseManifest` | internal/update/mirror.go:143-171 | a decoded index is accepted exactly when its schema is supported, its version stable, and every file has a path and a checksum of the right length; too-new schemas are told apart from other refusals |
| `Mirrors.MergeMirrors` | internal/update/mirror.go:302-318 | the two loops over a set of seen names compute the merge described below |
| `Mirrors.MergeIsFirstWins` | internal/update/mirror.go:302-318 | merging is keeping, of the concatenation, each valid entry whose name no earlier valid entry has |
| `Mirrors.MergeIsAssociative` | internal/update/mirror.go:302-318 | merging three lists does not depend on the grouping |
| `Mirrors.MergeIsIdempotent` | internal/update/mirror.go:302-318 | merging a list in again changes nothing |
| `Mirrors.PlanKeepsCompiledIn` | internal/update/manager.go:338-394 | whatever was stored and whatever any history of manifests said, the planned mirrors start with the compiled-in ones unchanged, have distinct names, are all valid, and list new names in the order they were learned |
| `Mirrors.AddressesJoin` | internal/update/mirror.go:88-91 | base and path are joined by exactly one slash, whichever of them brings one |
| `Mirrors.AddressesAreSecure` | internal/update/mirror.go:88-102 | every address made for a valid mirror begins with https:// |
| `Mirrors.FindMirror` | internal/update/mirror.go:321-328 | finds the first mirror of a name, and finds one exactly when there is one |
| `Mirrors.Plan` | internal/update/manager.go:338-356 | one mirror is tried first exactly when a preferred one is recorded, still known and measured within the time limit |
| `Mirrors.OrderFrom` | internal/update/mirror.go:285-294 | the loop computes the order described below |
| `Mirrors.OrderMovesWinnerFirst` | internal/update/mirror.go:285-294 | with distinct names the order is a permutation of the mirrors: the winner, then the rest as configured |
| `Race.NobodyBlocks` | internal/update/mirror.go:193-255 | in every interleaving of senders and collector, a sender always finds room in the channel and the collector never waits for a message that cannot come |
| `Race.RaceTerminates` | internal/update/mirror.go:193-255 | every step of a race uses up a finite budget |
| `Race.FinishedIsComplete` | internal/update/mirror.go:193-255 | a collector that has stopped holds every answer once, or a deciding one |
| `Race.RaceManifest` | internal/update/mirror.go:193-255 | for every arrival order: the result is the first arrival that succeeded or met a too-new schema, otherwise a failure with one reason per arrival, and a fault when no mirror is usable |
| `Race.RaceDecides` | internal/update/mirror.go:229-254 | the first index to arrive wins, with the order of the row below, unless an answer from a later schema came before it; then that ends the race; nothing else decides it |
| `Race.EveryMirrorNamedOnce` | internal/update/mirror.go:263-281 | that failure names every usable mirror exactly once |
| `Target.BundleRoot` | internal/update/target.go:97-108 | the loop upwards computes the walk described below |
| `Target.BundleIsInnermost` | internal/update/target.go:97-108 | the walk ends at the innermost directory named `.app` (in any case) above the executable, and at none exactly when there is none |
| `Target.LocateIsLocated` | internal/update/target.go:112-167 | a build can install exactly when its architecture is supported and it runs from a bundle whose parent directory can be written, is an installed Windows executable, or is a writable AppImage; a bundle located is the innermost `.app` the executable lies in; an installable build has a root to replace and a shipped format |
| `Target.PackagePathIsNeither` | internal/update/target.go:66-68 | no package path is a part file or the record of the updater |
| `Target.PackageNamesItsVersion` | internal/update/target.go:66-68 | two versions share a package path exactly when they are the same text, a leading `v` aside |
| `Download.CopyWithProgress` | internal/update/download.go:116-153 | for every sequence of reads up to 64 KiB: without a fault of the disk it fails with an error exactly when at the first turn it does not go on from the context has ended, or the read is broken, with that error, and succeeds exactly when that turn meets the end of the body; on success the part file and the digest got the data up to there; the reports are those of the two rows below |
| `Download.AnswersDecide` | internal/update/download.go:62-111 | an answer serves the package exactly when its body ends, by the same rule, and has the wanted digest; it is turned down with an error exactly when it breaks with that error, or for its checksum when it ends otherwise |
| `Download.GenuineIgnoresCase` | internal/update/download.go:103-106 | digests are compared without regard to the case of hexadecimal letters |
| `Download.Account` | internal/update/download.go:127-151 | one turn keeps the pacing: an interval is reported once at least 200 KiB have come in, less than one buffer late |
| `Download.ReportsArePaced` | internal/update/download.go:116-153 | `r` interval reports mean `r*204800 <= done <= r*270335 + 204799`, and all reports, the closing one included, are non-decreasing |
| `Download.Download` | internal/update/download.go:62-111 | whatever the server answers and wherever an operation fails: success means the destination holds the delivered bytes, their digest is the wanted one and no part file is left; a failure is the one the answer causes, or a fault of the disk; without a published checksum nothing is touched |
| `Download.SafeAtEveryPoint` | internal/update/download.go:62-111 | at every point of a run of Download or fetch, also one cut short: the destination holds what it held, nothing, or bytes with the wanted digest; other files are at most swept, and the record stays |
| `Fetch.Sweep` | internal/update/manager.go:613-624 | everything is removed except the package wanted and the record |
| `Fetch.FetchPackage` | internal/update/manager.go:558-608 | succeeds exactly when some mirror before the first cancellation serves the package (the disk permitting), asking the mirrors in the order of the release and no other, cancelled exactly when one is cancelled before any serves; without a fault of the disk nothing but the package and the record is left in the directory; success leaves a verified file and no part file; a failure that is no cancellation names every mirror once, in order |
| `ShellQuote.QuotedIsOneWord` | internal/update/apply.go:214-216 | a POSIX lexer (sections 2.2.1, 2.2.2 and 2.3 of the Shell Command Language, POSIX.1-2017) reads a quoted value as exactly one word equal to it, wherever a word may begin |
| `ShellQuote.QuoteAlone` | internal/update/apply.go:214-216 | for every value the quoted text on its own is that one word |
| `ShellQuote.RelaunchRunsRoot` | internal/update/apply.go:195-216 | the relaunch command line ends in the program and, as one word, the root |
| `Apply.SuccessInstalls` | internal/update/apply.go:103-149 | success means the bundle holds the release merged over what was left in the staging directory; it is the release itself if and only if the release has every file that was left there |
| `Apply.SuccessIsTheRelease` | internal/update/apply.go:126-148 | every success installs exactly the release if and only if the staging directory held, before the call, no file that the release lacks |
| `Apply.StrayFileIsInstalled` | internal/update/apply.go:126-148 | whenever it does hold one, there is a run that succeeds with something else in place: the stray files resist deletion and everything else works |
| `Apply.OneStrayFile` | internal/update/apply.go:126-148 | one such run: a helper left of an abandoned update is installed together with the new release |
| `Apply.FailureKeeps` | internal/update/apply.go:103-149 | an error means the old bundle is in place, or set aside when the rename of the new one and the rename back were both refused |
| `Apply.SmoothSucceeds` | internal/update/apply.go:103-149 | when every call works it succeeds, with the release in place, both side names free and everything else as it was |
| `Apply.LeavesTheRest` | internal/update/apply.go:103-149 | nothing but the bundle and the two names beside it is touched, and nothing at all before the image has been found to hold the bundle; after a failure the staging directory holds only what resisted deletion, after a success so does the old bundle set aside |
| `Apply.AttachedIsDetached` | internal/update/apply.go:103-113 | an image that was attached is detached, once and last; it is copied from exactly when it holds the bundle |
| `Apply.Swap` | internal/update/apply.go:137-148 | the two renames with the way back are the outcome the rows above describe, and the old bundle or what was staged is whole at every step |
| `Apply.ApplyBundle` | internal/update/apply.go:103-149 | whatever the system refuses, the run is the outcome the rows above describe; the image is detached last whenever it was attached; and in every run, at every step, the old bundle or what was staged is in place, or the old bundle is whole beside it |
| `Apply.CopyFile` | internal/update/apply.go:218-238 | the copy is complete and executable, or reported as failed; nothing but its target changes |
| `Apply.ApplyAppImage` | internal/update/apply.go:154-165 | the image path holds a complete old or new image at every step; success is the new one, executable, and no leftover, failure the old one |
| `LifecycleSafety.StepKeepsInv` | internal/update/manager.go:278-770 | one section, disk operation, crash or restart keeps the invariant behind the rows below |
| `LifecycleSafety.RunKeepsInv` | internal/update/manager.go:278-770 | so does every interleaving of Check, Download, Install, InstallOnQuit, Skip, Cancel and restarts |
| `LifecycleSafety.RecordReadsBack` | internal/update/manager.go:747-770 | however far a write of the record got, what is read back is the old record, the new one or none |
| `LifecycleSafety.OnlyItsFetchTouchesThePart` | internal/update/manager.go:402-770 | while a fetch is under way no step of any other call - no check, skip, install, end of a download or record write - touches its part file |
| `LifecycleSafety.FetchWritesKeepsSound` | internal/update/manager.go:558-608 | so what a fetch renames is what it wrote and digested, and a fetch puts nothing under a package name that no manifest vouched for, whatever runs beside it |
| `LifecycleTheorems.TraceIsRun` | internal/update/manager.go:558-608 | the states of the disk a fetch goes through, as Fetch.FetchPackage proves them, are a run of the lifecycle from the state it starts in |
| `LifecycleTheorems.FetchedMayEnd` | internal/update/manager.go:558-608 | and what Fetch.FetchPackage returns is a result the thread may end with there |
| `LifecycleTheorems.ShowingCommutes` | internal/update/manager.go:580-595 | showing how far a fetch is and the disk operations of the fetch lead to the same state in either order |
| `LifecycleTheorems.OnlyNewerIsReadyOrApplied` | internal/update/manager.go:402-694 | in every reachable state Ready has a recorded package, of the version on display, strictly newer than the build; every package ever opened for installing was newer than the build that ran, and its bytes had a digest a manifest gave for that path; every published Ready state is of a newer version |
| `LifecycleTheorems.InstallsStartExactly` | internal/update/manager.go:639-675 | in every reachable state an install starts exactly when a package is shown as ready, one on quitting only under the automatic policy, and it is the recorded package of the release on display that it opens |
| `LifecycleTheorems.OneOwner` | internal/update/manager.go:403-527 | at most one Check or Download is between taking and releasing `busy`, `busy` is set exactly then, and a cancel function exists exactly while a download owns it and is that download's own |
| `LifecycleTheorems.StaleCancelIsHarmless` | internal/update/manager.go:627-634 | a cancel function read before its download ended never cancels a later one, in any continuation |
| `LifecycleTheorems.DownloadStartsUncancelled` | internal/update/manager.go:498-519 | a download starts in a context that is not cancelled and that no pending Cancel holds |
| `LifecycleTheorems.RestartDecides` | internal/update/manager.go:209-298 | after any run and any restart, Ready holds exactly when the record read back names an existing file of a newer version, and then that file has a digest a manifest gave for that path; otherwise the manager is idle with the package dropped from the record |
| `LifecycleTheorems.RestartStartsAfresh` | internal/update/manager.go:209-298 | after any run and any restart: a new process with no call in progress, showing the skip list and check time of the record; a package not taken up is deleted and dropped from the record, the disk permitting; no other file changes |
| `LifecycleTheorems.RestoringTwiceIsRestoringOnce` | internal/update/manager.go:278-298 | launching again from what a launch left changes nothing, except that a record write cut short loses the rest of the record |
| `ReadyFile.PresentUnlessDiscarded` | internal/update/manager.go:639-694 | with the ready package and every package put in place but not yet recorded on disk, one step keeps them there if and only if it is not the end of an install deleting the very path that a download has just put in place |
| `ReadyFile.ReadyFileExists` | internal/update/manager.go:278-694 | so Ready implies the file exists, in every run without such a step |
| `ReadyFile.ReadyFileExistsUnlessOverlapping` | internal/update/manager.go:498-694 | and in every run in which no download is let in while an install is applying its package, which a caller can see to |
| `VanishingFile.ReadyIsReached` | internal/update/manager.go:278-547 | from a first launch of an installable build, for every newer version, there is a run to a quiet Ready state, answered by a compiled-in mirror with a checksum of 64 hexadecimal digits |
| `VanishingFile.ReadyFileCanVanish` | internal/update/manager.go:483-694 | from every quiet Ready state there is a run to a Ready state whose file is gone: an install, and a second download of the same release let in while it applies |
| `VanishingFile.LaunchCanLoseItsPackage` | internal/update/manager.go:209-694 | so such a state is reached from a first launch |
| `ReadyFile.CheckNeverSeesReady` | internal/update/manager.go:415-474 | no check that folds in its answer finds the phase Ready, so the branch that would keep it is never taken |
| `SkipList.UnaskedExactly` | internal/update/manager.go:422-478 | in every reachable state the end of a check starts a download exactly when it found a newer release, the policy downloads, the build can install, and the record after it does not skip the release; only a manual check takes what it found off the skip list |
| `SkipList.SkippedIsLeftAlone` | internal/update/manager.go:402-704 | from any state on, while nobody asks for a release, changes the skip list or restarts the process: a skipped version stays skipped, no download of it is requested, and unless a call has it in hand already it is neither downloaded nor installed |
| `Manager.Manager.constructor` | internal/update/manager.go:209-275 | a new manager is what Restore says for the record on disk |
| `Manager.Manager.WriteRecord` | internal/update/manager.go:761-770 | the record on disk is afterwards untouched, cut short or complete |
| `Manager.Manager.RestoreReady` | internal/update/manager.go:278-298 | the section has the effect on fields and disk that RestartDecides describes |
| `Manager.Manager.Publish` | internal/update/manager.go:317-327 | the newest state is pending and the emitter is signalled |
| `Manager.Manager.PumpOnce` | internal/update/manager.go:262-275 | one turn emits the newest published state |
| `Manager.Manager.BeginCheck` | internal/update/manager.go:403-418 | the first section of a check is the step of the lifecycle: refused for development builds and when busy |
| `Manager.Manager.RememberMirror` | internal/update/manager.go:383-394 | the second section is the step: preference refreshed, learned mirrors merged, record written |
| `Manager.Manager.Announce` | internal/update/manager.go:444-478 | the announcing half of the last section is the step, including when the download starts unasked |
| `Manager.Manager.FinishCheck` | internal/update/manager.go:422-479 | the last section of a check is the step, including the skip list and the record |
| `Manager.Manager.RunCheck` | internal/update/manager.go:363-379 | a check succeeds exactly when the preferred mirror on its own or the race over all has a winner; the release is that of the index that won, to be downloaded from the preferred mirror alone, or from the winner first and then the others as configured; what it remembers is what the lifecycle does |
| `Manager.Manager.Check` | internal/update/manager.go:402-479 | a whole check: refused for development builds and when busy, else its failure, nothing, or the release it found is on display and on record; a download starts unasked exactly for a newer release off the skip list under a policy that downloads; and, with nothing in between, it is a run of the lifecycle |
| `Calls.CheckRuns` | internal/update/manager.go:402-479 | that run, from any state: the three sections of a check, one after another |
| `Manager.Manager.BeginDownload` | internal/update/manager.go:498-519 | taking `busy` and the cancel function is the step: refused when busy or not installable |
| `Manager.Manager.TryMirror` | internal/update/manager.go:589-595 | showing the mirror being tried is the step |
| `Manager.Manager.Progress` | internal/update/manager.go:580-585 | a progress report is the step |
| `Manager.Manager.Fetch` | internal/update/manager.go:558-608 | the fetch shows the mirrors and counters it goes through; a listed package ends under its own name with the right digest exactly when some mirror serves it |
| `Manager.Manager.FinishDownload` | internal/update/manager.go:529-547 | recording the outcome is the step: cancelled, failed or ready |
| `Manager.Manager.ReleaseBusy` | internal/update/manager.go:521-527 | giving `busy` back is the step |
| `Manager.Manager.DownloadRelease` | internal/update/manager.go:498-548 | a whole download of a release: turned away when busy or when the build cannot install; else Ready with its genuine package, on offer again with nothing reported, only after a cancellation, or failed with a reason for every mirror; without a fault of the disk the answers decide which: a mirror serves before any is cancelled, one is cancelled before any serves, or neither; and it is a run of the lifecycle |
| `Calls.DownloadRuns` | internal/update/manager.go:498-548 | that run, from any state: busy taken, every disk operation of the fetch, the outcome recorded, busy given back |
| `Manager.Manager.Resolve` | internal/update/manager.go:484-497 | a download that names no release takes the newer one a check finds; a failed check is a failed download, nothing newer leaves the display alone; and it is a run of the lifecycle |
| `Manager.Manager.Download` | internal/update/manager.go:483-548 | the whole call: what the two rows above say, and a run of the lifecycle |
| `Manager.Manager.BeginInstall` | internal/update/manager.go:639-648 | starting an install is the step: only from Ready with a package |
| `Manager.Manager.FailInstall` | internal/update/manager.go:650-656 | a failed install is the step: back to Ready, then the error |
| `Manager.Manager.BeginInstallOnQuit` | internal/update/manager.go:667-675 | installing on quit is the step: only with the automatic policy and a ready package |
| `Manager.Manager.Install` | internal/update/manager.go:639-665 | a whole install: refused without a package that is ready; a failure of Apply leaves record and disk alone and is reported; success leaves no trace of the package in state and record, nor on a disk without faults; and it is a run of the lifecycle that opened exactly that package |
| `Manager.Manager.InstallOnQuit` | internal/update/manager.go:667-686 | the same on quitting, only under the automatic policy; a failure changes nothing |
| `Calls.InstallRuns` | internal/update/manager.go:639-694 | that run, from any state: the package opened, the install ended |
| `Manager.Manager.ForgetReady` | internal/update/manager.go:688-694 | dropping the package from state, record and disk is the step, unpublished |
| `Manager.Manager.Skip` | internal/update/manager.go:697-704 | skipping a version is the step, recorded and published |
| `Mailbox.DeliversInOrderAndLosesNoWakeup` | internal/update/manager.go:261-327 | for every interleaving of publishers and pump, what is emitted was published, in that order; and when the pump waits on an empty channel the last emitted state is the last published one |
| `Mailbox.NobodyWaitsForGood` | internal/update/manager.go:261-327 | a publisher never waits, and the pump can always go on when something is due |
| `Registry.Registry.Open` | internal/driver/registry.go:123-143 | the connection dialled is stored, the one it replaces is closed; a failed dial changes nothing |
| `Registry.Registry.SetActive` | internal/driver/registry.go:173-181 | only an open connection becomes active |
| `Registry.Registry.ActiveID` | internal/driver/registry.go:162-169 | the active ID if open, else 0 |
| `Registry.Registry.IDs` | internal/driver/registry.go:184-193 | exactly the open IDs, ascending, whatever order the map is read in |
| `Registry.Registry.Close` | internal/driver/registry.go:196-208 | the connection is removed, deactivated and closed; an unknown ID is a no-op |
| `Registry.Registry.CloseAll` | internal/driver/registry.go:211-224 | nothing stays open or active, and every stored connection is closed exactly once, in some order |
| `RegistryRuns.OnePlaceEach` | internal/driver/registry.go:123-224 | in every interleaving of calls each dialled connection is in exactly one place - held by one call, stored under one ID, or closed - and none is closed twice |
| `RegistryRuns.NothingLeaks` | internal/driver/registry.go:123-224 | once no call is in progress each dialled connection is either open or closed |
| `RegistryRuns.ActiveWhileOpen` | internal/app/runtime.go:60-89 | in every interleaving the active ID is 0 or an open one; whenever no call is in progress, some connection is active exactly when some connection is open |
| `RegistryRuns.NobodyWaits` | internal/app/runtime.go:60-114 | every call in progress can take its next section at any moment |
| `RegistryRuns.TestLeavesRegistry` | internal/app/runtime.go:96-110 | in every interleaving a section of a test leaves the registry and every other call as they were; what it dialled is stored under no ID and known to no other call, and its last section closes exactly that |
| `RegistryRuns.ConnectAlone` | internal/app/runtime.go:60-69 | a connect that nothing interrupts, from any state: the new connection is stored and active, what was under its ID is closed |
| `RegistryRuns.FailedConnectAlone` | internal/app/runtime.go:60-69 | a dial that fails leaves everything as it was |
| `RegistryRuns.RemoveAlone` | internal/app/runtime.go:76-89 | a removal that nothing interrupts: the connection is closed, and if it was the active one the smallest ID left is |
| `RegistryRuns.CloseAllAlone` | internal/driver/registry.go:211-224 | closing all, uninterrupted: nothing open or active, and every connection closed once |
| `Runtime.Runtime.Connect` | internal/app/runtime.go:60-69 | the profile opened becomes the active one, what it replaces is closed |
| `Runtime.Runtime.Remove` | internal/app/runtime.go:76-89 | removing the active connection hands over to the smallest open ID, removing another changes nothing else, and something is active exactly when something is open |
| `MarkdownLines.HeadingIff` | frontend/src/components/markdown.tsx:46 | a line is a heading exactly when the pattern can match it, and the text taken is one the pattern allows, and the shortest |
| `MarkdownLines.ItemIff` | frontend/src/components/markdown.tsx:49 | a line is a list item exactly when it is indentation, a marker, a gap and a text, and text and depth are those |
| `MarkdownLines.QuoteIff` | frontend/src/components/markdown.tsx:47 | a line is quoted exactly when it is at most three spaces, the mark and a text, one space in front of it aside |
| `MarkdownLines.RuleIff` | frontend/src/components/markdown.tsx:45 | a line is a rule exactly when it is three or more of one mark between space |
| `MarkdownLines.FenceIff` | frontend/src/components/markdown.tsx:44 | a line is a fence exactly when three backticks or tildes come first on it |
| `MarkdownLines.KindsExclude` | frontend/src/components/markdown.tsx:44-49 | no line is of two of these kinds |
| `MarkdownLines.JoiningTwo` | frontend/src/components/markdown.tsx:113-122 | two lines are joined by nothing where two ideographs meet, emphasis markers at the join looked past, and by a space anywhere else |
| `MarkdownLines.LinesAreWoven` | frontend/src/components/markdown.tsx:113-124 | any number of lines are joined by the seam of each two neighbours, whatever stands before them |
| `MarkdownLines.JoiningKeepsText` | frontend/src/components/markdown.tsx:113-124 | joining wrapped lines loses and reorders no character but spaces |
| `TableRows.SplitCells` | frontend/src/components/markdown.tsx:56-80 | the loop over characters is the cell lexer of the rows below |
| `TableRows.RowReadsBack` | frontend/src/components/markdown.tsx:56-80 | a printed row reads back as its cells if and only if they are trimmed and none but the last leaves inline code open; pipes and backslashes are no obstacle |
| `TableRows.EndsAreOptional` | frontend/src/components/markdown.tsx:56-60 | the pipes at the two ends of a row, and the space around it, make no difference to its cells |
| `TableRows.CellsAreTrimmed` | frontend/src/components/markdown.tsx:56-80 | every cell read is trimmed |
| `TableRows.DelimiterReadsBack` | frontend/src/components/markdown.tsx:83-96 | a printed delimiter row gives back its alignments |
| `Markdown.ParseBlocks` | frontend/src/components/markdown.tsx:132-252 | the loop with its nested loops and index rewinds ends on every source and returns the blocks of the rows below |
| `Markdown.ReadCode` | frontend/src/components/markdown.tsx:148-158 | the inner loop over a fence takes the lines up to the closing fence or the end |
| `Markdown.ReadQuote` | frontend/src/components/markdown.tsx:178-197 | the inner loop over a quote takes all its lines, and its first one as an alert when it is one |
| `Markdown.ReadList` | frontend/src/components/markdown.tsx:199-225 | the inner loop over a list takes items and folds indented lines into the item above |
| `Markdown.ReadTable` | frontend/src/components/markdown.tsx:227-245 | a table is taken exactly for a row over a matching delimiter row, with every row fitted to the header |
| `MarkdownTheorems.EveryLineIsReadOnce` | frontend/src/components/markdown.tsx:145-249 | every line is read in exactly one run of lines, and a line that is not blank is not passed over |
| `MarkdownTheorems.LineDecides` | frontend/src/components/markdown.tsx:145-249 | a line by itself decides what starts there: a table only where it is of no kind of its own, and text only where no table starts either |
| `MarkdownTheorems.RunsEndWhere` | frontend/src/components/markdown.tsx:148-245 | code goes on up to a fence or the end, a quote while lines are quoted, a list while they are items or indented, a table while they have a pipe, and no further |
| `MarkdownTheorems.NothingIsLost` | frontend/src/components/markdown.tsx:132-252 | the blocks other than paragraphs are those of the runs, in order, and the paragraphs hold exactly the remaining text but for spaces |
| `MarkdownTheorems.EveryBlockIsWellFormed` | frontend/src/components/markdown.tsx:132-252 | tables are rectangular with one alignment per column, lists are not empty and have depths 0 or 1, no paragraph is empty, a heading is one trimmed line |
| `MarkdownRoundTrip.BlankLineSeparates` | frontend/src/components/markdown.tsx:132-252 | what is before a blank line and what is after it are parsed as if alone, unless the first part leaves a fence open |
| `MarkdownRoundTrip.TableReadsBack` | frontend/src/components/markdown.tsx:56-96 | the lines of a printed table are parsed as exactly that one table - header, alignments, rows - if and only if its cells are trimmed and none but the last of a row leaves inline code open |
| `MarkdownRoundTrip.PrintedTableParses` | frontend/src/components/markdown.tsx:132-252 | the same for the text of the table, where cells must also be on one line |
| `MarkdownDocument.HeadingLine` | frontend/src/components/markdown.tsx:46 | a printed heading reads back as its text if and only if that is one trimmed line that does not end in a number sign |
| `MarkdownDocument.ClosingSignsAreLost` | frontend/src/components/markdown.tsx:46 | number signs at the end of a heading are lost, with or without a space before them |
| `MarkdownDocument.CSharpReadsAsC` | frontend/src/components/markdown.tsx:46 | the heading `# C#` reads as `C` |
| `MarkdownDocument.PrintedDocumentParses` | frontend/src/components/markdown.tsx:132-252 | the text of any list of blocks, each meeting the condition of its kind (`Faithful`: what its text, items or cells must not contain), is parsed as exactly those blocks; some blocks that other sources yield do not meet it |
| `MarkdownDocument.FencedCodeParses` | frontend/src/components/markdown.tsx:148-158 | whatever follows the marks of the opening fence, and closed or not, code is exactly the lines up to the next fence |
| `MarkdownWrapping.WrappedParagraphParses` | frontend/src/components/markdown.tsx:132-252 | lines of text are parsed as one paragraph, the trimmed lines with the seam of each two between them |
| `MarkdownWrapping.WrappedTextReads` | frontend/src/components/markdown.tsx:113-124 | `Hello` over `world` is a paragraph with a space, two Chinese lines are one without |
| `MarkdownWrapping.WrappedQuoteParses` | frontend/src/components/markdown.tsx:178-197 | the lines of a quote, under an alert marker or not, are one text joined the same way |
| `MarkdownWrapping.BlankQuoteLineParses` | frontend/src/components/markdown.tsx:178-197 | a blank line inside a quote is as good as none |
| `MarkdownWrapping.WrappedItemParses` | frontend/src/components/markdown.tsx:199-225 | an item and the indented lines under it are one item, its text joined the same way |
| `MarkdownRoundTrip.EndingsMakeNoDifference` | frontend/src/components/markdown.tsx:133 | LF, CRLF and CR give the same lines and the same blocks |
| `Capability.Has` | internal/model/capability.go:329-336 | the loop finds a capability exactly when it is listed |
| `Capability.WithDegraded` | internal/model/capability.go:352-363 | the copy lists the capability as degraded and not as supported; the original reads as before and shares no changed map |
| `Capability.WithCaveat` | internal/model/capability.go:366-378 | the copy carries the caveat; the original reads as before |
| `Capability.BuiltIsDisjoint` | internal/model/capability.go:324-370 | however a set is built up, nothing is both supported and degraded, and nothing it began with is neither |
| `Capability.LastNoteStands` | internal/model/capability.go:324-378 | what a built set says, read off its changes: supported is what was listed and never degraded, and each reason or caveat is the one given last |
| `Conformance.CheckConformance` | internal/driver/conformance.go:155-200 | reports exactly the problems there are, in whatever order the maps are read |
| `Conformance.NoProblemIffConforms` | internal/driver/conformance.go:155-200 | there is no problem if and only if supported and degraded are disjoint, every supported row is implemented and every implemented interface has a supported or degraded row |
| `Conformance.ChangingKeepsConforming` | internal/model/capability.go:352-370 | degrading any capability, or adding a caveat, keeps a conforming connection conforming |
| `Conformance.DegradingRepairs` | internal/model/capability.go:352-363 | degrading a capability whose interface is missing makes a set conform when that was its only problem |
| `Profile.Profile.SetSecret` | internal/model/profile.go:95-104 | stores or removes one credential in place, creating the map on first use |
| `Profile.Profile.SetOption` | internal/model/profile.go:107-112 | stores one option in place, creating the map on first use |
| `Profile.Profile.SetACL` | internal/model/profile.go:160-170 | mechanism and both keys change together, other credentials stay, and switching off leaves no key |
| `Profile.Profile.ConfiguredSecrets` | internal/model/profile.go:77-86 | exactly the keys that hold a value, sorted, whatever order the map is read in |
| `Profile.Profile.Clone` | internal/model/profile.go:116-135 | an equal copy that shares no map with its source |
| `Profile.Record.Load` | internal/model/profile.go:206-230 | loading yields the migrated profile with credentials of its own, and leaves the record as it was |
| `Profile.NewConnectionRecord` | internal/model/profile.go:191-199 | the record carries the credentials beside a profile that has none, and shares no credential map |
| `Profile.StoredIsLoaded` | internal/model/profile.go:191-230 | what was stored is loaded unchanged if and only if it names a kind and a mechanism |
| `Profile.MigratingTwiceIsMigratingOnce` | internal/model/profile.go:206-230 | storing a migrated profile and migrating again changes nothing |
| `Profile.MigrationKeepsCredentials` | internal/model/profile.go:225-228 | migration keeps stored credentials and falls back to the old key pair exactly when there are none |
| `Profile.MigrationFillsBlanks` | internal/model/profile.go:206-224 | migration fills in what an old file leaves blank and changes nothing else; the mechanism asks for credentials exactly when it did or, if blank, the old file did |
| `Profile.ProfileOf` | internal/bridge/connection.go:65-80 | a form submission becomes a profile whose credentials read exactly as typed |
| `Profile.ApplyCredentialsMode` | internal/bridge/connection.go:130-157 | preserve gives the typed secret where there is one and the stored one otherwise, in whatever order the map is read; clear, replace, unknown modes and unknown connections do what they say; the stored profile is not touched |

## Left out

- HTTP, TLS, redirects and status codes: a mirror's answer is a parameter, any sequence of reads that may fail, be cancelled or end early.
- JSON: the codec of the updater's record is a parameter, assumed to read back what it wrote and to refuse every strict prefix of it (`Config.Faithful`); decoding a release index and a connection record is outside. Storing an empty credential map drops it there, which the model does not show.
- SHA-256: any function from bytes to text. Digest lengths count characters.
- Clocks and timers: times are parameters; the race's stagger and timeouts become an arbitrary arrival order.
- Manager.Manager.Check, Manager.Manager.DownloadRelease, Manager.Manager.Download, Manager.Manager.Install: a whole call as a method runs with nothing in between; how the sections of several calls mix is `Lifecycle.Event`.
- Manager.Manager.Fetch: what a fetch shows is published when it returns, because the fetch is a method of its own that does not know the manager; `LifecycleTheorems.ShowingCommutes` is why that makes no difference to the state.
- Manager: the policy is a parameter of the sections that read it and is not part of the published state; the schedule of background checks, `Close` and the notification text are not modelled.
- Manager.Manager.Install, Manager.Manager.InstallOnQuit: what Apply comes to is a parameter, and the relaunch after it is left out.
- Lifecycle: the trees Apply replaces and the package it reads are on separate disks; an install in the lifecycle opens the package and succeeds or fails, `Apply` has what happens in between.
- Apply.ApplyBundle: `hdiutil`, `ditto` and the elevation prompt are calls that succeed or fail; a directory tree is a map from file paths to contents, without empty directories, links and attributes; a file where the copy needs a directory is one of the ways a copy fails.
- Apply: the dispatch over kinds of installation, the Windows installer and starting the relaunched program.
- Target.LocateIsLocated: whether a path is writable is a function given from outside; a path is a list of names, not one text to be taken apart.
- ShellQuote: the lexer covers quoting, blanks and operators; it gives up on expansions and double quotes, which the command does not contain.
- Text is sequences of characters. JavaScript's UTF-16 units and Go's bytes differ only outside the characters these patterns look at; keys sort by code point, which is the order of their UTF-8 bytes.
- Registry: the catalogue of drivers, the permission to dial and the timeout of a dial; a dial returns a fresh connection or fails. Connections are numbers, and profile IDs are positive, as the code assumes.
- Markdown: rendering to elements, and the inline pattern, whose alternation depends on the engine.
- Conformance.CheckConformance: the table of rows is a parameter, so the result holds for any table; the seventy-odd rows and the Go type assertions behind them are not listed.
- Profile: services that validate, encrypt and persist profiles; the option map a stored record shares with its profile is shared in the model too.
