# Verified models of OpenCCU-Loom

OpenCCU-Loom is a daemon that connects Homematic CCUs ("centrals") to MQTT, REST, WebSocket and
Matter, with a command-line client. This project models the parts of it whose correctness depends on
every step of a procedure, and proves what they are for. `dafny verify dfyconfig.toml` checks it.

| files | what they model |
|---|---|
| `RestoreModel`, `RestoreProofs`, `RestoreSuccess`, `RestoreExact`, `RestoreStat`, `RestoreNames`, `RestoreCommit` | the commit of `backup restore`: a set of staged files swapped into place over a disk on which every call may fail, with rollback |
| `Paths` | cleaning and joining paths, and the check that keeps archive members inside the data directory |
| `Archive`, `ArchiveProofs`, `ArchiveContents`, `RestoreRun`, `RestoreRoundTrip`, `BoundedReaders` | what `backup create` archives, what `backup restore` takes out of an archive, the whole restore run, and the readers that bound it |
| `Lifecycle`, `LifecycleProofs`, `LifecycleRuns`, `LifecycleTheorems` | live adopt and remove of centrals: any number of calls over any names, interleaved step by step |
| `Orchestrator`, `LiveAdmin`, `LiveAdminRaces` | the same two calls as methods on the maps they update, the administration of persisted rows on top, and what concurrent writes of one row can end in |
| `MatterPipeline` | handlers that send on a channel of one place, and the goroutine that debounces and rebuilds the Matter topology |
| `TerminalSanitizer` | the escape-sequence scanner against a grammar of tokens |
| `EventStream` | the reconnect budget and the shift-based backoff in 64-bit arithmetic |
| `ConfigTree`, `ConfigPort` | exporting the configuration without its secrets and importing it again |
| `CallbackMetrics` | which central a callback is charged to, and the in-flight counts |
| `ModelDiff` | the cross-stack snapshot diff and the gate on its counts |
| `DevicePages` | the paged walk over the device list |
| `Options` | the option type they share |

How the outside is modelled. Each call to the file system, to a store, to a dialler or to a fallible
collaborator asks an oracle whether it succeeds, and the theorems hold for every oracle, under the
conditions they name. Names of temporary files are drawn by an oracle too. The digest is an
arbitrary function. A file system is a map from paths to bytes.

## What the proofs say of the code

Properties that hold without reservation, or exactly under a condition:

- With a `Stat` that misses nothing and a rollback whose calls succeed, a failed restore commit leaves
  the disk as it was exactly when no staged file is the live path, or
  the `-wal`/`-shm` of the live path, of a later staged file (`OrderIsExact`). The archive that
  `backup create` writes is in such an order exactly when the config file, in whatever spelling of its
  path, is none of the kept files or their sidecars (`WrittenOrder`); the rollback renames the moved-aside files in the order in which
  they were moved, so that the last copy of a path taken is the one that stays.
- If calls of the rollback fail as well, nothing is lost: each original is at its home or in the copy
  recorded for it (`NothingIsLost`).
- A refused `Stat` is read as "nothing there": the live file is overwritten without a copy, and the
  rollback of a later failure deletes it (`StatMissLosesTheFile`). If `Stat` may fail whenever it
  likes, a failed commit leaves the disk as it was exactly when the set is ordered and no staged file
  but the last replaces one (`BlindIsExact`).
- A `-wal` or `-shm` that `Stat` misses survives a restore that succeeds, beside the restored
  database. Success leaves the staged files and nothing of the old databases, for every `Stat`,
  exactly when each sidecar that is there is itself replaced later in the set (`SuccessIsExact`; for
  ordered sets `SwapIsExact`).
- Every `manifest.json` of an archive is decoded into one variable, so the sums of an earlier one bind
  unless a later one replaces them (`SumsAreBinding`). The manifest `backup create` writes is not
  bounded, the one a restore reads is, at four MiB: an archive of very many files can be written and
  not restored (`PlanOfWritten`).
- `safeDataDirJoin` keeps every member inside the data directory exactly when that is not a bare chain
  of `..` (`ContainmentIsExact`). Its comment says strictly inside; the code accepts `x/..`, which is
  the data directory itself (`DataDirItselfIsAccepted`). With `.` or `/` as data directory it refuses
  every clean name, and a name that begins with a backslash can be archived but not restored
  (`CleanNameIsExact`, `PlanOfWritten`).
- A rolled-back adopt undoes each step once and its hooks in reverse. The event bridge, attached
  first, is recorded last and therefore detached first.
- The store is written outside the lifecycle lock. Concurrent writes of one name are sure to leave row
  and registry in agreement exactly when they all switch it on or all switch it off; a Put that
  enables a row beside a Delete of it can leave a running central without a row, every call having
  succeeded (`RacesAreExact`). A Put may also take a central for running whose adopt then fails, so
  that nil does not mean it runs (`NilIsExact`), although its comment says no success masks a live
  state that was not asked for.
- A late Matter hook loses no update. Boot wiring does not ask whether a central is ready already, so
  a central that became ready between the first assembly and the subscription stays out of date
  although everything has settled (`BootWiringMissesAReadyCentral`); `CoveredIsExact` gives the exact
  condition.
- A rebuild that fails is not retried: the centrals it had not read, the only exception in
  `NoLostUpdate`, stay out of date with everything settled until something else sends
  (`FailedRebuildStaysStale`).
- Importing a redacted export into the database it came from changes nothing exactly when no secret
  of a stored section is an explicit null; such a leaf is dropped (`ConfigPort.RoundTripIsExact`). Of a
  central only the password is blanked, its API token is exported as it is.
- `backoffFor` doubles up to its maximum for every attempt when base times maximum fits in 63 bits;
  the default policy does. Otherwise it fails exactly when the shift overflows to something positive
  below the maximum, and that can happen (`BackoffIsExact`).
- A callback for the id a central registered itself is charged to it exactly when it has no rival
  (`OwnIdIsExact`). A rival is possible: a central that bears the daemon's instance name, and whose
  name is no shorter, takes or ties the callbacks of the others, because the instance name is not
  stripped for it.
- The comment on `sanitizeForTerminal` speaks of two-byte escapes being dropped; the code drops only
  the ESC of such an escape and keeps the rune after it, as the comment on `skipEscapeSequence` says.
  The model follows the code.

## Model

| member | source | states |
|---|---|---|
| RestoreProofs.AllOrNothing | cmd/openccu-loom/backup.go:905-957 | a commit that fails at any call leaves every path as it was but fresh moved-aside names and staged temps, for every ordered set, if the rollback's calls succeed, no name drawn for a copy is a path of the set, and Stat misses nothing or no file but the last replaces one |
| RestoreSuccess.SuccessIsEffect | cmd/openccu-loom/backup.go:918-956 | a commit that succeeds, in whatever order its set is, leaves each entry in place of what was there, the later of two winning; only sidecars that Stat misses may stay besides |
| RestoreSuccess.SuccessSwaps | cmd/openccu-loom/backup.go:918-956 | for an ordered set that means every staged file live with its bytes, no sidecar of the databases that were there, no moved-aside copy and no temp, and every other path unchanged, if Stat misses nothing or there is no sidecar it could leave |
| RestoreSuccess.EffectSwaps | cmd/openccu-loom/backup.go:918-956 | putting the entries of an ordered set in place one after another puts them all in place |
| RestoreProofs.ForwardKeeps | cmd/openccu-loom/backup.go:918-953 | after every prefix of the loop, failed or not and whatever Stat says, each path the loop has not changed holds its original and each recorded copy one, what is placed has its staged bytes, and less than the prefix is placed if it failed; if Stat misses nothing, each original overwritten is in a copy |
| RestoreProofs.RollbackRestores | cmd/openccu-loom/backup.go:910-917 | from every state the loop can fail in with each file overwritten kept in a copy, the rollback brings back what was there before the commit |
| RestoreProofs.NothingIsLost | cmd/openccu-loom/backup.go:910-917 | after a commit of an ordered set that failed, whichever calls of the rollback fail as well, each original is at its home or in the copy recorded for it, with its own bytes; needs the same of Stat as the all-or-nothing promise, and nothing of the rollback |
| RestoreProofs.RenameBackLast | cmd/openccu-loom/backup.go:914-916 | replaying the moved-aside list forwards leaves the last copy of a path at its home, touches no other path and leaves no copy |
| RestoreProofs.MoveAsideKeeps | cmd/openccu-loom/backup.go:963-994 | moving one more file or sidecar aside, at whichever of its three calls it stops, keeps the invariant; after a success the path is free, if Stat misses nothing |
| RestoreExact.OrderIsExact | cmd/openccu-loom/backup.go:905-957 | the all-or-nothing promise holds in every environment with an honest Stat and a working rollback if and only if no staged file is the live path or a sidecar of the live path of a later one |
| RestoreExact.ClobberedRollback | cmd/openccu-loom/backup.go:910-917 | for every disordered set there is one refused rename after which the rollback leaves staged bytes where an original was |
| RestoreStat.StatMissLosesTheFile | cmd/openccu-loom/backup.go:923-934 | in every ordered set, databases included, a file replaced before the last entry is gone after a failed commit, if Stat misses it and the next rename is refused |
| RestoreStat.BlindIsExact | cmd/openccu-loom/backup.go:905-957 | the all-or-nothing promise holds in every environment with a working rollback, however its Stat fails, if and only if the set is ordered and no file but the last replaces one |
| RestoreStat.MissedSidecarSurvives | cmd/openccu-loom/backup.go:963-980 | a path of the set that was there or was placed, and that Stat misses, is there after a commit in which every other call succeeds |
| RestoreStat.LeftoverIs | cmd/openccu-loom/backup.go:918-953 | what can be left over are the sidecars there when their database is replaced and not replaced later |
| RestoreStat.SuccessIsExact | cmd/openccu-loom/backup.go:905-957 | every successful commit, however Stat fails, leaves the staged files and nothing else of the old databases if and only if every sidecar there when its database is replaced is itself replaced later |
| RestoreStat.SwapIsExact | cmd/openccu-loom/backup.go:905-957 | for an ordered set: if and only if no database of it has a sidecar on disk that is not itself in the set |
| RestoreNames.SwappedIsExchanged | cmd/openccu-loom/backup.go:897-957 | in file names: swapped means that every staged file is live with its bytes, no other file has come or changed, only temps and the `-wal` and `-shm` of a staged `.db` have gone, and none of those is left that is not itself staged |
| RestoreNames.UntouchedIsUnharmed | cmd/openccu-loom/backup.go:905-994 | in file names: after a commit that was undone every file is there with its bytes, and what has come is called like a staged path or one beside it, then `.restore-bak-` |
| RestoreNames.ClobbersMeans | cmd/openccu-loom/backup.go:941-980 | the order that cannot be undone is that of a path after itself, or of a `.db` after its own `-wal` or `-shm` |
| RestoreSuccess.ForwardGoes | cmd/openccu-loom/backup.go:918-953 | where the calls of its entries succeed, whatever Stat says, and drawn names are free, no prefix of a commit fails |
| RestoreSuccess.CommitSucceeds | cmd/openccu-loom/backup.go:905-957 | where every call succeeds a well-staged set is put in place |
| RestoreCommit.FileSystem.UniqueSidecar | cmd/openccu-loom/backup.go:984-994 | creates an empty file under the path's own name, `.restore-bak-` and something drawn, or fails and changes nothing |
| RestoreCommit.FileSystem.MoveOneAside | cmd/openccu-loom/backup.go:923-934 | one move aside, in place, is the step the proofs are about, for every list moved so far |
| RestoreCommit.FileSystem.MoveSidecarsAside | cmd/openccu-loom/backup.go:963-980 | both sidecars in turn; what was moved before a failure is returned too |
| RestoreCommit.FileSystem.CommitEntry | cmd/openccu-loom/backup.go:918-953 | one round of the loop |
| RestoreCommit.FileSystem.Undo | cmd/openccu-loom/backup.go:910-917 | the rollback loops, errors discarded, leave what the rollback function says |
| RestoreCommit.FileSystem.CommitRestore | cmd/openccu-loom/backup.go:905-957 | the method on the disk refines the commit, and so is all-or-nothing: unharmed if it fails, exchanged if it succeeds, in the terms of the file names and under the conditions of the theorems |
| Paths.GlueSplit | cmd/openccu-loom/backup.go:806-823 | splitting a path at its separators and joining the elements gives it back |
| Paths.SplitGlue | cmd/openccu-loom/backup.go:806-823 | joining elements and splitting gives the elements back |
| Paths.CleanMeans | cmd/openccu-loom/backup.go:818-819 | cleaning a path keeps the elements it resolves to and is idempotent |
| Paths.PartsMean | cmd/openccu-loom/backup.go:818-819 | what a path resolves to, by its last element: an empty one and `.` are nothing, `..` leads to the parent, stays at the root and climbs from the working directory, any other is entered |
| Paths.PrefixMeans | cmd/openccu-loom/backup.go:820 | the textual prefix test on cleaned paths is the element-wise prefix, and never holds for `.` or the root |
| Paths.JoinAccepts | cmd/openccu-loom/backup.go:806-823 | exactly which members are accepted, empty names, `.` and leading separators among those that are not, and the place each resolves to |
| Paths.ContainmentIsExact | cmd/openccu-loom/backup.go:806-823 | no accepted member leaves the data directory, if and only if that is no bare chain of `..` |
| Paths.EscapeExists | cmd/openccu-loom/backup.go:818-820 | with such a data directory the member `../x` is accepted and lands outside |
| Paths.DataDirItselfIsAccepted | cmd/openccu-loom/backup.go:803-823 | `x/..` is accepted and resolves to the data directory itself |
| Paths.CleanNameIsExact | cmd/openccu-loom/backup.go:806-823 | a clean name without `..` is appended to the data directory, unless that is `.` or the root or the name begins with a backslash |
| Archive.WriteArchive | cmd/openccu-loom/backup.go:345-403 | the archive is the entries, the config and the note in order, and last a manifest with the digest of each |
| ArchiveProofs.WalkSpot | cmd/openccu-loom/backup.go:196-246 | the walk records only entries below its directory under kept names, and no later one is an earlier one or a sidecar of one |
| ArchiveProofs.StateEntriesApart | cmd/openccu-loom/backup.go:187-276 | with the database snapshots appended the entries under state/ stay apart, and each has a clean relative name |
| ArchiveContents.WalkRecordsKept | cmd/openccu-loom/backup.go:196-246 | for every path of names: the walk records a file with its own bytes if and only if one is there, its name is neither the key's nor a live database's or sidecar's, and no directory on the way holds `.nobackup` or is the top-level `backups`; and exactly the directories of the same kind |
| ArchiveContents.ArchiveHolds | cmd/openccu-loom/backup.go:187-390 | the file members of an archive are exactly those files and the snapshots under state/, the config file and the note, each with its own bytes |
| ArchiveContents.ArchiveHoldsDirs | cmd/openccu-loom/backup.go:187-390 | the directory members are exactly those directories, and the note's |
| ArchiveProofs.ReadExact | cmd/openccu-loom/backup.go:667-725 | the reading loop accepts an archive if and only if there are not too many members and each is acceptable by itself, and then has every target in order and all its manifests merged |
| ArchiveProofs.SumsAreBinding | cmd/openccu-loom/backup.go:693-742 | a sum binds if and only if some manifest gives it and no later one gives another for that name or drops them all |
| ArchiveProofs.StampIsLast | cmd/openccu-loom/backup.go:693-729 | the creation time is that of the last manifest which gives one |
| ArchiveProofs.SchemaIsBinding | cmd/openccu-loom/backup.go:870-887 | the schema version that decides is one a manifest gives for the main database and no later one replaces or drops |
| ArchiveProofs.DestinationMeans | cmd/openccu-loom/backup.go:692-723 | where a member goes: `config.yaml` to the config path if one is given, `state/x` to x in the data directory, anything else nowhere |
| ArchiveProofs.SpellingsAgree | cmd/openccu-loom/backup.go:703-712 | two spellings of the config path are one file if and only if they resolve alike |
| ArchiveProofs.PlanIsExact | cmd/openccu-loom/backup.go:667-748 | exactly which archives pass all checks: at most 100,000 members, each readable, a stamp, no planned file against a sum that binds, the schema that binds known or forced |
| ArchiveProofs.SumsLookup | cmd/openccu-loom/backup.go:345-390 | under distinct names the manifest holds for each member the digest of its own bytes |
| ArchiveProofs.NamesAreUnique | cmd/openccu-loom/backup.go:187-276 | no two members of a written archive have the same path |
| ArchiveProofs.PlanOfWritten | cmd/openccu-loom/backup.go:667-748 | what `backup create` wrote passes every check of the restore if and only if each name can be placed, the creation time is stamped, the members are not too many or too large, the manifest among them, and the schema is known or forced; then every file is planned with its own bytes |
| ArchiveProofs.EntriesOrdered | cmd/openccu-loom/backup.go:187-276 | the files of the walk and the snapshots come in an order the commit can undo |
| ArchiveProofs.WrittenOrder | cmd/openccu-loom/backup.go:276-300 | with the config file the whole archive is in such an order if and only if the config file, its path cleaned, is none of the kept files or their sidecars |
| RestoreRun.StageEntry | cmd/openccu-loom/backup.go:828-865 | stages the bytes in a fresh temp next to their destination, or fails and leaves nothing behind |
| RestoreRun.TempIsBeside | cmd/openccu-loom/backup.go:826-837 | the temp is a hidden file of the directory its destination is in |
| RestoreRun.StageAll | cmd/openccu-loom/backup.go:650-725 | stages exactly the targets that are read, in order, touching no other file; a failure leaves no temp, and comes only from an archive that is refused or a call that is |
| RestoreRun.CheckSums | cmd/openccu-loom/backup.go:731-742 | passes if and only if every staged file with a sum has that sum |
| RestoreRun.HoldsIsWellStaged | cmd/openccu-loom/backup.go:828-865 | what was staged meets the conditions of the commit theorems, if no free name drawn for a copy or a temp is a planned path |
| RestoreRun.CommittedIsApplied | cmd/openccu-loom/backup.go:750-754 | putting in place what was staged for a plan is the plan applied to the disk as it was before staging, no temp left, in every order |
| RestoreRun.AppliedIsRestored | cmd/openccu-loom/backup.go:750-754 | a plan in order, applied, leaves each planned file live with its bytes, no `-wal` or `-shm` of a planned `.db` that is not planned itself, and the rest alone |
| RestoreRun.RolledBackIsUnchanged | cmd/openccu-loom/backup.go:655-666 | a run whose commit failed leaves every file as it was before it began, temps included |
| RestoreRun.BackupRestore | cmd/openccu-loom/backup.go:589-758 | for every archive, several manifests included: a refused archive, or a database in the way, changes nothing; a failed run of an ordered plan changes nothing; a successful one applies exactly the plan, in whatever order it is; and where every call succeeds an accepted plan is applied. If Stat may fail, under the conditions of the exact theorems |
| RestoreRoundTrip.AppliedIsRoundTripped | cmd/openccu-loom/backup.go:650-754 | applying the planned targets is restoring the source: the kept files and snapshots of the directory, not of the archive, the config file taking the place of one at its path |
| RestoreRoundTrip.RestoreOfBackup | cmd/openccu-loom/backup.go:134-403 | restoring what `backup create` wrote puts the config, every snapshot and every kept file of the directory the config does not replace at its place with its original bytes, leaves no `-wal` or `-shm` of the two databases, and changes nothing else; where every call succeeds it succeeds if and only if the source is restorable; a failure changes nothing, if the config file is kept apart |
| BoundedReaders.CappedReader.Read | cmd/openccu-loom/backup.go:560-580 | reports the read that crosses the cap and every one after it, and never before |
| BoundedReaders.Copy | cmd/openccu-loom/backup.go:560-580 | copying through the capped reader succeeds if and only if the source is within the cap, and then is complete; otherwise less than one buffer more than the cap was written |
| BoundedReaders.ReadEntryBounded | cmd/openccu-loom/backup.go:792-801 | reads the whole entry if and only if it is within the limit, and takes at most one byte more from the source |
| LifecycleProofs.AdoptHookKeeps | cmd/openccu-loom/central_adopt.go:199-208 | every step of the attach loop, and the refused or accepted bring-up after it, keeps record and attachments equal |
| LifecycleProofs.UndoneView | cmd/openccu-loom/central_adopt.go:540-553 | taking back the last recorded step leaves exactly what the steps before it had built |
| LifecycleProofs.RollingKeeps | cmd/openccu-loom/central_adopt.go:540-553 | every step of the rollback keeps the view equal to what is still to be undone |
| LifecycleProofs.StoppedView | cmd/openccu-loom/central_adopt.go:692-724 | after the unwires, stopping the unit leaves nothing under the name but its bridge attachment, for adopted and for boot-registered centrals |
| LifecycleProofs.SkippedUnwireStays | cmd/openccu-loom/central_adopt.go:244-290 | stopping alone drops what a domain keeps on the unit's bus and nothing that has a detach half |
| LifecycleProofs.RemoveUnwireKeeps | cmd/openccu-loom/central_adopt.go:696-698 | every step of the unwire loop |
| LifecycleRuns.Keeps | cmd/openccu-loom/central_adopt.go:481-752 | every step of every call that holds its name's lock keeps what holds at its place in the procedure, and marks no unit but its own |
| LifecycleRuns.InstallKeepsInv | cmd/openccu-loom/central_adopt.go:481-752 | a step of one call keeps what holds of every other call and every other name |
| LifecycleRuns.NextKeepsInv | cmd/openccu-loom/central_adopt.go:481-822 | every step anyone can take keeps the invariant: new calls, lock steps, work steps and rows stored meanwhile |
| LifecycleRuns.RunKeepsInv | cmd/openccu-loom/central_adopt.go:481-822 | so it holds after every run from a booted daemon |
| LifecycleTheorems.FreeNameIsWholeOrGone | cmd/openccu-loom/central_adopt.go:481-752 | in every interleaving, while a name's lock is free a published handle means a registered, running, bring-up-managed, bridged central attached to exactly the recorded domains, and an unregistered name has no handle, hook, bridge or bring-up of this orchestrator |
| LifecycleTheorems.NotLiveIsExact | cmd/openccu-loom/central_adopt.go:650-667 | a remove reports a name as not live if and only if nothing was registered under it, and then changed nothing |
| LifecycleTheorems.FailedAdoptLeavesNoTrace | cmd/openccu-loom/central_adopt.go:528-605 | a failed adopt leaves registry, handle, bring-up (a foreign one included), bridge and hooks as they were; each step taken was undone once, hooks in reverse, the unit last |
| LifecycleTheorems.RolledBackFully | cmd/openccu-loom/central_adopt.go:540-603 | the trace of a rollback undoes exactly the steps in it, each once |
| LifecycleTheorems.UndoMirrors | cmd/openccu-loom/central_adopt.go:540-545 | the undo of a hook stands as far from the end as the hook from the beginning |
| LifecycleTheorems.RemoveTakesEveryStepInOrder | cmd/openccu-loom/central_adopt.go:637-752 | a finished remove drained, ran every recorded unwire once in order, published one eviction a device with the bus live and the bridge attached, stopped, detached and purged, in that order and nothing else, and left nothing under the name |
| LifecycleTheorems.OthersUntouched | cmd/openccu-loom/central_adopt.go:481-752 | no step in any run changes what is kept under another name, its stored rows included |
| LifecycleTheorems.HolderAdvances | cmd/openccu-loom/central_adopt.go:481-752 | a call that holds its lock is never stuck: each of its steps brings it nearer to letting go |
| Orchestrator.CentralOrchestrator.AttachCentralHooks | cmd/openccu-loom/central_adopt.go:187-208 | attaches the bridge and the domains in order and returns exactly the unwires of the domains that attach and hand one back |
| Orchestrator.CentralOrchestrator.Rollback | cmd/openccu-loom/central_adopt.go:540-545 | running the undo list backwards brings the name back to what it was and touches no other |
| Orchestrator.CentralOrchestrator.StopUnit | cmd/openccu-loom/central_adopt.go:546-549 | `Unit.Stop` drops bus subscriptions and runs the stop hook that unregisters the name |
| Orchestrator.CentralOrchestrator.AdoptCentral | cmd/openccu-loom/central_adopt.go:481-618 | adopts all of a central, with the unwires of exactly the domains that attached, or nothing; it succeeds if and only if the name is given, new to registry and bring-up, and the unit can be built and started |
| Orchestrator.CentralOrchestrator.TearDown | cmd/openccu-loom/central_adopt.go:690-735 | the teardown of a handle on the maps takes the steps in their order |
| Orchestrator.CentralOrchestrator.RemoveCentral | cmd/openccu-loom/central_adopt.go:637-752 | removes a central if and only if it is registered, with one eviction a device, leaving nothing of it, rows included, and the other names alone |
| LiveAdmin.LiveCentralAdmin.Put | cmd/openccu-loom/central_adopt.go:978-1018 | alone on its name: after a nil result the name is registered if and only if the row is enabled; a failed store changes nothing; an adopt is refused only for a reason and leaves the row and no live central; other names stay as they are |
| LiveAdmin.LiveCentralAdmin.Delete | cmd/openccu-loom/central_adopt.go:1050-1056 | alone on its name: after a nil result there is no row and no registered central; after any other, a teardown that failed included, the store is as it was; other names stay as they are |
| LiveAdminRaces.RacesAreExact | cmd/openccu-loom/central_adopt.go:978-1056 | for any number of concurrent calls on one name and any row: every interleaving in which nothing is refused ends with row and registry in agreement if and only if the calls all enable the row, or none does |
| LiveAdminRaces.Disagreement | cmd/openccu-loom/central_adopt.go:978-1056 | beside a call that does not, a Put that enables the row can report success and the calls end in disagreement, for every such set of calls |
| LiveAdminRaces.NilIsExact | cmd/openccu-loom/central_adopt.go:978-1018 | that a Put enabling the row returned nil is sure to mean that the central runs, beside others like it and with refusals, if and only if it is the only call or the central was running before |
| MatterPipeline.NextKeepsCovered | cmd/openccu-loom/daemon_matter.go:595-706 | whatever happens to a wired central, its last change has been read or something is on its way that will have it read |
| MatterPipeline.WiringCovers | cmd/openccu-loom/daemon_matter.go:827-846 | subscribing first and asking afterwards makes up for everything before the subscription |
| MatterPipeline.NoLostUpdate | cmd/openccu-loom/daemon_matter.go:595-706 | in every run, once a central is wired late, or wired at boot before its ready event came round, and everything has settled, the last rebuild has seen its last change, unless that rebuild failed before reading it |
| MatterPipeline.CoveredIsExact | cmd/openccu-loom/daemon_matter.go:616-620 | from a wired state, no run settles out of date if and only if the central is read or something is pending for it |
| MatterPipeline.BootWiringMissesAReadyCentral | cmd/openccu-loom/daemon_matter.go:905-918 | every boot central that is ready, out of date and without pending events when it is wired stays out of date with everything settled |
| MatterPipeline.FailedRebuildStaysStale | cmd/openccu-loom/daemon_matter.go:606-640 | after every rebuild that fails before it reads a changed central to which nothing is owed any more, that central is out of date with everything settled, and stays so in every continuation without a further send |
| MatterPipeline.LateHookKicks | cmd/openccu-loom/daemon_matter.go:838-843 | a late hook on the same central leaves a signal in the channel |
| MatterPipeline.NoRebuildUnasked | cmd/openccu-loom/daemon_matter.go:606-640 | there are never more rebuilds than successful sends |
| MatterPipeline.BurstIsOneRebuild | cmd/openccu-loom/daemon_matter.go:623-640 | whatever is sent while the goroutine waits for a quiet window ends in one rebuild with none to come |
| MatterPipeline.DispatchMeans | cmd/openccu-loom/daemon_matter.go:651-706 | the ready event is always answered by a send, a device event of the four kinds only once the central is ready, and a send is dropped if the channel is full |
| MatterPipeline.ReadyComesOnce | cmd/openccu-loom/daemon_matter.go:651-658 | the ready event of a central comes round once |
| TerminalSanitizer.TokensParse | cmd/hmcli/sanitize.go:61-108 | every text is a sentence of the token grammar |
| TerminalSanitizer.ParseIsUnique | cmd/hmcli/sanitize.go:61-108 | and of one sentence only |
| TerminalSanitizer.FitsIsHead | cmd/hmcli/sanitize.go:76-108 | only one token fits at the front of a text |
| TerminalSanitizer.HeadFits | cmd/hmcli/sanitize.go:76-108 | the token found at the front is spelled there and takes as much as the grammar allows |
| TerminalSanitizer.TextIsClean | cmd/hmcli/sanitize.go:26-50 | the text tokens of a sentence hold no control rune and are a subsequence of it |
| TerminalSanitizer.CleanIsKept | cmd/hmcli/sanitize.go:30-33 | a text without unsafe runes is left alone, so the fast path agrees with the loop |
| TerminalSanitizer.Idempotent | cmd/hmcli/sanitize.go:26-50 | sanitizing twice is sanitizing once |
| TerminalSanitizer.SkipCsi | cmd/hmcli/sanitize.go:80-91 | the index loops over a control sequence end on its last rune |
| TerminalSanitizer.SkipOsc | cmd/hmcli/sanitize.go:92-104 | the index loop over an operating system command ends on its terminator or at the end |
| TerminalSanitizer.SkipEscapeSequence | cmd/hmcli/sanitize.go:76-108 | returns an index within bounds, not before the start, where exactly one token ends |
| TerminalSanitizer.SanitizeForTerminal | cmd/hmcli/sanitize.go:26-50 | the index loop, fast path included, yields the text tokens of the one sentence that spells the input: only runes 0x20 to 0x7e and from 0xa0 are left, and a text of such runes is returned as it is |
| TerminalSanitizer.RuneGoes | cmd/hmcli/sanitize.go:40-64 | a printable rune stays, a control rune of either set and DEL go, and an escape that introduces neither kind of sequence goes alone |
| TerminalSanitizer.ControlSequenceGoes | cmd/hmcli/sanitize.go:80-91 | ESC [ with parameters 0x30 to 0x3f, intermediates 0x20 to 0x2f and a final rune 0x40 to 0x7e goes whole, whatever follows; one cut short goes up to there |
| TerminalSanitizer.SystemCommandGoes | cmd/hmcli/sanitize.go:92-104 | ESC ] goes with everything up to the first BEL or ESC \, or to the end |
| EventStream.BackoffIsExact | cmd/hmcli/events.go:292-298 | the shifted wait is the doubled one if and only if the shift does not overflow to something positive below the maximum; a policy exists whose third wait is four nanoseconds |
| EventStream.WrappedShift | cmd/hmcli/events.go:293 | a wrapped shift is still a multiple of the power of two |
| EventStream.WrapMeans | cmd/hmcli/events.go:293 | wrapping gives the value of 64 bits with a sign that differs by a multiple of 2^64 |
| EventStream.BackoffDoubles | cmd/hmcli/events.go:149-298 | if base times maximum fits in 63 bits, every attempt waits the minimum of the doubled base and the maximum; the default policy fits and waits half a second, doubled each time, over its five attempts |
| EventStream.BackoffGrows | cmd/hmcli/events.go:292-298 | then the waits never get shorter nor exceed the maximum |
| EventStream.StreamWithReconnect | cmd/hmcli/events.go:237-288 | its log is the run the environment dictates: each dial, stream and sleep with its outcome; it errs exactly when the failures since the last stable connection, that one's own drop included, are one more than maxRetries; it ends if stable connections are finitely many |
| EventStream.RunSleeps | cmd/hmcli/events.go:252-286 | a run sleeps only after a failure, while the failures are at most maxRetries, and for the backoff of their number |
| EventStream.RunIsUnique | cmd/hmcli/events.go:237-288 | policy and environment allow one run only, so that the contract leaves no choice |
| ConfigTree.RedactedLeaves | internal/configstore/store.go:904-930 | in a redacted section every secret leaf shows null and every other leaf what it held |
| ConfigTree.LookupMeans | internal/configstore/store.go:1012-1029 | what is looked up at a path of keys is what stands at its last key in the object at the keys before |
| ConfigTree.RestoredLeaves | internal/configstore/store.go:946-1009 | for every document and stored section, a null secret is the stored one or dropped, what the document supplies wins |
| ConfigTree.AssignsCommute | internal/configstore/store.go:987-1052 | treating two leaves that are no part of one another commutes |
| ConfigTree.RoundTripDropsNulls | internal/configstore/store.go:904-1052 | restoring a redacted section from itself drops its explicit null secrets and nothing else |
| ConfigTree.RoundTripIsExact | internal/configstore/store.go:904-1052 | so it gives the section back if and only if it has none |
| ConfigPort.RoundTripIsExact | cmd/openccu-loom/configcli.go:207-306 | importing an export into its own database changes nothing, in merge and in replace mode, if and only if the secrets were not withheld or no stored secret is an explicit null; centrals always come back whole but for their time stamps |
| ConfigPort.WithheldIsKept | cmd/openccu-loom/configcli.go:345-362 | for every edited document and database: a withheld secret keeps the stored value, a supplied one wins, other leaves are the document's |
| ConfigPort.CentralImported | cmd/openccu-loom/configcli.go:367-386 | a central becomes what the last row of its name says, with the stored password if a redacted document gives none, and a supplied password wins; a name the document lacks keeps its row, unless all is replaced |
| ConfigPort.SectionImported | cmd/openccu-loom/configcli.go:345-362 | a section the document lacks is kept, or gone if all is replaced; a document with its secrets is taken as it is |
| ConfigPort.ConfigStores.Export | cmd/openccu-loom/configcli.go:113-205 | without secrets every central's password is blank and every secret leaf of a section null where it exists, all other leaves and fields being those stored; with secrets everything is as stored; every central once |
| ConfigPort.ConfigStores.DeleteAllConfigRows | cmd/openccu-loom/configcli.go:315-339 | clears both stores, or fails leaving only rows that were there |
| ConfigPort.ConfigStores.UpsertImportedSections | cmd/openccu-loom/configcli.go:345-362 | writes every section of the document merged with the stored secrets, and nothing else |
| ConfigPort.ConfigStores.UpsertImportedCentrals | cmd/openccu-loom/configcli.go:367-386 | writes the rows in order with withheld passwords filled in, up to the first that is refused |
| ConfigPort.ConfigStores.Import | cmd/openccu-loom/configcli.go:207-306 | writes exactly the imported state; a dry run changes nothing; a failed import leaves only old sections and ones of the document, and loses none when merging |
| CallbackMetrics.Listener.OwnerOf | cmd/openccu-loom/callback_metrics.go:82-139 | finds the owner of a key, a notion that knows no registry order: the named central, else the one with the longest matching name, else the only one mentioned, else none |
| CallbackMetrics.OwnerIsUnique | cmd/openccu-loom/callback_metrics.go:82-139 | a key has at most one owner |
| CallbackMetrics.ReductionIs | internal/central/adapter/interface_id.go:98-112 | what an id is reduced to: prefix and instance name are taken off the front, the latter unless the central bears it |
| CallbackMetrics.MatchesMean | cmd/openccu-loom/callback_metrics.go:104-105 | a key matches a central if it is reduced to its name, a dash and something more |
| CallbackMetrics.MentionsMean | cmd/openccu-loom/callback_metrics.go:122 | a key mentions a central if its name stands in it, at the front, the end or anywhere between, set off by dashes |
| CallbackMetrics.RegisteredIdReduces | internal/central/adapter/interface_id.go:54-112 | the id a central registers is reduced to its name and the interface again |
| CallbackMetrics.TiesNeedTwoReductions | cmd/openccu-loom/callback_metrics.go:129-131 | two equally long names can only match through different reductions of the id |
| CallbackMetrics.OwnIdIsExact | internal/central/adapter/interface_id.go:54-112 | a callback for the id a central registered is charged to that central if and only if it has no rival |
| CallbackMetrics.OwnIdMatches | internal/central/adapter/interface_id.go:54-112 | which other centrals an id built for one central matches |
| CallbackMetrics.DashlessInterface | cmd/openccu-loom/callback_metrics.go:104-110 | for an interface without a dash the only rival is a central that bears the instance name and is no shorter |
| CallbackMetrics.Listener.CallbackStarted | cmd/openccu-loom/callback_metrics.go:43-53 | the owner's count is the number of its callbacks under way |
| CallbackMetrics.Listener.CallbackFinished | cmd/openccu-loom/callback_metrics.go:56-75 | it goes down by one again, so the floor at zero is never needed under a fixed registry |
| ModelDiff.CanonicalIsSeen | script/model_snapshot_diff.py:70-160 | the chain of canonicalisers computes, field by field, the value up to equivalent representations |
| ModelDiff.DiffDp | script/model_snapshot_diff.py:248-290 | the drift holds exactly the fields that disagree, with both values |
| ModelDiff.DiffDps | script/model_snapshot_diff.py:344-361 | the missing, the extra and the drifted data points of a collection are exactly those of the two indexes |
| ModelDiff.DiffChannel | script/model_snapshot_diff.py:308-363 | the drift holds exactly the differences that count in a channel, and our extras beside them |
| ModelDiff.DiffDevice | script/model_snapshot_diff.py:390-423 | the drift holds exactly the differences that count in a device, all its shared channels included |
| ModelDiff.CoveredIs | script/model_snapshot_diff.py:426-522 | one snapshot covers another if and only if no device is missing and there is no difference that counts |
| ModelDiff.FieldsCounted | script/model_snapshot_diff.py:293-402 | no field of a device or a channel is counted if and only if address, model and version of all shared devices are equal and the firmware equal or unknown on both sides, and the eight fields of all shared channels equal or empty on both sides or, for the name, none or the number |
| ModelDiff.IndexDpsMeans | script/model_snapshot_diff.py:88-106 | the index of a collection holds the last entry of each key: paramset and parameter, the category, or the parameter |
| ModelDiff.DecimalMeans | script/model_snapshot_diff.py:293-305 | a channel number is spelled in decimal digits without leading zeros |
| ModelDiff.CountDrift | script/model_snapshot_diff.py:466-505 | the counts of all shared devices are the sizes of the sets of their differences, none counted twice; drifted data points whose joined keys read alike are one difference |
| ModelDiff.Diff | script/model_snapshot_diff.py:426-522 | every bucket counts exactly its differences, none of a field if and only if all shared fields are alike as said above; exits 0 if and only if our snapshot covers the reference's, as it does when they are the same, 2 if and only if one is missing |
| ModelDiff.DriftCheck | script/model_snapshot_drift_check.py:79-162 | exits 0 if and only if every bucket keeps to its baseline and those without one are empty |
| ModelDiff.ZeroBaselinesAgree | script/model_snapshot_drift_check.py:105-162 | with all baselines zero the check passes on the diff's report if and only if the diff exits 0 |
| ModelDiff.DefaultBaselinesAllow | script/model_snapshot_drift_check.py:48-53 | with the default baselines it passes if and only if no device is missing, nothing but generic data points drifted, and at most ten of them |
| DevicePages.FetchAllDevices | cmd/hmcli/devices.go:138-155 | returns the pages up to the first at which the walk ends, within one request more than the pages of the largest announced total |
| DevicePages.FleetIsFetched | cmd/hmcli/devices.go:138-155 | against a fixed fleet that is exactly the fleet, in order, in as many requests as it has pages |
| DevicePages.FetchFleet | cmd/hmcli/devices.go:138-155 | the method run against any fixed fleet returns the fleet in one request a page, and one for an empty fleet |

## Left out

- Directories: the disk maps file paths to bytes. Directories are archived but never restored by the code, so an empty one does not come back; making one only asks the oracle. Permissions are not modelled.
- tar, gzip, encryption, SHA-256, JSON and `VACUUM INTO`: a member is its name and bytes, a digest an arbitrary function, a snapshot its bytes, a manifest the fields its document mentions and a length. That reading a member may fail, for instance at the decompression cap, is an oracle's answer.
- RestoreExact.OrderIsExact: needs every live file that is there to differ from the bytes staged over it, because a file replaced by its own bytes looks untouched either way.
- RestoreStat.BlindIsExact: needs the same.
- RestoreRoundTrip.RestoreOfBackup: that a failure changes nothing needs the config file outside the kept files, because otherwise the order of the commit is not one it can undo; both halves need a Stat that misses nothing or a disk on which that does no harm, as the exact theorems say.
- RestoreProofs.AllOrNothing: needs that no free name CreateTemp draws for a copy is a path or a temp of the set, and RestoreRun.BackupRestore the same of its temps; the program draws at random and does not check it.
- Several archived copies of a member: the later one is the one that is live, as in the code; the round trip is stated for archives `backup create` writes, which have none.
- Lifecycle: bring-up, scheduler, buses and domains are atomic steps with the effect their comments state; a hook is whether it attaches and whether it detaches. Health seeds and the un-ignore rows written before the registration, which a failed adopt leaves behind, are not part of the state compared.
- Lifecycle: the hub retraction, the Matter exposure rows and the retired Matter partition of a remove go with its eviction and purge and have no action of their own; the availability and climate closers count among the unwires.
- LiveAdmin.LiveCentralAdmin.Put: stated for a call that is alone on its name; what concurrent ones can do is in LiveAdminRaces. Names are taken to be valid already, as the REST handlers check; the store would trim one that is not.
- LiveAdmin.LiveCentralAdmin.Delete: the same. An error of the remove other than not-live, which it provides for, is an outcome given to it; the remove as it stands has none.
- LiveAdminRaces: one name, as the calls of others touch neither its row nor its registration; a teardown is one step, its registration being gone at the end of it.
- ConfigPort.RoundTripIsExact: leaves out `created_at` and `updated_at`, which the stores stamp; an import sets the latter, and in replace mode the former, to its own time.
- Paths: different spellings are one file if they clean to the same text. A relative path against an absolute one and symbolic links are taken to be resolved already.
- The Matter walk reads a central's whole model; that devices not released yet are filtered out of it, and the forgetting of deleted devices, are not part of this model.
- Liveness of the Matter pipeline: triggers that keep arriving within the debounce postpone the rebuild for ever, so only settled states are spoken of. Unsubscribing is not modelled.
- Real time: the debounce, the stability of a connection and the wait of a sleep are choices.
- Runes: the sanitizer is modelled on runes; bytes that are no valid UTF-8 reach it as replacement runes.
- Secrets: which leaves of a section are secret is a parameter, taken to be leaves that are no part of one another; JSON text, users and tokens of the export document, which an import skips, are left out.
- Gauges, counters and latencies of the callback metrics are reported outside the lock; only the counts are modelled, for a registry that does not change.
- ModelDiff: the printed report and the order of its lists are left out; how a value is spelled in a joined key is an arbitrary function. A numeric channel name is compared as a number, and sorting keys of mixed types, which Python refuses, succeeds here.
- WebSocket, HTTP, MQTT, TLS, mDNS, Matter nodes, flag parsing and table printing: plumbing without a property of its own.
- The composition root and the small prefix and boolean helpers: true but easy.
