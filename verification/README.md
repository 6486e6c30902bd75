# Verified models of ProxyPanel's stateful components

This project models, in Dafny 4.11, the parts of ProxyPanel whose correctness is a matter of state:
the transactional upgrade of the CLI, the versioned data upgrades of the database, the traffic
accounting and config handling of the agent, its process manager, and the Hub's rate limiter and
log writer. `dafny verify dfyconfig.toml` checks everything.

## How the models are built

Every file of the original becomes one or two modules. An operation that changes state appears
twice: as a method of a class that performs the same steps in the same order as the source, and as
a function from the old state and the outcomes of all its system calls to the new state. The
method's contract says that it leaves exactly what the function gives; the lemmas are about the
function, for all states and all outcomes. How each system call ends (a copy that fails after
writing part of its data, a service that does not come back, a process that exits at once) is an
input, so a lemma over all inputs is a lemma over every failure path. Where the order of a hash map
or of a directory listing matters, the method takes the entries in an arbitrary order.

| File | Component |
|---|---|
| FileTree.dfy | directory trees and the recursive copy |
| Backups.dfy | backup names, the newest backup, pruning |
| Upgrade.dfy, UpgradeTheorems.dfy, RollbackTheorems.dfy, UpgradeRuns.dfy | `upgrade` and `rollback` as functions, and what they promise |
| Installation.dfy | the same commands as methods; waiting for a stable service |
| Versions.dfy, DataUpgrades.dfy | the version order and the resumable upgrade runner |
| XrayPurge.dfy | the multi-table purge |
| Traffic.dfy | kernel totals, connection snapshots, per-user deltas |
| JsonText.dfy, TrafficStream.dfy | nesting of JSON texts; the chunked traffic stream |
| RateLimiter.dfy | the token bucket |
| CoreProcess.dfy | process manager, pidfile, reaping of orphans |
| CoreBinary.dfy | download, extraction and swap of core binaries |
| Snapshots.dfy | per-core config snapshots |
| ApplyProtocol.dfy | config pushes, commands, restart of the agent |
| LogQueue.dfy | the bounded log queue and its drain |
| PasswordTables.dfy | the user tables of the two config builders |

## What the models show about the code

Several properties the documentation suggests hold only under a condition; the condition is proved
exact where a lemma below says "if and only if".

- An upgrade that reports "rolled back" restores the web console if and only if no older web
  backup under the same label has paths of its own, because directory backups are laid over what is
  already there (`UpgradeIsTruthful`, with a concrete machine in `StaleLabelExample`).
- A status-file write that fails between stopping the service and replacing files leaves the service
  stopped; one that fails after a complete upgrade reports failure. Both have their exact condition
  (`EndingsAreDecided`, `UpgradeIsTruthful`) and a concrete machine (`StoppedServiceExample`,
  `LostReportExample`).
- A backup copy that fails half-way becomes the newest backup, and the next rollback installs it
  (`SpoiledRollbackExample`). What a rollback installs after any upgrade that gave up early, and when
  that is what was live, is exact (`RollbackAfterAbortedUpgrade`, `FailedBackupSpoilsRollback`).
- A rollback is not transactional: it stops at the first error and leaves a service it stopped down.
  When it succeeds is exact (`RollbackStopsAtTheFirstError`).
- A boot of an older binary lowers the recorded version once it gets that far, after which steps run
  again (`DowngradeExample`). Which boots lower it, which steps a boot runs, and when a run of boots
  keeps its promises are exact (`LoweredExactlyByOlderBinaries`, `BootRunsExactly`, `BootsKeep`).
- A connection that vanishes and comes back is counted again, by exactly its old counters
  (`UserTrafficBalance`, `ReturningConnectionExample`).
- A client that calls at a fixed interval just too short to earn a token earns none at all, since
  every call discards the fraction (`PeriodicClients`).
- The first traffic sample is independent of the chunking if and only if the object ends within
  8192 bytes (`ChunkingIndependence`).
- Stopping removes the pidfile even when no child is held, so a stop or restart after a crash that
  left an orphan loses the orphan, and a restart then leaves two cores (`StopKeepsTrack`,
  `RestartLeavesOneCore`, `TwoCoresExample`). An error of `try_wait` loses a live core as well (`WaitErrorLosesTheCore`).
  The condition under which each action keeps track of every core is exact (`StepKeeps`,
  `TrackedThroughout`).
- A skipped push leaves the core on the pushed config if and only if it is alive and not on the
  minimal config of a Start or Restart command (`SkippedPush`).
- A first installation that fails can leave a fragment the next call takes for an installed binary;
  exactly when is `FragmentExactlyWhen` and `FragmentPassesForInstalled`.
- Loading the snapshots twice can differ from loading once, if and only if a legacy snapshot is still
  waiting and only the second load can rename it (`LoadsAgree`, `DifferingLoadsExample`).
- The two config builders admit the same passwords if and only if the mihomo keys do not clash
  (`SamePasswords`, `ClashingNamesExample`).

## Modelling assumptions

- Files are byte strings in trees; modes, owners, links and directory-time subtleties are not
  modelled. A backup whose copy got to its destination carries that upgrade's time. What `--version`
  prints depends on the bytes of the binary only; the semantic-version order of the CLI is a given
  total order (section 11 of Semantic Versioning 2.0.0), represented by real-valued ranks.
- One SQL statement either removes its rows or, when it fails, any part of them; queries see the
  tables as they are. Each database operation of the upgrade runner succeeds or is where the boot ends.
- Counters and times are exact integers: 64-bit overflow and floating-point rounding are not modelled.
- The checks of the rate limiter are taken in the order of the times they read. The clock is read
  before the lock is taken, so concurrent checks can be processed out of order, and then a stretch of
  time is earned twice (`OutOfOrderExample`).
- A core whose guard is dropped lives on, as on Unix. On Windows dropping the guard of a bound child
  closes its job object, which kills it, so an error of `try_wait` does not lose a live core there.
- The build marker has no blanks at its ends, which the agent would trim before comparing.
- A successful `reload` command makes the running sing-box take the config it names.
- A child that has not been waited for keeps its process number, and new processes get free numbers.

## Model

| member | source | states |
|---|---|---|
| FileTree.OverlayAt | crates/pp-cli/src/ops/fsutil.rs:120-133 | at every path a copied tree holds the source's node, or the destination's where the source has none; an existing entry is kept where the source has only a directory |
| FileTree.SamePathsSameTree | crates/pp-cli/src/ops/fsutil.rs:120-133 | a tree is determined by what its paths hold, so the path-wise reference pins the copy down |
| FileTree.CopyToAbsent | crates/pp-cli/src/ops/upgrade.rs:355-366 | remove-then-copy reproduces the backup exactly |
| FileTree.OverlayIsExact | crates/pp-cli/src/ops/upgrade.rs:272-282 | copying onto an earlier backup gives exactly the source if and only if the earlier one has no path, and no file in place of a directory, that the source lacks |
| FileTree.OverlayFailsExactly | crates/pp-cli/src/ops/fsutil.rs:120-133 | a fault-free copy stops if and only if a file meets a directory, or a directory with something in it meets a file, somewhere in the trees |
| FileTree.CopyFile | crates/pp-cli/src/ops/fsutil.rs:45-50 | a file copy is the overlay of one file, fails on a directory, and on failure changes nothing but that file |
| FileTree.CopyDirRecursive | crates/pp-cli/src/ops/fsutil.rs:120-133 | for any order of directory entries the copy is the overlay when it succeeds, succeeds without faults exactly when the trees do not clash, and never touches a destination path the source lacks, even when it fails half-way or between two entries |
| Backups.OneOwner | crates/pp-cli/src/ops/fsutil.rs:152 | no backup entry belongs to two components although `proxy-panel` starts the other names |
| Backups.BackupNameMatches | crates/pp-cli/src/ops/fsutil.rs:140-142 | a backup's own name is found again by the scan, whatever the version or time in it |
| Backups.TakenExactly | crates/pp-cli/src/ops/fsutil.rs:140-161 | the scan takes exactly the names a backup can be given, and the component's name with `.bak` alone |
| Backups.NewestFirstSorts | crates/pp-cli/src/ops/fsutil.rs:159 | sorting by reversed time is a descending permutation |
| Backups.NewestFirstIsStable | crates/pp-cli/src/ops/fsutil.rs:159 | the sort is stable: backups of the same time stay in listing order |
| Backups.LatestIsNewest | crates/pp-cli/src/ops/fsutil.rs:145-161 | the backup found matches the component and is no older than any other match, and none is found only if none matches |
| Backups.PruneEffect | crates/pp-cli/src/ops/fsutil.rs:167-194 | pruning removes exactly the listed matching entries other than the first of the ranking |
| Backups.PruneSparesNewest | crates/pp-cli/src/ops/fsutil.rs:167-194 | the newest backup survives even when the scan stops early; after a full scan every other backup of the component goes |
| Backups.PruneKeepsOthers | crates/pp-cli/src/ops/fsutil.rs:176-180 | pruning never touches an entry that is not the component's, for any listing |
| Backups.PruneIsolated | crates/pp-cli/src/ops/fsutil.rs:167-194 | pruning one component never deletes another's backup |
| Backups.FindLatestBackupIn | crates/pp-cli/src/ops/fsutil.rs:145-161 | the loop and sort return a newest matching entry, or nothing exactly when nothing matches |
| Backups.PruneBackupsIn | crates/pp-cli/src/ops/fsutil.rs:167-194 | the loop leaves the directory the pruning function describes, failed removals included |
| UpgradeTheorems.ReplaceFacts | crates/pp-cli/src/ops/upgrade.rs:285-321 | a successful replacement has the new binary and console live, at the target version, with the service up again; it succeeds if and only if each of its steps works |
| UpgradeTheorems.ReplaceStopsAtTheFirstError | crates/pp-cli/src/ops/upgrade.rs:285-321 | what a replacement that fails leaves of binary, console and service: the console is touched only once the binary is in place, the service only once the version is right |
| UpgradeTheorems.RecoverFacts | crates/pp-cli/src/ops/upgrade.rs:323-352 | a recovery reported as successful has restored both backups and the service; it succeeds if and only if both restores work and the service comes back |
| UpgradeTheorems.RecoveryTriesEverything | crates/pp-cli/src/ops/upgrade.rs:323-352 | each part of a recovery is restored if its own restore works, whatever becomes of the others |
| UpgradeTheorems.RestoreFacts | crates/pp-cli/src/ops/upgrade.rs:355-366 | a restore that succeeds leaves exactly the backup, including absence; it succeeds if and only if no removal or copy it needs fails |
| UpgradeTheorems.RestoreLeaves | crates/pp-cli/src/ops/upgrade.rs:355-366 | what a restore that fails leaves behind |
| UpgradeTheorems.BackUpBothFacts | crates/pp-cli/src/ops/upgrade.rs:195-216 | after both backups, the binary's holds the live binary, and the console's holds the live console if and only if its label was clean |
| UpgradeTheorems.BackUpBothWorks | crates/pp-cli/src/ops/upgrade.rs:195-216 | both backups are made if and only if no copy fails or clashes with an older backup of the label |
| UpgradeTheorems.BackupsAreNamedAfterTheVersion | crates/pp-cli/src/ops/upgrade.rs:195-216 | backups carry the installed version in their name, or the time when nothing is installed |
| UpgradeTheorems.UpgradeIsTruthful | crates/pp-cli/src/ops/upgrade.rs:101-270 | Succeeded means the target is live and the service unchanged, or it was live already and nothing changed; RolledBack means binary and service as before and the console too if and only if its backup label was clean; any other ending changed nothing live, and leaves the service stopped if and only if the status write after stopping it failed, except a lost recovery or a lost last report; each exception is a condition on the inputs |
| UpgradeTheorems.EndingsAreDecided | crates/pp-cli/src/ops/upgrade.rs:141-270 | every way an upgrade can end has its exact condition on the machine and the system calls: already there, completed, stopped by a status write, restored, recovery lost, report lost |
| UpgradeTheorems.PlannedExactly | crates/pp-cli/src/ops/upgrade.rs:85-98 | an upgrade goes ahead if and only if nothing or an older version is installed, is skipped if and only if the same version is, and is refused otherwise |
| UpgradeTheorems.InstalledExactly | crates/pp-cli/src/ops/upgrade.rs:159-161 | a version is known exactly when a file is there, runs and answers one |
| UpgradeTheorems.ReportedExactly | crates/pp-cli/src/ops/upgrade.rs:117-138 | exactly when an upgrade is reported as succeeded and as rolled back |
| UpgradeTheorems.Components | crates/pp-cli/src/ops/upgrade.rs:24-53 | names, units and console of the three components |
| UpgradeTheorems.StatusFileNeverLies | crates/pp-cli/src/ops/maintenance.rs:93-143 | the status file ends on the true outcome, or on an earlier record when writes fail, never on a false outcome |
| UpgradeTheorems.NeverLowered | crates/pp-cli/src/ops/upgrade.rs:85-98 | an upgrade never lowers a known version unless its recovery is lost |
| UpgradeTheorems.FaultFreeUpgradeSucceeds | crates/pp-cli/src/ops/upgrade.rs:141-270 | without faults, a planned upgrade to a release that reports its version succeeds |
| UpgradeTheorems.SucceedsOrRollsBack | crates/pp-cli/src/ops/upgrade.rs:218-270 | whatever goes wrong while replacing and verifying, a working recovery ends in Succeeded or RolledBack |
| RollbackTheorems.RollbackFacts | crates/pp-cli/src/ops/upgrade.rs:408-446 | a successful rollback installs the newest backups, keeps them, and leaves the service as it was |
| RollbackTheorems.RollbackStopsAtTheFirstError | crates/pp-cli/src/ops/upgrade.rs:415-446 | a rollback succeeds if and only if there are backups, both restores work and the service comes back; otherwise it changed nothing for want of backups, or stopped at the binary, the console or the restart, with what came before done and a stopped service left down |
| RollbackTheorems.UpgradeBackups | crates/pp-cli/src/ops/upgrade.rs:195-266 | the only states an upgrade leaves the backup directory in, by how it ended |
| RollbackTheorems.UpgradeKeepsOneBackup | crates/pp-cli/src/ops/upgrade.rs:262-265 | after an upgrade that got through, the one backup of the component is the one it made and holds the previous binary, the one console backup likewise; an older one stays only if its removal failed, and nothing else is altered |
| RollbackTheorems.RollbackUndoesUpgrade | crates/pp-cli/src/ops/upgrade.rs:408-446 | rollback after an upgrade gives back the previous binary, and the previous console if and only if its label was clean, for any earlier backups and any ending after the backups were made, a failed recovery included |
| RollbackTheorems.SecondRollbackChangesNothing | crates/pp-cli/src/ops/upgrade.rs:407-446 | rollback does not consume backups: doing it again changes nothing |
| RollbackTheorems.RollbackAfterAbortedUpgrade | crates/pp-cli/src/ops/upgrade.rs:195-216 | what the rollback after any such upgrade installs, for binary and console: the target is untouched unless a backup copy failed half-way, whose fragment is then installed, or whose older backup of the same label is gone |
| RollbackTheorems.FailedBackupSpoilsRollback | crates/pp-cli/src/ops/upgrade.rs:195-216 | after an upgrade that gave up before stopping the service, a rollback leaves the binary (and the console) as it is if and only if a failed copy of it left exactly its source, or it had just been backed up, or the newest remaining backup holds it |
| UpgradeRuns.RunSparesOthers | crates/pp-cli/src/ops/upgrade.rs:101-446 | over any run of upgrades and rollbacks of other components, failing in any way, a component keeps its binary, console, service and backups |
| UpgradeRuns.VersionsNeverLowered | crates/pp-cli/src/ops/upgrade.rs:85-98 | over any run of upgrades in which no recovery is lost, no component's known version goes down |
| UpgradeRuns.StepIsCommand | crates/pp-cli/src/ops/upgrade.rs:101-446 | what a component sees after a command of its own is what the command leaves |
| UpgradeRuns.RunIsItsCommands | crates/pp-cli/src/ops/upgrade.rs:101-446 | a run is its commands one after another |
| UpgradeRuns.StaleLabelExample | crates/pp-cli/src/ops/upgrade.rs:205-216 | a concrete machine on which an upgrade reports a rollback but the console differs from before |
| UpgradeRuns.StoppedServiceExample | crates/pp-cli/src/ops/upgrade.rs:214-224 | a concrete machine on which a failed status write leaves a running service stopped |
| UpgradeRuns.LostReportExample | crates/pp-cli/src/ops/upgrade.rs:266-269 | a concrete machine on which an upgrade reports failure with the new version live |
| UpgradeRuns.SpoiledRollbackExample | crates/pp-cli/src/ops/upgrade.rs:198-202 | a concrete machine on which a failed upgrade leaves the binary alone and the next rollback installs a fragment |
| Installation.Target.BackUp | crates/pp-cli/src/ops/upgrade.rs:272-282 | the method leaves the backup directory its function gives |
| Installation.Target.RestoreBinary | crates/pp-cli/src/ops/upgrade.rs:355-366 | restoring in place, step by step, is the restore function |
| Installation.Target.RestoreWeb | crates/pp-cli/src/ops/upgrade.rs:355-366 | the same for the web console |
| Installation.Target.WriteStatus | crates/pp-cli/src/ops/maintenance.rs:93-143 | a status write changes the status file only, and only if it succeeds |
| Installation.Target.RestartService | crates/pp-cli/src/ops/upgrade.rs:339-345 | restart and wait change the service only, and only if it was active |
| Installation.Target.Replace | crates/pp-cli/src/ops/upgrade.rs:285-321 | the method performs the replacement the theorems are about |
| Installation.Target.RecoverAll | crates/pp-cli/src/ops/upgrade.rs:323-352 | every part of the recovery is attempted whatever happens to the others |
| Installation.Target.Prune | crates/pp-cli/src/ops/upgrade.rs:262-265 | pruning binary backups, then console backups for the Hub |
| Installation.Target.ReplaceFiles | crates/pp-cli/src/ops/upgrade.rs:225-269 | replacement, recovery on failure, pruning and the last status write |
| Installation.Target.SwapFiles | crates/pp-cli/src/ops/upgrade.rs:218-269 | the same from the moment the backups exist, stopping the service first |
| Installation.Target.Perform | crates/pp-cli/src/ops/upgrade.rs:141-270 | the whole of `perform_upgrade` leaves the state its function gives |
| Installation.Target.DoUpgrade | crates/pp-cli/src/ops/upgrade.rs:101-139 | the upgrade command with its final status |
| Installation.Target.DoRollback | crates/pp-cli/src/ops/upgrade.rs:408-446 | the rollback command leaves the state its function gives, on each early return too |
| Installation.WaitStable | crates/pp-cli/src/ops/systemd.rs:76-90 | the wait succeeds if and only if three consecutive of the thirty probes succeed |
| Versions.TotalPreorder | crates/pp-db/src/upgrade.rs:128-144 | the version order is reflexive, total and transitive, exchanging arguments reverses it, and equality means the same numbers and suffix kind |
| Versions.OrderOfVersions | crates/pp-db/src/upgrade.rs:126-144 | on the texts: one version comes before another if and only if the first differing number is smaller, or its numbers are a proper prefix, or the numbers are equal and it alone has a suffix |
| Versions.PreReleasesComeFirst | crates/pp-db/src/upgrade.rs:126-144 | any text followed by a dash and a suffix comes before the text itself |
| Versions.ParsesWritten | crates/pp-db/src/upgrade.rs:128-141 | parsing undoes writing, up to leading `v` and what the suffix says |
| Versions.ParsesNumerals | crates/pp-db/src/upgrade.rs:138 | exactly the numerals below 2^64, after at most one plus sign, are segments, with their value |
| Versions.NumbersJoin | crates/pp-db/src/upgrade.rs:135-139 | a part that is not a numeral is left out, the others stay in order |
| Versions.SegmentsTransitive | crates/pp-db/src/upgrade.rs:143 | lexicographic order of version segments is transitive |
| Versions.StepsStrictlyIncrease | crates/pp-db/src/upgrade.rs:39-60 | the shipped steps have strictly increasing versions above the legacy baseline |
| DataUpgrades.BootKeeps | crates/pp-db/src/upgrade.rs:64-94 | one boot of a binary not older than the recorded version, cut off anywhere, keeps the invariant, does not lower the recorded version and does not pass its own; a completed boot records its version |
| DataUpgrades.BootsKeep | crates/pp-db/src/upgrade.rs:64-94 | over any boots, each cut off anywhere: recorded versions never decrease, no step at or below a recorded version starts again, and every step up to the recorded version has finished, if and only if no boot of a binary older than what is recorded gets as far as recording its version |
| DataUpgrades.NewerBinariesNeverDowngrade | crates/pp-db/src/upgrade.rs:64-94 | boots with non-decreasing versions meet that condition |
| DataUpgrades.BootRunsExactly | crates/pp-db/src/upgrade.rs:72-86 | a boot cut off anywhere starts exactly the steps above the recorded version and up to its own that its operations reach, and finishes those it has one more operation for |
| DataUpgrades.BootCompletesExactly | crates/pp-db/src/upgrade.rs:64-94 | a boot completes if and only if it gets the operations it needs, and then its version is recorded |
| DataUpgrades.ReleasesFollowCandidates | crates/pp-db/src/upgrade.rs:62-86 | a database left by a pre-release still runs the step of the release |
| DataUpgrades.LegacyDatabaseRunsEverything | crates/pp-db/src/upgrade.rs:68-70 | a database without a recorded version counts as 0.1.0: every shipped step up to the binary's version is due |
| DataUpgrades.CompletedBootHasRunEverything | crates/pp-db/src/upgrade.rs:62-94 | after a boot that completes at version a, every step above the initial version up to a has finished |
| DataUpgrades.ShippedSteps | crates/pp-db/src/upgrade.rs:39-60 | the shipped steps meet the premise of the run theorem, and newer and newer binaries its condition |
| DataUpgrades.LoweredExactlyByOlderBinaries | crates/pp-db/src/upgrade.rs:88-91 | a boot, cut off anywhere, lowers the recorded version if and only if the binary is older and it gets three operations |
| DataUpgrades.OlderBinaryBoots | crates/pp-db/src/upgrade.rs:72-91 | an older binary's boot runs no step, and leaves the database alone or records its version |
| DataUpgrades.DowngradeRunsStepsAgain | crates/pp-db/src/upgrade.rs:72-91 | after a completed boot of one binary, a boot of another, cut off anywhere, starts and finishes exactly the steps above the first version and up to the second that its operations reach, whether or not they ran before |
| DataUpgrades.DowngradeExample | crates/pp-db/src/upgrade.rs:72-91 | a database at 0.3.2 started with 0.3.1 and then 0.3.2 runs the step of 0.3.2 a second time |
| DataUpgrades.Database.SetSystemVersion | crates/pp-db/src/upgrade.rs:104-124 | the recorded version is replaced or created |
| DataUpgrades.Database.RunVersionedUpgrades | crates/pp-db/src/upgrade.rs:64-94 | the loop over the steps is the boot the theorems are about, for every point at which operations start to fail |
| XrayPurge.PurgeResumes | crates/pp-db/src/upgrade.rs:149-219 | wherever the purge is cut off, rerunning it reaches exactly the uninterrupted result |
| XrayPurge.CutOffKeepsReferences | crates/pp-db/src/upgrade.rs:156-187 | at every such point no binding or group link has lost what it refers to |
| XrayPurge.CutOffAgain | crates/pp-db/src/upgrade.rs:149-219 | a cut-off rerun is again a cut-off purge of the original database |
| XrayPurge.RepeatedCutOffs | crates/pp-db/src/upgrade.rs:149-219 | the three properties hold at every point of any number of cut-off attempts |
| XrayPurge.PurgeIsComplete | crates/pp-db/src/upgrade.rs:146-219 | no xray row is left, nor any binding or link that led to an xray config before; every other row of all six tables is still there and unaltered, and nothing is added |
| XrayPurge.OnlyXrayGoes | crates/pp-db/src/upgrade.rs:149-200 | exactly the configs of core xray, the bindings to them, the links to those, and the versions and logs of xray go; every other row stays as it is |
| XrayPurge.NodesAreCleaned | crates/pp-db/src/upgrade.rs:202-217 | a node changes by its list of cores only |
| XrayPurge.FilterLength | crates/pp-db/src/upgrade.rs:207-213 | comparing lengths decides whether filtering a node's cores changed anything, and no xray entry remains |
| XrayPurge.FilterKeepsTheRest | crates/pp-db/src/upgrade.rs:202-217 | filtering a node's cores keeps every other entry as often as it was |
| XrayPurge.FilterJoins | crates/pp-db/src/upgrade.rs:207-213 | the list of cores is filtered entry by entry, in order |
| XrayPurge.Database.Delete | crates/pp-db/src/upgrade.rs:164-187 | a delete statement removes its rows or, failing, some of them, and no others |
| XrayPurge.Database.CleanNodes | crates/pp-db/src/upgrade.rs:202-217 | for any order of nodes each one is cleaned or, after a failure, untouched |
| XrayPurge.Database.PurgeXrayData | crates/pp-db/src/upgrade.rs:149-219 | the purge is complete when it succeeds, succeeds without faults, and is otherwise cut off at one of the points above |
| Traffic.TotalsAcrossRestarts | crates/pp-agent/src/reporter.rs:217-225 | for one counter over any number of core restarts the deltas add up to the carried total minus, at each restart, the smaller of the last counter before and the first after |
| Traffic.ReportsAreHonest | crates/pp-agent/src/reporter.rs:212-225 | for one counter, deltas are never negative and never exceed what was carried, and are exact if and only if nothing is hidden at a restart |
| Traffic.InboundIsReported | crates/pp-agent/src/reporter.rs:183-195 | the entries a collector reports add up, in each direction, to the deltas of that direction alone |
| Traffic.InboundAcrossRestarts | crates/pp-agent/src/reporter.rs:183-225 | so what a collector reports over any number of restarts is the carried total minus what each restart hides, in each direction, and all of it if and only if nothing is hidden |
| Traffic.EntryExactlyWhenGrown | crates/pp-agent/src/reporter.rs:189-196 | there is an entry for the totals exactly when a counter has grown |
| Traffic.MihomoTrafficState.Collect | crates/pp-agent/src/reporter.rs:413-429 | one collection reports exactly the run's new share of the totals; a failed one changes nothing |
| Traffic.SnapshotHoldsLastEvents | crates/pp-agent/src/reporter.rs:231-253 | a snapshot holds, for each connection, the last event that can be attributed to a client, and nothing else |
| Traffic.SnapshotTakes | crates/pp-agent/src/reporter.rs:231-253 | closed connections, events without a connection and connections without a user leave the snapshot as it was; any other event sets its entry |
| Traffic.ConnectionSnapshot | crates/pp-agent/src/reporter.rs:231-253 | the loop over events builds that snapshot |
| Traffic.UserDeltas | crates/pp-agent/src/reporter.rs:262-283 | for any iteration order the report has an entry for exactly the users with some non-zero delta, holding the sums over their connections |
| Traffic.ReportIsUnique | crates/pp-agent/src/reporter.rs:262-283 | the report does not depend on the iteration order |
| Traffic.ReportCountsAll | crates/pp-agent/src/reporter.rs:276-278 | leaving out zero deltas loses nothing |
| Traffic.ReportsAreNonNegative | crates/pp-agent/src/reporter.rs:262-283 | with counters from zero up no entry for a user is negative, whatever the counters do |
| Traffic.ListedExactlyWhenGrown | crates/pp-agent/src/reporter.rs:266-281 | a user is listed exactly when one of their connections has grown, or is new and has carried something |
| Traffic.UserTrafficBalance | crates/pp-agent/src/reporter.rs:255-283 | over any run with steady connections a user's reports add up to the last-seen counters plus exactly what returning connections had counted before |
| Traffic.UserTrafficIsConserved | crates/pp-agent/src/reporter.rs:255-283 | if no connection returns, a user's reports add up to the last-seen counters |
| Traffic.UserTrafficAlways | crates/pp-agent/src/reporter.rs:255-283 | over any run whatever, with counters that fall and connections that change user, reports plus the smaller of old and new counter of each surviving connection are last-seen counters plus those they replaced |
| Traffic.ReturningConnectionExample | crates/pp-agent/src/reporter.rs:255-283 | a connection that vanishes at 5 bytes and comes back at 7 is reported with 12 |
| Traffic.SingboxTrafficState.Collect | crates/pp-agent/src/reporter.rs:181-203 | one collection replaces the state by the sample, and reports exactly the run's new share, of the totals and for each user; a failed one changes nothing |
| JsonText.TextBalanced | crates/pp-agent/src/reporter.rs:461 | every JSON value is balanced: scanning it returns to the starting depth and never goes below |
| JsonText.ObjectPrefixesAreNotJson | crates/pp-agent/src/reporter.rs:461 | no proper prefix of a JSON object is a JSON text |
| TrafficStream.SampleAt | crates/pp-agent/src/reporter.rs:455-465 | of a stream read so far, the sample is there exactly when the whole first object is |
| TrafficStream.ReadFirstSample | crates/pp-agent/src/reporter.rs:432-452 | the reading loop, with its limit and its early ends |
| TrafficStream.EveryChunkingYieldsTheSample | crates/pp-agent/src/reporter.rs:432-452 | if the first line is an object ending within the limit, every way of chunking the stream yields its sample |
| TrafficStream.TheSampleIsRead | crates/pp-agent/src/reporter.rs:432-465 | in terms of the stream alone: if its first line is a JSON object the parser reads as a sample and ends within 8192 characters, that sample is read, however the stream is cut |
| TrafficStream.LateObjectIsMissed | crates/pp-agent/src/reporter.rs:436 | past the limit, a first chunk that fills the buffer misses the sample |
| TrafficStream.ChunkingIndependence | crates/pp-agent/src/reporter.rs:432-465 | the result is independent of the chunking if and only if the object ends within the limit |
| TrafficStream.ReadingsAreLawful | crates/pp-agent/src/reporter.rs:455-465 | the premise asked of the JSON parser is met by every reading of JSON texts that ignores blanks at the end |
| RateLimiter.IdleBucketIsFull | crates/pp-hub/src/rate_limiter.rs:50-53 | a bucket idle for an hour decides and continues as a new one, for any limit |
| RateLimiter.ZeroLimitAdmits | crates/pp-hub/src/rate_limiter.rs:29-31 | a limit of zero admits the request and changes no bucket |
| RateLimiter.EvictedExactly | crates/pp-hub/src/rate_limiter.rs:38-41 | beyond a thousand buckets exactly those idle for an hour are dropped |
| RateLimiter.CheckTouchesOneBucket | crates/pp-hub/src/rate_limiter.rs:43-60 | a check changes the bucket of its key and no other that it does not drop |
| RateLimiter.EvictionIsInvisible | crates/pp-hub/src/rate_limiter.rs:28-61 | over every run in time order, with any keys and limits, the evicting limiter decides as one that never evicts |
| RateLimiter.KeysAreIsolated | crates/pp-hub/src/rate_limiter.rs:28-61 | the decisions about a key are those of a run with that key's requests alone |
| RateLimiter.RateIsBounded | crates/pp-hub/src/rate_limiter.rs:43-60 | with a constant limit, the requests admitted for a key in any interval number at most the limit plus the interval's share of it |
| RateLimiter.OutOfOrderExample | crates/pp-hub/src/rate_limiter.rs:33-53 | three checks processed against the order of their times admit two requests at one instant under limit 1 |
| RateLimiter.SpacedClientsAreNeverRefused | crates/pp-hub/src/rate_limiter.rs:50-60 | a client whose requests are a minute divided by the limit apart is never refused |
| RateLimiter.FastBeatDrains | crates/pp-hub/src/rate_limiter.rs:50-60 | a client at a fixed shorter interval is admitted exactly as often as the first bucket allows, and never again |
| RateLimiter.PeriodicClients | crates/pp-hub/src/rate_limiter.rs:50-60 | a periodic client is never refused if and only if its interval earns a token or it stops within the first bucket |
| RateLimiter.Limiter.Allow | crates/pp-hub/src/rate_limiter.rs:28-61 | the method makes the decision and the update the theorems are about |
| RateLimiter.Limiter.Clear | crates/pp-hub/src/rate_limiter.rs:64-67 | clearing forgets every bucket |
| CoreProcess.AtMostOneCore | crates/pp-core/src/manager/singbox.rs:59-185 | under the manager's invariant at most one core is alive |
| CoreProcess.StartLeavesOneCore | crates/pp-core/src/manager/singbox.rs:59-136 | a successful start leaves exactly the new core alive, with the given config, also after a crash that left an orphan; a failed one keeps the invariant |
| CoreProcess.StartSucceedsExactly | crates/pp-core/src/manager/singbox.rs:59-136 | exactly when a start succeeds, and then a new core of the managed executable is alive, held and recorded; a failed start changes no field of the manager |
| CoreProcess.StartKeepsTrack | crates/pp-core/src/manager/singbox.rs:59-136 | a start keeps track of every core if and only if it kills the orphan there is and records the core that comes up |
| CoreProcess.StopKeepsTrack | crates/pp-core/src/manager/singbox.rs:138-152 | a stop keeps track of every core if and only if there is no orphan |
| CoreProcess.StopEffect | crates/pp-core/src/manager/singbox.rs:138-152 | a stop ends the held child and nothing else, and forgets child, guard and pidfile |
| CoreProcess.RestartLeavesOneCore | crates/pp-core/src/manager/mihomo.rs:160-164 | a successful restart leaves one core if and only if there was no orphan |
| CoreProcess.RestartKeepsTrack | crates/pp-core/src/manager/mihomo.rs:160-164 | a restart keeps track if and only if there is no orphan and the core that comes up is recorded |
| CoreProcess.TwoCoresExample | crates/pp-core/src/manager/singbox.rs:138-158 | a start, a death of the agent that its core survives and a restart leave two live cores |
| CoreProcess.PollKeeps | crates/pp-core/src/manager/singbox.rs:160-185 | a poll keeps the invariant and answers whether the held child is alive |
| CoreProcess.PollEffect | crates/pp-core/src/manager/singbox.rs:160-185 | a poll that finds the child gone forgets everything but the start time, and otherwise changes nothing |
| CoreProcess.ReloadKeeps | crates/pp-core/src/manager/singbox.rs:187-212 | a reload starts and stops nothing, keeps the invariant, and changes the running config only if it succeeds |
| CoreProcess.ReloadEffect | crates/pp-core/src/manager/singbox.rs:187-212 | a reload writes the config first and succeeds exactly when it is accepted |
| CoreProcess.ReapEffect | crates/pp-core/src/lifecycle.rs:96-119 | the reaper ends the process the pidfile names exactly when its executable is the managed one and the kill works, and nothing else |
| CoreProcess.KillsStayJustified | crates/pp-core/src/lifecycle.rs:96-119 | no action, guarded or not, kills anything but a process this agent or an earlier run started as the core, or one running the managed executable |
| CoreProcess.NothingElseIsKilled | crates/pp-core/src/lifecycle.rs:96-119 | the same over every run at all, orphans, failing system calls and swapped binaries included |
| CoreProcess.EveryDeathIsAKill | crates/pp-core/src/manager/singbox.rs:59-212 | a process that a call of the manager ends was a core of ours or ran the managed executable |
| CoreProcess.StepKeeps | crates/pp-core/src/manager/singbox.rs:59-185 | each call, child exit, foreign process, binary swap and agent crash keeps the invariant (a held process implies guard, start time and a pidfile naming it) if and only if its guard holds |
| CoreProcess.TrackedThroughout | crates/pp-core/src/manager/singbox.rs:59-212 | the invariant holds all through a run if and only if every action in it is guarded |
| CoreProcess.RunKeeps | crates/pp-core/src/manager/singbox.rs:59-185 | over every guarded run of starts, stops, restarts, reloads, polls, exits, swaps and crashes at most one core is alive and the manager knows it |
| CoreProcess.RunIsItsActions | crates/pp-core/src/manager/singbox.rs:59-212 | a run is its actions one after another |
| CoreProcess.BoundRunKeeps | crates/pp-core/src/lifecycle.rs:36-70 | where the system takes the child down with the agent, every run keeps to one core, whatever stops, restarts and swaps it contains |
| CoreProcess.WaitErrorLosesTheCore | crates/pp-core/src/manager/singbox.rs:129-185 | an error of `try_wait` loses the core if and only if there is a live one: the held one in a poll, the one that came up in a start |
| CoreProcess.Manager.Reap | crates/pp-core/src/lifecycle.rs:96-119 | the reaper removes the pidfile and kills only a matching process |
| CoreProcess.Manager.StartCore | crates/pp-core/src/manager/singbox.rs:59-136 | the method leaves the state the start function gives, on every return |
| CoreProcess.Manager.StopCore | crates/pp-core/src/manager/singbox.rs:138-152 | the method leaves the state the stop function gives |
| CoreProcess.Manager.RestartCore | crates/pp-core/src/manager/mihomo.rs:160-164 | stop, then start |
| CoreProcess.Manager.Poll | crates/pp-core/src/manager/singbox.rs:160-185 | a dead child clears process, guard and pidfile but not the start time |
| CoreProcess.Manager.ReloadCore | crates/pp-core/src/manager/singbox.rs:187-212 | the config file is written first, and the running core takes the config only if the command succeeds |
| CoreBinary.OldOrNew | crates/pp-agent/src/client.rs:451-498 | whatever fails, if a binary was there and moving it back works, the path holds the exact old binary or a fully extracted new one |
| CoreBinary.MarkerFollowsInstall | crates/pp-agent/src/client.rs:483-488 | the marker changes only when the install of that very call worked, whether the call succeeds or not; a call that succeeds and changes something records the build and leaves it, or a binary the two existence checks disagree on |
| CoreBinary.InstallsExactly | crates/pp-core/src/installer.rs:376-475 | exactly when an installation succeeds, and what is at the path then |
| CoreBinary.SwapEffect | crates/pp-agent/src/client.rs:451-498 | what a call leaves of binary, backup and marker, however it ends |
| CoreBinary.NewBuildsAreInstalled | crates/pp-agent/src/client.rs:451-498 | after a recorded install of a version and build, the same pair is not installed again, and another build of the same version is |
| CoreBinary.BrokenExactlyWhen | crates/pp-agent/src/client.rs:489-495 | the path is left with neither if and only if the install fails leaving something else and moving back fails |
| CoreBinary.FragmentExactlyWhen | crates/pp-core/src/installer.rs:414-475 | exactly when a first installation leaves a fragment |
| CoreBinary.SuccessIsCompleteUnlessFragment | crates/pp-core/src/installer.rs:381-475 | a successful installation leaves a complete build if and only if it did not find a fragment |
| CoreBinary.FragmentPassesForInstalled | crates/pp-core/src/installer.rs:381-475 | after a first installation, a later successful one leaves a fragment if and only if it sees the file and neither earlier attempt extracted the archive and the last one to touch the path left a fragment |
| CoreBinary.FragmentsStay | crates/pp-core/src/installer.rs:381-384 | no number of later installations repairs a fragment they see |
| CoreBinary.AlwaysComplete | crates/pp-agent/src/client.rs:451-498 | over any number of upgrades a complete binary stays complete |
| CoreBinary.RunIsItsRequests | crates/pp-agent/src/client.rs:451-498 | a run is its requests one after another |
| CoreBinary.BinaryDirectory.EnsureCoreBinary | crates/pp-core/src/installer.rs:376-475 | the two-attempt loop leaves the binary path its function gives |
| CoreBinary.BinaryDirectory.EnsureCoreBuild | crates/pp-agent/src/client.rs:451-498 | the swap leaves binary, backup and marker as its function gives |
| Snapshots.SaveIsCrashSafe | crates/pp-agent/src/persist.rs:31-58 | a save cut off at any point leaves, for the next load, the old snapshot of that core or the new one whole, and the other core's unchanged, however the load's migration goes |
| Snapshots.SaveEffect | crates/pp-agent/src/persist.rs:31-58 | a save that gets through leaves no temporary file; cut off before, it leaves every snapshot alone |
| Snapshots.LoadIsIdempotent | crates/pp-agent/src/persist.rs:84-117 | loading again with the same outcome of the migration changes nothing, in what is returned or on disk |
| Snapshots.LoadAfterLoad | crates/pp-agent/src/persist.rs:84-117 | a load after a load is one load whose rename works if either did |
| Snapshots.LoadsAgree | crates/pp-agent/src/persist.rs:84-117 | two loads return the same if and only if no waiting legacy snapshot is renamed by the second alone |
| Snapshots.DifferingLoadsExample | crates/pp-agent/src/persist.rs:84-117 | a legacy snapshot that cannot be renamed at first is returned by the second load only |
| Snapshots.MigrationKeepsSnapshots | crates/pp-agent/src/persist.rs:84-103 | migration never replaces a per-core snapshot and loses no legacy snapshot it could keep |
| Snapshots.LegacyGoesExactly | crates/pp-agent/src/persist.rs:84-103 | exactly when the legacy file is gone after a migration |
| Snapshots.LoadReturnsLastSaved | crates/pp-agent/src/persist.rs:31-117 | over any run of saves, each cut off anywhere, and reloads, whatever their migrations do, a load returns the last snapshot saved, or before any save what the directory held at the start |
| Snapshots.Store.SaveLastConfig | crates/pp-agent/src/persist.rs:31-58 | write to a temporary file, then rename, dying at any point |
| Snapshots.Store.LoadLastConfigs | crates/pp-agent/src/persist.rs:107-117 | the list returned is that of the readable snapshots, in the fixed order of cores |
| ApplyProtocol.PushKeeps | crates/pp-agent/src/client.rs:368-442 | a push keeps the invariant: one core at most, running the persisted config or, after a command, the minimal one |
| ApplyProtocol.CommandKeeps | crates/pp-agent/src/client.rs:500-557 | start, stop and restart commands keep it |
| ApplyProtocol.StopCommandStops | crates/pp-agent/src/client.rs:534-539 | a Stop command succeeds and leaves no core alive |
| ApplyProtocol.StartCommandStarts | crates/pp-agent/src/client.rs:504-533 | a Start command succeeds if and only if the held core is alive, and then changes nothing, or a new one comes up, on the minimal config |
| ApplyProtocol.RestartCommandRestarts | crates/pp-agent/src/client.rs:540-552 | a Restart command succeeds if and only if a new core comes up, on the minimal config; the old one is gone |
| ApplyProtocol.AgentRestartKeeps | crates/pp-agent/src/main.rs:126-152 | the death and return of the agent keep it |
| ApplyProtocol.AgentRestartRestores | crates/pp-agent/src/main.rs:126-152 | an agent that comes back has a live core on the snapshot's config exactly if it comes up |
| ApplyProtocol.AgentRunKeeps | crates/pp-agent/src/client.rs:368-557 | every orderly run of pushes, commands, polls, core exits and agent crashes keeps it |
| ApplyProtocol.RunIsItsEvents | crates/pp-agent/src/client.rs:368-557 | a run is its events one after another, each doing what its handler does |
| ApplyProtocol.AgentBoundRunKeeps | crates/pp-agent/src/client.rs:368-557 | where the system takes the core down with the agent, no condition on orphans is needed |
| ApplyProtocol.SkippedExactly | crates/pp-agent/src/client.rs:376-391 | only a push of the recorded, non-empty version that asks for no restart is skipped |
| ApplyProtocol.PushTakesEffect | crates/pp-agent/src/client.rs:392-442 | any other push, restarting or reloading: exactly when it succeeds, that the pushed config then runs and is recorded, and what a failed one leaves |
| ApplyProtocol.SkippedPush | crates/pp-agent/src/client.rs:376-391 | a skipped push changes nothing, and the pushed config is running if and only if a core is alive and not on a command's minimal config |
| ApplyProtocol.UnsavedPush | crates/pp-agent/src/client.rs:435-439 | an applied push whose snapshot is not saved, restarting or reloading, keeps the invariant if and only if no core is alive or the persisted config is the pushed one |
| ApplyProtocol.Session.HandleConfigPush | crates/pp-agent/src/client.rs:368-442 | the method leaves the state the push function gives, on every return |
| ApplyProtocol.Session.HandleCoreCommand | crates/pp-agent/src/client.rs:500-557 | the same for commands |
| ApplyProtocol.Session.RestoreLastConfig | crates/pp-agent/src/main.rs:126-152 | a fresh agent starts the core from its snapshot |
| LogQueue.EveryEventIsAccountedFor | crates/pp-hub/src/logging.rs:30-146 | for every interleaving of the steps of producers, writer and owner, logged events are insert attempts, the record in flight, queued records, and printed, counted or still uncounted drops; accepted records are attempted once, in order |
| LogQueue.RecordedExactly | crates/pp-hub/src/logging.rs:36-43 | events of level info and up from the hub and its libraries are recorded, and no others |
| LogQueue.WriterIsNotTraced | crates/pp-hub/src/logging.rs:36-43 | the writer's own events reach neither queue nor drop count |
| LogQueue.RecordsHaveMessages | crates/pp-hub/src/logging.rs:44-52 | a record keeps level, source and message, and a message is made up when there is none |
| LogQueue.AcceptedExactly | crates/pp-hub/src/logging.rs:53-55 | a send is accepted exactly while fewer than 512 records are queued and the queue is open |
| LogQueue.CountsExactly | crates/pp-hub/src/logging.rs:53-55 | each refused send is counted once |
| LogQueue.StopCloses | crates/pp-hub/src/logging.rs:97-127 | a stop is noticed by the waiting writer, and only a stop closes the queue |
| LogQueue.DrainProgress | crates/pp-hub/src/logging.rs:115-146 | once closed nothing enters the queue, no record is lost or reordered, and each step of the writer brings its end one step closer |
| LogQueue.ShutdownDrains | crates/pp-hub/src/logging.rs:97-146 | after the writer has noticed the stop, it has ended if and only if it has made the steps it had left, with everything accepted attempted |
| LogQueue.LogPipeline.TrySend | crates/pp-hub/src/logging.rs:53 | a send is refused exactly when the queue is full or closed |
| LogQueue.LogPipeline.OnEvent | crates/pp-hub/src/logging.rs:30-57 | an event is filtered, queued or counted as dropped, with anything happening between the refusal and the count |
| LogQueue.LogPipeline.RequestStop | crates/pp-hub/src/logging.rs:97-98 | stopping only raises the signal |
| LogQueue.LogPipeline.Insert | crates/pp-hub/src/logging.rs:137-141 | the insert of the record in flight, producers running meanwhile |
| LogQueue.LogPipeline.Turn | crates/pp-hub/src/logging.rs:115-146 | one turn of the writer: close on the signal, or take a record, insert it while others go on, and print the drops |
| PasswordTables.DecimalInjective | crates/pp-config/src/mihomo.rs:157 | printed numbers determine the number |
| PasswordTables.TableKeepsAll | crates/pp-config/src/mihomo.rs:146-163 | the map keeps one entry per client with a password, and every password, if and only if the keys do not clash |
| PasswordTables.NamedExactly | crates/pp-config/src/mihomo.rs:155-161 | the name of a mihomo user: name, else e-mail, else "user" and its number |
| PasswordTables.MihomoListsEveryone | crates/pp-config/src/mihomo.rs:146-163 | with keys that do not clash every client with a password is listed under its name with that password |
| PasswordTables.SingBoxListsEveryone | crates/pp-config/src/singbox.rs:492-503 | sing-box lists every client in order, by name and password |
| PasswordTables.FallbackUsers | crates/pp-config/src/singbox.rs:504-516 | without clients both builders fall back on the password of the settings |
| PasswordTables.SamePasswords | crates/pp-config/src/singbox.rs:492-516 | both builders admit the same non-empty passwords, each as often, if and only if the mihomo keys do not clash |
| PasswordTables.ClashingNamesExample | crates/pp-config/src/mihomo.rs:146-163 | two clients of one name: sing-box admits both passwords, mihomo only the second |
| PasswordTables.PlainNamesSuffice | crates/pp-config/src/mihomo.rs:155-161 | distinct explicit names, none of the form "user" plus a number, never clash with each other or with generated keys |
| PasswordTables.PasswordUsers | crates/pp-config/src/mihomo.rs:146-171 | the loop builds the map the theorems are about |

## Left out

- The web panel, HTTP routes, command-line parsing, gRPC transport and subscription formats: plumbing around the modelled state.
- Hub-side push logic, API-key middleware and scheduler: not part of this model.
- Downloads, checksums, archive formats and `validate_archive`: they appear only as succeeding or failing steps.
- The maintenance lock: upgrades and rollbacks are taken one at a time.
- Messages and timestamps of the status record: only its outcome is modelled.
- `refresh_singbox_builtin_template` and the effect of other upgrade steps on data: a step is its start and its end.
- References from `relay_rules` and `inbound_hosts`: the purge does not look at them.
- The legacy HTTP traffic API, the reporting intervals and the choice between the two APIs.
- Text outside ASCII in the traffic stream, and what a JSON parser accepts beyond nesting, which enter as premises on the parser.
- The five-second shutdown timeout of the log writer, redaction and the two-second insert timeout: timing only.
- Metadata that cannot be read during a scan of the backup directory, and a `read_dir` error of the pruning scan other than stopping early.
- ApplyProtocol.SkippedPush: identifies a version with one config, as a content hash does.
