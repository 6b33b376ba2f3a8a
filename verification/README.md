# Mission Center: models of its transactions and bounded views

Mission Center installs and publishes plugin packages, registers them with a local marketplace, and prepares bounded
views of a workspace. This project models that behaviour in Dafny and proves what it promises. Each module follows
one component; `dafny verify dfyconfig.toml` checks all of them.

## What is modelled

**The install transaction** (`InstallModel` and the modules after it). An install copies a package to a temp beside
each destination, writes a receipt, and then, target by target, renames the destination to a backup, writes the
receipt, renames the temp into place, and writes the receipt again. A failed step is undone in process; a dead process
is undone later by a rollback or a reconcile that sees only the durable receipt.

- A `World` holds the file map, the durable receipts, the count of unfinished receipt files, the lock, a log of begun
  deletions, and a *script*: for each coming step, whether it succeeds, fails, or is the last one. Every theorem that
  does not mention the script holds for every script.
- The functions of `InstallModel` give the outcome of every operation. `InstallPublisher` holds the same operations as
  a class with fields, loops and early returns, each proved to reach exactly the state of its function; the public
  methods also state what they promise their callers.
- `RestoreProofs` and `SwapProofs` treat one step and one loop; `InstallTheorems` and `InstallRecovery` hold the
  crash, abort and recovery results; `InstallCleanup` says what a failure before the first receipt leaves and what is
  reported; `InstallEvents` how calls meet their events; `InstallReconcile` and `InstallCrashes` treat several started
  receipts at once; `InstallRefusals` outside edits; `InstallReceipts` the receipt invariant over every run;
  `InstallHistory` whole histories over overlapping destinations; `InstallSurvival` and `InstallLimits` the exact points
  where the promises end.

**Marketplace registration** (`RegistrationModel`, `RegistrationProofs`, `RegistrationReconcile`,
`RegistrationReplay`, `RegistrationRollback`, `RegistrationStore`) swaps one manifest file with an optional backup and has
no phases in its receipt. **The staged publish** (`StagedPublish`, `StagedPublishLimits`, `PublishTransaction`) is the
in-process transaction of the Python publisher; any of its steps can raise, those of its rollback included.

**The bounded views and parsers**: the two calendar conversions (`Calendar`), the packets that declare their own size
(`SelfCounting`, `Json`, `JsonText`, `BoundedResult`, `ResumePacket`), the strict base64 decoder (`Base64`), the
supersedes checks in both formulations (`Supersedes`), the Pareto filter (`Pareto`), the working-set selector
(`WorkingSet`, `WorkingSetOrder`), and the table printer and parser (`TableCells`, `TableRows`). `FrozenDigest` is the
byte framing behind the package digest.

## Assumptions

- Destinations are not nested in each other; the program rejects only duplicates and overlap with the package or the
  transaction root. The file system is a map from paths to trees.
- Temps and backups have names of their own, different for every operation, nonce and index; for installs this is
  built into the type of paths, for the other two transactions it is a hypothesis.
- A crash leaves the lock directory behind. Recovery starts after it has been cleared (`Reboot`).
- The hash is any function of the digest input. Where a result needs the old tree to hash differently from the package,
  it says so (`OriginalsDiffer`, `OldDiffers`). `InstallSurvival.OriginalsSurviveIff` says exactly when an old tree can
  be lost under a started or committed install receipt, and the two `OldManifestSurvivesIff` say the same of an old
  manifest under a started and under a committed registration.
- A rename onto an occupied path fails in the install model, as for directories; in the registration model it replaces
  the file. Receipt writes are atomic; an interrupted one can leave an unfinished sibling file.

## Findings

Where a promise fails, a lemma shows an input, and another the exact condition.

- An interrupted receipt write leaves a `json.<nonce>.tmp` file, and reconcile refuses as long as it is there, although
  the rollback of the same install receipt would succeed (`InstallCrashes.CrashThenReconcileAll`). A started
  registration has no other way back: rollback takes committed ones only, so it stays started until somebody
  removes the file (`RegistrationReconcile.LeftoverBlocksForEver`, input in
  `RegistrationReconcile.CommitThatDiesIsStuck`).
- A rename that fails, followed by a crash inside the in-process undo, can leave the old tree home under a receipt that
  says backed up (`InstallLimits.UndoThatDies`). If the old tree does not hash like the package, every later rollback
  and reconcile refuses; no tree is lost, but recovery needs a person. If it does, as when the same package is
  installed again under a new id, the next rollback deletes it.
- Interrupted rollbacks can lose an old tree if and only if they are not refused from the start and either one of the
  trees at risk has left its backup or the one that comes home first hashes like the package
  (`InstallSurvival.OriginalsSurviveIff`). After a committed install that is the tree of the last occupied destination
  (`InstallSurvival.CommittedSurvivesIff`), after a crash the last one recorded as backed up or swapped
  (`InstallSurvival.CrashedSurvivesIff`).
- Several started receipts can stand over the same paths once the lock of a dead process has been cleared. Reconcile
  takes them in the order of their names and stops at the first one it refuses; listed latest first they are all
  undone (`InstallCrashes.LatestFirstRecovers`), in the other order the first one can be refused and hide the rest
  (`RegistrationReconcile.TwoCrashes`, `RegistrationReconcile.ReconcileInOrder`).
- A rollback checks every target before it changes one, so that a refusal changes nothing. This fails for a swapped
  target whose temp exists and whose destination does not: the checking pass skips it and the restoring pass stops at
  it (`InstallRefusals.RefusesHalfway`). The files are unchanged if and only if the refusal came from the checking pass
  or the lock, or every target above the last blocked one has nothing to restore (`InstallRefusals.RefusalLeavesFiles`).
- A staging conflict leaves the package in the temps of all earlier targets, so it changes the files if and only if it
  is not at the first target (`InstallLimits.TakenSlotLeavesTemps`).
- A copy that dies leaves its temp, and no receipt names it (`InstallLimits.CopyThatDies`). In a live process every
  failure before the first receipt deletes what it can (`InstallCleanup.FailedInstallTidies`), while a registration that
  cannot write its temp to the end leaves it (`RegistrationProofs.UnrecordedLeavesTemp`).
- A lock whose owner file cannot be written stays, and everything is refused until somebody clears it
  (`InstallEvents.InstallMeets`, `InstallLimits.LockedForEver`).
- Registration recovery: a crash before the first rename over a manifest with the same digest lets reconcile delete the
  manifest (`RegistrationReconcile.CrashThenReconcile`). The old manifest survives all interrupted reconciles if and
  only if its digest differs or an unfinished receipt file stops them (`RegistrationReconcile.OldManifestSurvivesIff`);
  equal digests are common, since the manifest does not render the version.
- Registration rollback: it can be resumed after an interruption if and only if a manifest that hashes to the receipt
  stands (`RegistrationRollback.ResumableIff`); dying between deletion and rename therefore blocks it for good, and
  reconcile skips it (`RegistrationRollback.DiesAtRename`, `RegistrationRollback.StuckForEver`). Dying after the rename
  loses the old manifest at the next attempt if and only if the digests are equal
  (`RegistrationRollback.OldManifestSurvivesIff`).
- The best-effort undo of a failed registration writes an aborted receipt even if the old manifest is left in the
  backup (`RegistrationRollback.AbortedWithoutManifest`; exact condition in `RegistrationProofs.UndoRestoresIff`).
- The staged transaction of the local publisher: if a step raises inside the rollback of a failed commit, the caller
  runs the rollback again over the uncleared list and deletes every tree that the first one had already restored
  (`StagedPublish.CallersRollbackIff`). Exactly the transactions described in `StagedPublishLimits.CallerRestoresIff`
  are safe from this. The publisher's own have at most two entries and are safe
  (`StagedPublishLimits.PublishersRollbackRestores`); from three replaced targets on the class fails
  (`StagedPublishLimits.UnsafeCallerLoses`).
- Splitting a table row takes a bar after any backslash for an escaped one at its end, so a last cell that ends with an
  escaped backslash gains an empty cell behind it (`TableRows.EscapedBackslashBeforeTheLastBar`). Printed rows have a
  space there and are not affected (`TableCells.RowRoundTrip`).

## Model

| member | source | states |
|---|---|---|
| FrozenDigest.FrameLayout | rust/mission-center-publish/src/lib.rs:1170-1176 | where the parts of a frame stand and what they say: path length (eight bytes, most significant first), path, executable flag, content length, content |
| FrozenDigest.FrameIsPrefixFree | rust/mission-center-publish/src/lib.rs:1170-1176 | no framed file (length, path, flag, length, bytes) can be mistaken for the start of another, whatever follows |
| FrozenDigest.FramedInjective | rust/mission-center-publish/src/lib.rs:1168-1178 | two file lists with the same digest input are the same list |
| FrozenDigest.SortedListsAgree | rust/mission-center-publish/src/lib.rs:595-631 | two packages sorted by path that hold the same files are the same list |
| FrozenDigest.DigestInputIdentifiesFiles | rust/mission-center-publish/src/lib.rs:595-631 | sorted packages have the same digest input if and only if they hold the same files |
| RestoreProofs.RestoreTargetStep | rust/mission-center-publish/src/lib.rs:2685-2736 | restoring one target under either policy: from a ready state it completes or is stopped by a fault, never by a conflict; on completion the old tree (or its absence) is back; stopped anywhere, it stays recoverable for the durable phase, which may lag the phase in memory; no other path changes |
| RestoreProofs.RestoreDownKeeps | rust/mission-center-publish/src/lib.rs:2676-2739 | the same for all targets in reverse order, for any fault at any step |
| SwapProofs.SwapTargetStep | rust/mission-center-publish/src/lib.rs:1791-1804 | one round of the swap loop, stopped anywhere: the durable receipt lags the file system by at most one rename, the receipt in memory never lags the second rename |
| SwapProofs.SwapFromKeeps | rust/mission-center-publish/src/lib.rs:1790-1806 | the whole loop, stopped anywhere: every target is in a state its durable phase allows and a state its phase in memory allows, and nothing else changed |
| InstallTheorems.AbortRestores | rust/mission-center-publish/src/lib.rs:1807-1815 | after any stop of the swap loop the strict undo never raises a conflict; without further faults it restores the original files exactly |
| InstallTheorems.AbortEnds | rust/mission-center-publish/src/lib.rs:1807-1815 | the undo and its receipt under any further faults: aborted with the original files, or still started and recoverable; without further faults always aborted |
| InstallTheorems.SwapAllEnds | rust/mission-center-publish/src/lib.rs:1790-1820 | for every script of faults the durable receipt tells the truth: committed means every destination holds the package, aborted means the original files, started means recoverable; a single failed step ends aborted (or committed in all but the last receipt) |
| InstallTheorems.StageFromKeeps | rust/mission-center-publish/src/lib.rs:1742-1773 | staging changes nothing but temps of this request, and on success every target is staged |
| InstallTheorems.EarlierReceiptDecides | rust/mission-center-publish/src/lib.rs:1715-1738 | an earlier receipt either lets the install start afresh, or settles it without changing anything |
| InstallTheorems.InstallEnds | rust/mission-center-publish/src/lib.rs:1690-1820 | every input and every script: either no receipt changed and only temps of this request may be left, or the operation is recorded truthfully; with no fault and nothing in the way it commits |
| InstallCleanup.FailedInstallTidies | rust/mission-center-publish/src/lib.rs:1762-1789 | an install that is refused or fails with the receipts as they were, all its names having been free: whatever it left it had tried to delete, unless it died; after a single failed step the files are as they were |
| InstallCleanup.InstallReports | rust/mission-center-publish/src/lib.rs:1697-1761 | what an install reports once it has the lock: wrong count, corrupt or conflicting earlier receipt and repeated destination each have their code and change nothing; a replayed commit succeeds; everything else is a taken name, an input/output error or a death |
| InstallEvents.InstallMeets | rust/mission-center-publish/src/lib.rs:2411-2443 | an install meets its events in order and ends with the first fatal one: it counts as dead exactly then; unfinished receipt files are never removed, and the lock is held afterwards exactly if it was before, its owner file failed, or the process died holding it |
| InstallEvents.RollbackMeets | rust/mission-center-publish/src/lib.rs:2235-2285 | the same for a rollback |
| InstallEvents.ReconcileMeets | rust/mission-center-publish/src/lib.rs:2293-2337 | events and unfinished files likewise for a reconcile of any listing |
| InstallEvents.StraysBlockReconcile | rust/mission-center-publish/src/lib.rs:2303-2312 | once an unfinished receipt file is there, no run of calls, restarts and edits gets a reconcile through |
| InstallTheorems.RollbackFromReady | rust/mission-center-publish/src/lib.rs:2235-2285 | a rollback under any script ends undone or still undoable; without faults it completes exactly if every target is acceptable |
| InstallTheorems.RerunsKeepUndoable | rust/mission-center-publish/src/lib.rs:2277-2283 | any number of interrupted rollbacks of an old tree that hashes differently: undone completely, or still undoable with the receipts untouched |
| InstallTheorems.RecordedIsUndoable | rust/mission-center-publish/src/lib.rs:1786-1819 | whatever ended a recorded install, a receipt that is not aborted can be undone from where the files are |
| InstallRecovery.CrashAtomicity | rust/mission-center-publish/src/lib.rs:1786-1819 | any number of targets, a crash at any step: nothing recorded, or committed everywhere, or the next fault-free rollback brings back exactly the files from before, with no temp and no backup |
| InstallRecovery.ReconcileIsRollback | rust/mission-center-publish/src/lib.rs:2321-2336 | reconcile over a listing with one started receipt is the rollback of that operation, refused or not |
| InstallReconcile.RestoreDownLocal | rust/mission-center-publish/src/lib.rs:2681-2739 | a fault-free restore reads and writes the slots of its own targets only: the same slots give the same result |
| InstallReconcile.ReconcileEachAlone | rust/mission-center-publish/src/lib.rs:2321-2336 | reconcile over any valid receipts whose started ones share no path: each is rolled back exactly as it would be alone, up to the first one that is refused; everything else, files and receipts, is untouched; it completes if and only if none is refused |
| InstallCrashes.CrashThenReconcileAll | rust/mission-center-publish/src/lib.rs:2293-2337 | an install that died, then a fault-free reconcile over any listing, valid or not, whose other started receipts have no path in common with it: with an unfinished receipt file it refuses and changes nothing; otherwise, if the listing before it goes through, every path of the crashed install is as before and its receipt is aborted; if not, it is untouched |
| InstallCrashes.LatestFirstRecovers | rust/mission-center-publish/src/lib.rs:2320-2336 | any number of installs over any destinations, shared or not, each dying at any step with the lock cleared in between: a fault-free reconcile that lists the latest first brings back the files from before all of them, unless an unfinished receipt file makes it refuse |
| InstallCrashes.ReconcileStopsAtInvalid | rust/mission-center-publish/src/lib.rs:2328-2333 | under any script a listed receipt that is not valid ends the scan as corrupt if the listing before it goes through, with what was done before it done |
| InstallCrashes.CompleteReconcileSettles | rust/mission-center-publish/src/lib.rs:2293-2337 | an unfinished receipt file or more than 256 receipts are refused without change; a reconcile that completes leaves no listed receipt started |
| InstallRecovery.InterruptedRecovery | rust/mission-center-publish/src/lib.rs:2676-2773 | however often recovery dies: every original tree is at its destination or its backup; the next fault-free attempt completes if and only if all targets are acceptable and otherwise refuses before changing a file |
| InstallRecovery.InstallThenInterruptedRecovery | rust/mission-center-publish/src/lib.rs:1690-1820 | the survival of original trees for what any install under any script leaves behind |
| InstallSurvival.InstallIsCommittedOver | rust/mission-center-publish/src/lib.rs:1790-1819 | every committed install leaves the package everywhere and the old trees in the backups |
| InstallSurvival.DiesOnceHome | rust/mission-center-publish/src/lib.rs:2277-2283 | with every tree at risk saved and the one that comes home first hashing like the package: some rollback dies with that tree home, the receipt as it was, and nothing to stop the next rollback |
| InstallSurvival.DeletesLookalike | rust/mission-center-publish/src/lib.rs:2703-2731 | a fault-free rollback deletes a tree that hashes like the package and has no backup, under the phases backed up and swapped, whatever it is |
| InstallSurvival.OriginalsSurviveIff | rust/mission-center-publish/src/lib.rs:2676-2773 | any started or committed receipt that recovery can take up: every old tree survives every sequence of interrupted rollbacks if and only if a rollback refuses from the start, or every tree at risk (phase backed up or swapped, destination occupied before) is still in its backup and the one with the highest index does not hash like the package |
| InstallSurvival.CommittedSurvivesIff | rust/mission-center-publish/src/lib.rs:2711-2773 | after a committed install: every old tree survives every sequence of interrupted rollbacks if and only if the old tree of the last occupied destination does not hash like the package |
| InstallSurvival.CrashedSurvivesIff | rust/mission-center-publish/src/lib.rs:1786-1819 | after an install that died at any step with its transaction recorded: the same, for the last occupied destination whose phase is backed up or swapped |
| InstallLimits.UndoThatDies | rust/mission-center-publish/src/lib.rs:1807-1815 | a failed rename followed by a crash inside the undo: the old tree is home and the receipt says backed up; if the old tree does not hash like the package, every later rollback refuses without changing anything; if it does, the next fault-free rollback completes with nothing at the destination and nothing in the backup |
| InstallLimits.TakenSlotLeavesTemps | rust/mission-center-publish/src/lib.rs:1756-1761 | an install that is otherwise in order commits if and only if no temp or backup name is taken; if one is, it is refused with the package left in the temps before it, so the files are unchanged if and only if it is the very first |
| InstallLimits.CopyThatDies | rust/mission-center-publish/src/lib.rs:1762-1766 | a copy that dies leaves its half-written temp without a receipt, so that there is nothing to roll back |
| InstallLimits.FirstReceiptLeavesFile | rust/mission-center-publish/src/lib.rs:1786-1789 | a first receipt that fails or dies with its file half-written: no reconcile of any later run gets through |
| InstallLimits.LockedForEver | rust/mission-center-publish/src/lib.rs:2414-2423 | until somebody clears such a lock, no sequence of installs, rollbacks and reconciles changes anything |
| InstallRefusals.RollbackDeletesOnlyVerified | rust/mission-center-publish/src/lib.rs:2741-2792 | for any outside edits: everything a rollback deletes is a temp of the receipt or a destination that hashes to its digest |
| InstallRefusals.AbortDeletesOnlyVerified | rust/mission-center-publish/src/lib.rs:2685-2735 | the same for the undo inside a failed install |
| InstallRefusals.RefusalLeavesFiles | rust/mission-center-publish/src/lib.rs:2745-2772 | for any outside edits and any script: a refused rollback leaves the files alone if and only if it is refused before restoring begins or every target above the last blocked one has nothing to restore; without faults it completes if and only if all targets are acceptable and none is blocked |
| InstallRefusals.RefusesHalfway | rust/mission-center-publish/src/lib.rs:2711-2717 | the exception is real: a committed receipt with such a target is refused after a later target has been restored |
| InstallRefusals.RollbackCompletesIff | rust/mission-center-publish/src/lib.rs:2741-2773 | both passes together: a fault-free rollback completes if and only if every destination that it would clear holds the package with its temp gone, no swapped target has its temp, and no prepared one has both destination and backup |
| InstallRefusals.RollbackOfAborted | rust/mission-center-publish/src/lib.rs:2268-2271 | rolling back an aborted receipt under any script changes nothing and succeeds if and only if the lock is free and can be taken |
| InstallReceipts.TamperingIsNoticed | rust/mission-center-publish/src/lib.rs:2339-2405 | a valid receipt does not stay valid when a destination or backup entry, the number of targets, the count, the name, or the phase of a settled target is changed |
| InstallReceipts.InstallSound | rust/mission-center-publish/src/lib.rs:1715-1819 | an install under any script keeps all receipts valid and never rebinds an operation id to another digest |
| InstallReceipts.RollbackSound | rust/mission-center-publish/src/lib.rs:2235-2285 | the same for a rollback |
| InstallReceipts.ReconcileSound | rust/mission-center-publish/src/lib.rs:2293-2337 | the same for a reconcile |
| InstallReceipts.RunSound | rust/mission-center-publish/src/lib.rs:2339-2405 | the same for every run of installs, rollbacks, reconciles and reboots under any faults |
| InstallReceipts.EveryReceiptIsValid | rust/mission-center-publish/src/lib.rs:2339-2405 | from an empty transaction directory, every receipt of every run passes validation: committed means all swapped, aborted means all restored |
| InstallReceipts.ReplayIsHarmless | rust/mission-center-publish/src/lib.rs:1715-1738 | after any run: another package under the same operation id is refused without change; replaying a committed operation changes no file and no receipt, and without faults succeeds exactly for the same digest |
| InstallHistory.LayerIsOver | rust/mission-center-publish/src/lib.rs:1739-1819 | a layer that shares no destination with later ones can be taken out: the files are the rest of the stack with that layer on top |
| InstallHistory.TopOfDestination | rust/mission-center-publish/src/lib.rs:1739-1819 | a destination shared with a later layer holds the package of some later layer |
| InstallHistory.DoStep | rust/mission-center-publish/src/lib.rs:1690-1820 | an install either adds its layer on top of the stack or changes nothing at all |
| InstallHistory.UndoStep | rust/mission-center-publish/src/lib.rs:2235-2285 | a rollback is accepted if and only if no later layer shares a destination with it, takes out exactly that layer, and otherwise changes nothing, not even destinations it alone owns |
| InstallHistory.HistoryIsLayered | rust/mission-center-publish/src/lib.rs:2235-2285 | every fault-free history of installs and rollbacks in any order: the files are the base with the surviving layers on top |
| InstallHistory.ReverseOrderRestores | rust/mission-center-publish/src/lib.rs:1739-1819 | any installs over overlapping destinations, rolled back in reverse order, restore the original map |
| InstallPublisher.Publisher.RestoreTargets | rust/mission-center-publish/src/lib.rs:2676-2739 | the reverse loop over all targets computes the recursive restore |
| InstallPublisher.Publisher.CheckTargets | rust/mission-center-publish/src/lib.rs:2745-2771 | the read-only loop decides whether all targets are acceptable |
| InstallPublisher.Publisher.RemoveTemps | rust/mission-center-publish/src/lib.rs:2663-2667 | the loop that drops temps with errors ignored computes the recursive clean-up |
| InstallPublisher.Publisher.Stage | rust/mission-center-publish/src/lib.rs:1742-1773 | the staging loop with its early returns computes the recursive staging |
| InstallPublisher.Publisher.SwapTargets | rust/mission-center-publish/src/lib.rs:1790-1806 | the swap loop with its early returns computes the recursive swap and the receipt in memory it ends with |
| InstallPublisher.Publisher.Install | rust/mission-center-publish/src/lib.rs:1690-1820 | computes the model of the install; whatever fails, nothing was recorded and at most own temps are left, or the durable receipt says truthfully how the transaction ended; with all names free, a failure that records nothing leaves only what it tried to delete, and nothing after a single failed step |
| InstallPublisher.Publisher.Rollback | rust/mission-center-publish/src/lib.rs:2235-2285 | computes the model of the rollback; it deletes temps and verified destinations only, a refusal leaves the files alone exactly if nothing was restored before it, without faults it succeeds exactly on a clear receipt; an aborted receipt is a success without change if the lock can be taken |
| InstallPublisher.Publisher.Reconcile | rust/mission-center-publish/src/lib.rs:2293-2337 | the scan with its early returns computes the recursive reconcile and keeps receipts valid |
| RegistrationProofs.SwapAndCommitEnds | rust/mission-center-publish/src/lib.rs:2022-2043 | every script: committed with the new manifest in place, undone, or in one of three crash states; one failed rename restores the files and aborts |
| RegistrationProofs.RegisterNewEnds | rust/mission-center-publish/src/lib.rs:1995-2043 | the same from the temp file on, including a failed first receipt |
| RegistrationProofs.RegisterKeepsOldManifest | rust/mission-center-publish/src/lib.rs:2005-2042 | every script: the old manifest is at the target or in the backup when the call is over |
| RegistrationProofs.UnrecordedLeavesTemp | rust/mission-center-publish/src/lib.rs:1998-2021 | a registration that fails before its first receipt leaves everything but its temp alone, and leaves the temp if and only if it was written in part, the process died before its removal, or the removal failed |
| RegistrationReplay.RegisterAgain | rust/mission-center-publish/src/lib.rs:1970-1986 | under any script an id that has a receipt changes no file and no receipt; the call succeeds if and only if the lock can be taken and the receipt is the committed one of the same manifest and version; otherwise it is corrupt for a receipt of another name and a conflict else |
| RegistrationReplay.RunBinds | rust/mission-center-publish/src/lib.rs:1970-1986 | in every run an id keeps its digest, version and paths; only its status changes |
| RegistrationReplay.ReplayIsHarmless | rust/mission-center-publish/src/lib.rs:1970-1986 | after any run: the id is refused for any other manifest or version, and without faults the same request succeeds exactly while the receipt is committed |
| RegistrationReplay.RegisterKeepsLock | rust/mission-center-publish/src/lib.rs:2411-2443 | after a registration the lock is held if and only if it was before, its owner file failed, or the process died holding it |
| RegistrationReconcile.ReconcileIsRecover | rust/mission-center-publish/src/lib.rs:2103-2172 | reconcile over a listing with one started receipt among settled ones refuses over an unfinished receipt file and otherwise is the recovery of that operation, refused or not |
| RegistrationReconcile.ReconcileAttempt | rust/mission-center-publish/src/lib.rs:2092-2172 | one reconcile under any script, with an old manifest that hashes differently: restored, or still recoverable with the receipts untouched; without faults it completes if and only if no unfinished receipt file is there and the manifest is absent or hashes to the receipt |
| RegistrationReconcile.InterruptedReconcile | rust/mission-center-publish/src/lib.rs:2092-2172 | the same after any number of interrupted reconciles: all is restored, or the old manifest is at the target or in the backup, and the next fault-free one completes under exactly that condition |
| RegistrationReconcile.OldManifestSurvivesIff | rust/mission-center-publish/src/lib.rs:2103-2170 | the old manifest survives every sequence of interrupted reconciles if and only if it does not hash like the new one or an unfinished receipt file stops them all |
| RegistrationReconcile.CrashThenReconcile | rust/mission-center-publish/src/lib.rs:2022-2042 | after a crash at any step: over an unfinished receipt file reconcile refuses without change and rollback refuses too; otherwise restored after either rename; before the first rename over an existing manifest refused without change if the digests differ, and the old manifest deleted if they are equal |
| RegistrationReconcile.LeftoverBlocksForEver | rust/mission-center-publish/src/lib.rs:2103-2115 | a started receipt beside an unfinished receipt file stays as it is through every sequence of registrations, rollbacks, reconciles and restarts; every reconcile and every rollback of it refuses |
| RegistrationReconcile.CommitThatDiesIsStuck | rust/mission-center-publish/src/lib.rs:2040-2042 | dying in the last receipt with an unfinished file leads there, with the new manifest in place and the old one in the backup |
| RegistrationReconcile.ReconcileInOrder | rust/mission-center-publish/src/lib.rs:2121-2172 | several started receipts, no faults: they are recovered in listing order up to the first one that finds a foreign manifest; that one and all after it keep their receipts; reconcile completes if and only if there is no such one |
| RegistrationReconcile.TwoCrashes | rust/mission-center-publish/src/lib.rs:2121-2148 | two registrations that die in their last receipt, one over the other: listed later one first, everything is restored; the other way round reconcile refuses without change if the two manifests hash differently |
| RegistrationProofs.UndoRestoresIff | rust/mission-center-publish/src/lib.rs:2029-2037 | an aborted receipt stands over the original files if and only if the deletion of the temp and, where needed, the rename of the backup were done |
| RegistrationRollback.AbortedWithoutManifest | rust/mission-center-publish/src/lib.rs:2029-2037 | a failed second rename whose way home fails too: aborted receipt, no manifest, the old one only in the backup, and neither recovery nor rollback acts on it |
| RegistrationRollback.RollbackEnds | rust/mission-center-publish/src/lib.rs:2048-2087 | from a committed receipt with the old manifest home or in the backup, any script: a manifest that does not hash to the receipt stops it before any change; from the backup, completion restores the files and a stop keeps the old manifest; from home, completion deletes it; without faults it completes if and only if the manifest hashes to the receipt |
| RegistrationRollback.RegisterThenRollback | rust/mission-center-publish/src/lib.rs:1939-2087 | registering and rolling back is the identity on the files |
| RegistrationRollback.InterruptedRollback | rust/mission-center-publish/src/lib.rs:2048-2087 | with an old manifest that hashes differently and any number of interruptions: all is restored, or the old manifest is at the target or in the backup and the next fault-free attempt completes if and only if the manifest stands and hashes to the receipt |
| RegistrationRollback.ResumableIff | rust/mission-center-publish/src/lib.rs:2068-2074 | some events let a committed registration be rolled back if and only if its manifest stands and hashes to the receipt |
| RegistrationRollback.StuckForEver | rust/mission-center-publish/src/lib.rs:2055-2074 | if it does not, no rollback ever changes anything again and reconcile skips the receipt |
| RegistrationRollback.DiesAtRename | rust/mission-center-publish/src/lib.rs:2075-2081 | dying between the deletion and the rename leads there, with the old manifest in the backup |
| RegistrationRollback.OldManifestSurvivesIff | rust/mission-center-publish/src/lib.rs:2066-2084 | the old manifest survives every sequence of interrupted rollbacks if and only if it does not hash like the new one, or the new one was edited so that no rollback starts |
| RegistrationStore.Store.Register | rust/mission-center-publish/src/lib.rs:1939-2044 | computes the model of the registration; whatever fails, the old manifest is at the target or in the backup when the call is over; an id that has a receipt changes nothing and succeeds exactly as a replay of the same committed registration |
| RegistrationStore.Store.Rollback | rust/mission-center-publish/src/lib.rs:2048-2087 | computes the model of the rollback; an edited manifest is not touched, success restores the files, a stop keeps the old manifest |
| RegistrationStore.Store.Reconcile | rust/mission-center-publish/src/lib.rs:2121-2172 | the scan over the receipts with its early returns computes the recursive reconcile |
| StagedPublish.FailedCommitRestores | scripts/publish_local.py:616-642 | a commit that raises at any step, over any mix of replaced and removed targets: if its own rollback completes, the files are exactly those from before staging; if that raises too, every old tree is still at its target or in its backup |
| StagedPublish.SecondRollbackChangesNothing | scripts/publish_local.py:1048-1050 | after a rollback that completed, the rollback that the caller runs again changes nothing |
| StagedPublish.CallersRollbackIff | scripts/publish_local.py:1048-1050 | after a commit whose own rollback raised, the second rollback, once it completes, restores the original files if and only if every entry still in the list had nothing at its target before or still has its backup |
| StagedPublish.SecondRollbackIff | scripts/publish_local.py:629-642 | the same from wherever a commit loop stopped; an entry without its backup had been restored, and the second rollback deletes the restored tree |
| StagedPublishLimits.CallerRestoresIff | scripts/publish_local.py:616-642 | over all faults: a commit that raises, followed by a rollback of its caller that completes, always leaves the original files if and only if every entry but the last that has an old tree is preceded by removals of nothing only |
| StagedPublishLimits.UnsafeCallerLoses | scripts/publish_local.py:629-642 | any other transaction, such as one with three replaced targets: some faults make the commit raise and its own rollback raise after a tree was restored, and the rollback of the caller, without any fault, deletes that tree |
| StagedPublishLimits.PublishersRollbackRestores | scripts/publish_local.py:1019-1050 | a transaction with at most two entries, which is all the publisher makes: after a commit that raises, the rollback of the caller restores the original files whenever it completes |
| StagedPublish.RollbackOfCommitRestores | scripts/publish_local.py:1041-1050 | rolling back a complete commit: once it completes, the files are those from before staging; if it raises, every old tree still exists |
| StagedPublish.CommitSucceeds | scripts/publish_local.py:616-624 | without a fault the commit does not raise |
| StagedPublish.FinalizePublishes | scripts/publish_local.py:644-649 | after commit and finalize every target holds its new tree or nothing, and no staging or backup is left; a finalize that raises leaves at most backups |
| StagedPublish.FinalizeClears | scripts/publish_local.py:644-649 | from any state: a finalize that completes leaves no staging and no backup |
| PublishTransaction.FileTransaction.CommitEntries | scripts/publish_local.py:618-624 | the loop over the entries computes the recursive commit |
| PublishTransaction.FileTransaction.Commit | scripts/publish_local.py:616-627 | computes the model; when it raises, every target is restored unless its own rollback raised too, and no old tree is lost; when it does not, the new trees are in place |
| PublishTransaction.FileTransaction.Rollback | scripts/publish_local.py:629-642 | both loops with their early exits compute the recursions |
| PublishTransaction.FileTransaction.Finalize | scripts/publish_local.py:644-649 | the clean-up loop computes the recursion |
| Calendar.CountOfCivilDate | rust/mission-center-cli/src/main.rs:1636-1647 | every integer day is the count of the date that `civil_date` gives it, and that date is on the calendar |
| Calendar.CivilDateOfCount | rust/mission-center-policy/src/lib.rs:909-921 | every date on the calendar comes back from its day count |
| Calendar.CountStepsByDay | rust/mission-center-policy/src/lib.rs:911-921 | the count of the next date, taken from the month lengths, is one more |
| Calendar.CivilDateIncreases | rust/mission-center-cli/src/main.rs:1636-1647 | later days have later dates |
| Calendar.CountIsMonotone | rust/mission-center-policy/src/lib.rs:909-921 | counts compare as dates do, in both directions |
| Calendar.KnownCounts | rust/mission-center-policy/src/lib.rs:921 | the count starts at 1970-01-01; 0001-01-01 is day -719162 and 9999-12-31 is day 2932896 |
| Calendar.CivilDateIsValid | rust/mission-center-policy/src/lib.rs:3723-3757 | the dates of `civil_date` pass validation exactly from 0001-01-01 to 9999-12-31 |
| ResumePacket.MeasureCounts | rust/mission-center-cli/src/main.rs:1694-1717 | the measured size is the byte length of the keys and leaves of a value, and there is none exactly for a fraction or more than 10000 nodes, keys included |
| ResumePacket.Prefix | rust/mission-center-cli/src/main.rs:1652-1661 | the longest prefix of whole characters within the bytes: it fits, and one character more would not |
| ResumePacket.ShortenedFits | rust/mission-center-cli/src/main.rs:1663-1672 | a shortened text fits its budget, marker included |
| ResumePacket.ShortenedIsCut | rust/mission-center-cli/src/main.rs:1663-1672 | cutting a text, or a text already cut, leaves a prefix of the marker or a source prefix followed by the marker |
| ResumePacket.CutIsShorter | rust/mission-center-cli/src/main.rs:2052-2060 | every cut makes its section strictly shorter, so the loop ends |
| ResumePacket.CutTakesTheNeed | rust/mission-center-cli/src/main.rs:2056-2060 | a cut takes the excess of the packet and 64 bytes more, and at most three bytes beyond that; a shorter section is emptied |
| ResumePacket.SqueezeKeeps | rust/mission-center-cli/src/main.rs:2051-2074 | the inner loop changes one section only and ends with a packet that fits or an empty section |
| ResumePacket.TrimmedIsLastFirst | rust/mission-center-cli/src/main.rs:2050-2075 | a section is shortened only if every later one is empty; each shortened text is a cut of its source; the names and the flag say exactly what changed; the packet fits or everything is empty |
| ResumePacket.TrimmedIsForced | rust/mission-center-cli/src/main.rs:2050-2075 | every section that changed got its text by a cut that was forced: with the sections before it untouched and those behind it final the packet did not fit, and the cut took just the need, so that a section is emptied only if what was left of it was shorter than the excess and 64 bytes |
| ResumePacket.ResumeIsExact | rust/mission-center-cli/src/main.rs:2076-2084 | a packet that is handed out declares exactly the bytes of its keys and leaves, at most 16384, in at most 10000 nodes and without a fraction; the handoff is dropped only if every section was emptied; otherwise even that packet has a fraction or too many nodes, or is too large |
| ResumePacket.PacketShows | rust/mission-center-cli/src/main.rs:1966-2029 | the packet shows the trimmed sections, the handoff, the truncation marks and the names to read next, and the remaining fields as they were |
| ResumePacket.ContentShows | rust/mission-center-cli/src/main.rs:1940-1960 | under each section name the content shows its text and the inclusion record its size |
| ResumePacket.ResumePacket | rust/mission-center-cli/src/main.rs:2044-2085 | the loops compute the model of the packet |
| SelfCounting.ThreeRoundsSettle | rust/mission-center-cli/src/contextual.rs:62-71 | from any number that is not absurdly long for its base, three rounds of recounting find a number that counts itself |
| SelfCounting.AnyStartSettles | rust/mission-center-cli/src/contextual.rs:62-71 | any base and any 64-bit starting value: three or more rounds end on a number that counts itself |
| BoundedResult.EncodedLengthIsText | rust/mission-center-cli/src/contextual.rs:63-74 | the length that the loop works with is the byte length of the compact JSON text, for every value |
| BoundedResult.RecountIsExact | rust/mission-center-cli/src/contextual.rs:62-71 | four rounds make any object declare the exact byte length of its compact JSON text, whatever it declared before |
| BoundedResult.BoundedIsExact | rust/mission-center-cli/src/contextual.rs:60-87 | on success the declared length is that of the compact JSON text and within the limit, the cards are a prefix, `truncated` is set by the loop exactly when a card was dropped, nothing else changed; which error is reported depends on whether there is a card list |
| BoundedResult.BoundedIsLongest | rust/mission-center-cli/src/contextual.rs:60-87 | the loop stops at the largest number of cards whose attempt is not too large: it succeeds if and only if that attempt fits, and fails for lack of cards if and only if every number of cards is too large |
| BoundedResult.BoundResult | rust/mission-center-cli/src/contextual.rs:60-87 | the loops terminate and compute the model; an object that is handed out declares the length of its JSON text, within the limit |
| Base64.DecodeBase64 | rust/mission-center-cli/src/main.rs:802-851 | the loop computes the decoding function |
| Base64.DecodeOfEncode | rust/mission-center-cli/src/main.rs:802-851 | decoding the canonical encoding gives the octets back |
| Base64.EncodeOfDecode | rust/mission-center-cli/src/main.rs:834-841 | every accepted string is the canonical encoding of what it decodes to |
| Base64.DecodeIffCanonical | rust/mission-center-cli/src/main.rs:802-851 | decoding succeeds with x if and only if the string is the canonical padded encoding of x (sections 3.5 and 4 of RFC 4648) |
| Base64.FirstFlaw | rust/mission-center-cli/src/main.rs:813-841 | an error is that of the first group with a flaw: a character outside the alphabet, misplaced padding, or a text that is no encoding |
| Base64.KnownEncodings | rust/mission-center-cli/src/main.rs:808-817 | test vectors that fix the alphabet |
| Supersedes.CyclicIff | rust/mission-center-policy/src/lib.rs:654-680 | some node reaches itself if and only if the chain of some key never ends |
| Supersedes.CycleFinder.Visit | rust/mission-center-policy/src/lib.rs:655-674 | a visit reports a cycle exactly if the chain of its node never ends, leaves the path as it was, and marks only nodes whose chains end |
| Supersedes.CycleFinder.HasCycle | rust/mission-center-policy/src/lib.rs:675-680 | in any key order the result is whether some node reaches itself |
| Supersedes.WalkOne | skills/mission-center/scripts/contextual_recall.py:193-200 | one walk reports a cycle exactly if the chain of its start never ends |
| Supersedes.WalkAll | skills/mission-center/scripts/contextual_recall.py:192-201 | the Python formulation gives the same answer |
| Supersedes.ValidateSupersedes | rust/mission-center-policy/src/lib.rs:874-896 | the checks report exactly the problems there are, each with its card: unsafe and repeated ids, unsafe targets, missing cards, other scopes, a cycle; none if and only if the cards are error-free |
| Supersedes.ErrorFreeIff | rust/mission-center-policy/src/lib.rs:738-896 | no problem is there if and only if ids are safe and distinct, targets exist in the same scope, and the graph has no cycle |
| Supersedes.ChainsEndInScope | rust/mission-center-policy/src/lib.rs:884-895 | in an error-free manifest every chain ends within the number of cards and stays in one scope |
| Pareto.IsDominated | rust/mission-center-policy/src/lib.rs:1978-2007 | the inner search finds out whether some row is no worse everywhere and better somewhere |
| Pareto.Front | rust/mission-center-policy/src/lib.rs:1976-2015 | the reported names are those of the surviving rows, sorted and without repetition |
| Pareto.ClimbToSurvivor | rust/mission-center-policy/src/lib.rs:1976-2013 | every eliminated row is dominated by a survivor |
| Pareto.FrontCovers | rust/mission-center-policy/src/lib.rs:1976-2013 | some row survives, no survivor dominates another, every eliminated row is dominated by a survivor |
| WorkingSet.Selection.Admit | rust/mission-center-workspace/src/derived_views.rs:63-74 | admission: room left, live status, id not yet seen |
| WorkingSet.Selection.AdmitTier | rust/mission-center-workspace/src/derived_views.rs:91-99 | one tier with its early return |
| WorkingSet.SortTasksSorts | rust/mission-center-workspace/src/derived_views.rs:137 | ready tasks are ordered by priority number and id, and none is lost |
| WorkingSet.WorkingSetTasks | rust/mission-center-workspace/src/derived_views.rs:76-145 | the tiers with their early returns compute one pass over all candidates in tier order |
| WorkingSet.WorkingSetIsFirstSix | rust/mission-center-workspace/src/derived_views.rs:76-145 | the selection is the first six of the tiers, finished and backlog tasks removed, repeated ids dropped |
| WorkingSet.LiveIsCandidate | rust/mission-center-workspace/src/derived_views.rs:83-136 | every live task is in some tier |
| WorkingSet.ShortSetIsComplete | rust/mission-center-workspace/src/derived_views.rs:63-145 | if fewer than six come back, every live task is represented by its id |
| WorkingSetOrder.WorkingSetIsBestSix | rust/mission-center-workspace/src/derived_views.rs:76-145 | the selected tasks are unfinished, have different ids, and come by rank (anchor, P0, dependency of the anchor, in progress, review, blocked, ready), then in the order of the list, ready ones by number and id; a live task whose id is missing stands behind a full set in which everything precedes it |
| WorkingSetOrder.PriorityOfNumber | rust/mission-center-workspace/src/derived_views.rs:156-164 | P or p and a decimal number, with or without plus sign and spaces around, gives that number if it fits 32 bits and 99 otherwise |
| TableCells.SplitCells | rust/mission-center-core/src/lib.rs:134-169 | the scanner computes the splitting function |
| TableCells.RowRoundTrip | rust/mission-center-workspace/src/derived_views.rs:264-271 | every non-empty list of texts comes back from its printed row, line breaks turned into spaces and ends trimmed |
| TableCells.SameCountIff | rust/mission-center-core/src/lib.rs:134-169 | splitting a printed row always succeeds, with the same number of cells if and only if there is a cell |
| TableRows.SplitMeans | rust/mission-center-core/src/lib.rs:134-169 | any row: without its outer bars it is malformed if and only if it ends with an odd number of backslashes; otherwise it is cut exactly at the bars with an even number of backslashes before them, and in each cell a backslash goes only from before a bar or a backslash, and the ends are trimmed |
| TableRows.StripMeans | rust/mission-center-core/src/lib.rs:135-142 | the outer bars: the first character if it is a bar, and a last bar unless a backslash stands before it |
| TableRows.EscapedBackslashBeforeTheLastBar | rust/mission-center-core/src/lib.rs:139-141 | a last cell that ends with an escaped backslash right before the bar is followed by an additional empty cell |
| Text.TrimMeans | rust/mission-center-core/src/lib.rs:135 | trimming takes all white space away at both ends and nothing else |

## Left out

- Real file I/O, permissions, symlink and reparse checks, clocks and nonces: steps of a script and fresh names instead.
- SHA-256 rounds and the executable magic-number, manifest and package verification before an install: a package is a list of files with an uninterpreted digest.
- Format checks on receipt fields (digest and version syntax, absolute paths, schema version, size limits): receipts are typed values; validation covers counts, agreement of the lists, file name and status against phases.
- Two processes at once: the lock is modelled, a second process running at the same time is not.
- Nested destinations, and failures while the lock is released.
- InstallReconcile.ReconcileEachAlone: faults during a reconcile of several receipts are not modelled beyond the rollback of each one.
- InstallPublisher.Publisher.Reconcile: the directory listing is a parameter, since reading a directory is outside the model.
- Symbolic links at staged targets, and the temporary directories that hold staging and backups in the local publisher.
- Calendar.CivilDateOfCount: the hour, minute, second and offset part of a timestamp is not modelled, nor are 64-bit limits on days.
- ResumePacket.ResumePacket: reading the workspace files, freshness checks and the choice of the sections are parameters; sums are assumed to fit a machine word.
- BoundedResult.RecountIsExact: only results whose length fits a machine word count as encodable; number formatting of fractions is a given text.
- Pareto.Front: metrics are exact numbers; rounding and not-a-number of floating point are not modelled, and the rest of the report (constraints, baseline deltas, recommendation) is left out.
- Supersedes.ValidateSupersedes: only the id, scope and supersedes checks of a card; the other fields would add one clause each.
- WorkingSet.SortTasksSorts: the library's stable sort is a stable insertion sort.
- TableCells.RowRoundTrip: header rows and whole tables are not modelled, only rows, of any number of cells; the program prints eight.
- The HUD server, hooks, prompt routing, command-line parsing, the field-by-field validators, and the compiled-out legacy modules.
