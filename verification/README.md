# Verification of the package and kernel core of xlfn

This project models the parts of xlfn that are hardest to get right and proves
what they promise, for every input, every interleaving and every crash point.
`dafny verify dfyconfig.toml` checks all of it.

- **Distribution commit.** A package directory replaces an older one by renames
  under a journal with eleven states. `DistributionModel` holds the durable
  state and the exact step list of one recovery; `DistributionTheory` the
  invariant of every durable state and what recovery makes of it;
  `DistributionRecoverySafety` what recovery does to any disk at all;
  `DistributionStore` the procedures themselves, running against a fault oracle
  that may fail or kill the process at any call.
- **Reader admission and grace periods.** `DrainGate` and `DrainGateSafety`
  (gate with wait and notify, of any number of stripes), `SealableCounter` over `Bits` (the packed
  state word), `RotatingReadDomain` and `RotatingReadSafety` (two generations
  with retirement queues), `ServiceSlot` and `ServiceSlotSafety` (two-lane
  replaceable service). `GateView`, `GatedReadDomain`, `GatedReadSafety`,
  `GatedServiceSlot` and `GatedServiceSafety` put real gates under the domain and
  the slot; `GateCounters` puts packed words under the gate; `GenerationService`
  is the lazily initialized service of one generation. `DrainGateProgress`,
  `RotatingReadProgress` and `ServiceSlotProgress` show with `Paths` what a thread
  achieves when it runs alone. Each is a transition system over any number of threads in which every
  atomic update, lock, park and notify is one step; the theorems are about all
  its runs.
- **Package verifiers.** `ForwardedExports`, `DependencyGraph` (both over
  `PackageImages`), `SectionLayout`, `StableSnapshot`, `PreparedTree`,
  `PreparedTreeLedger` and `PreparedTreeVerification`.
- **Cell references.** `CellReference`.

## What the proofs found

Recovery of a distribution is not idempotent. With a journal in PreviousSaved,
InstallPending or Installed, a crash or an I/O error after the rename that puts
`previous` back leaves a disk that every later recovery refuses, although the
destination already holds the original directory
(`DistributionTheory.RecoveryRefusesItsOwnWork` is a concrete instance). The
other eight states restart safely. `RestartBoundary` and
`RestartsConvergeIffNotFragile` state the exact boundary in terms of the record
on disk, and `StuckIsPermanent` that no directory is lost.

On disks that no commit can have left, recovery destroys a directory that its
record does not name in two cases only: a `failed-install`, and a
`recovery-install` under a Prepared or NoPrevious record, both deleted with the
transaction (`DistributionRecoverySafety.StrayDirectoryIsDestroyed`,
`UnnamedPayloadIsLostIff`).

## Reading the model

- A crash may fall before or after any durable step. Renames, removal of a
  directory tree and replacement of the journal are atomic; `journal.next` may
  be torn.
- Threads interleave under sequential consistency. In `RotatingReadDomain` and
  `ServiceSlot` a wait for a gate is one step, enabled when the gate is sealed
  and nobody is inside; in the gated versions the same wait is the gate's own
  loop, and the step is proved to be one of the simple version.
- Some accesses are fused with a neighbouring lock operation: the last access to
  a queue or to the owner record with the unlock that follows (`Recheck`,
  `Append`, `Take`, `Abort`, `Reclaim`), and the owner record's update with the
  pointer store (`Install`). What is fused is only reachable under that lock, so
  no other thread can tell.
- `GenerationService` waits for its gate in one step, like the simple versions of
  the domain and the slot.
- A domain or slot may also stand still in a step, which is how a move inside a
  gate looks to it.
- The verifiers take the table of system libraries and the naming rule for
  library keys as parameters; the results hold for every table and rule.
- Directory entries are identified by their name keys, as on the
  case-insensitive file systems the package targets.

## Model

| member | source | states |
|---|---|---|
| `DistributionTheory.InvKeepsTheAuthoritativeDirectory` | crates/xlfn-package/src/distribution.rs:1100-1144 | In every durable state the original directory is at the destination or in the single transaction's `previous` until a Committed record is durable; afterwards the installed directory is at the destination. |
| `DistributionTheory.ResolvedInv` | crates/xlfn-package/src/distribution.rs:1576-1731 | Settling `journal` against `journal.next` always ends with the newer readable record, or with the unrecorded transaction removed; neither moves a directory. |
| `DistributionTheory.SwappingSettles` | crates/xlfn-package/src/distribution.rs:1984-2007 | Restoring over an installed directory passes only through states of the invariant and ends at the original; it strands the record exactly when the record is PreviousSaved, InstallPending or Installed. |
| `DistributionTheory.ReturningSettles` | crates/xlfn-package/src/distribution.rs:2008-2026 | The same for restoring into a vacant destination. |
| `DistributionTheory.SettlingSucceeds` | crates/xlfn-package/src/distribution.rs:1732-1897 | For each of the eleven journal states, the state's branch reaches the right destination unless `previous` was already moved back under a fragile record. |
| `DistributionTheory.SettlingBeforeInstall` | crates/xlfn-package/src/distribution.rs:1733-1779 | Prepared and NoPrevious records settle to the original directory or its absence. |
| `DistributionTheory.SettlingAFirstInstall` | crates/xlfn-package/src/distribution.rs:1796-1850 | Records without a previous directory settle to an absent destination. |
| `DistributionTheory.SettlingARollback` | crates/xlfn-package/src/distribution.rs:1822-1864 | RollbackPending and RolledBack records accept a destination that was already restored. |
| `DistributionTheory.SettlingACommit` | crates/xlfn-package/src/distribution.rs:1865-1897 | A Committed record keeps the installed directory and only deletes `previous`. |
| `DistributionTheory.SettlingRefuses` | crates/xlfn-package/src/distribution.rs:1780-1840 | A fragile record without `previous` is refused without any change. |
| `DistributionTheory.RecoveryDecides` | crates/xlfn-package/src/distribution.rs:1557-1907 | One uninterrupted recovery completes exactly when the disk is not stuck; then no transaction is left and the destination is the committed directory or the original. It never quarantines, and a refusal moves nothing. |
| `DistributionTheory.RecoveryStaysInvariant` | crates/xlfn-package/src/distribution.rs:1557-1907 | Every durable state inside a recovery satisfies the invariant and does not become fragile. |
| `DistributionTheory.RestartBoundary` | crates/xlfn-package/src/distribution.rs:1984-2026 | Some crash point of a recovery leaves a stuck disk if and only if the record is PreviousSaved, InstallPending or Installed. |
| `DistributionTheory.RestartsConvergeIffNotFragile` | crates/xlfn-package/src/distribution.rs:1733-1897 | Recoveries crashed at any steps, any number of times, can always be completed by one more run if and only if the record is not fragile. |
| `DistributionTheory.CompletesUnlessStuck` | crates/xlfn-package/src/distribution.rs:1557-1907 | One more recovery completes exactly on the disks that are not stuck. |
| `DistributionTheory.CrashesStayInvariant` | crates/xlfn-package/src/distribution.rs:1517-1907 | Any number of crashed recoveries stays inside the invariant. |
| `DistributionTheory.FragileRecordsCanBeStranded` | crates/xlfn-package/src/distribution.rs:1984-2026 | For every fragile record there is a crash point after which every later recovery refuses, crashed or not. |
| `DistributionTheory.StuckIsPermanent` | crates/xlfn-package/src/distribution.rs:1780-1840 | Once stuck, every later recovery refuses while the original directory stays at the destination. |
| `DistributionTheory.RecoveryRefusesItsOwnWork` | crates/xlfn-package/src/distribution.rs:2003-2026 | Concrete witness: an Installed record whose recovery is cut after its restoring rename refuses ever after. |
| `DistributionTheory.UnrecordedInv` | crates/xlfn-package/src/distribution.rs:1585-1660 | A transaction without a readable record never changed a directory and is removed. |
| `DistributionTheory.WritingStaysInvariant` | crates/xlfn-package/src/distribution.rs:517-551 | Writing a record that is already true of the disk is safe when cut before, during or after each of its parts, torn `journal.next` included. |
| `DistributionTheory.WritingTheFirstRecord` | crates/xlfn-package/src/distribution.rs:969-1039 | The same for the first record of a transaction that is still private. |
| `DistributionRecoverySafety.UnreadableIsKept` | crates/xlfn-package/src/distribution.rs:1585-1731 | For any disk: without a readable record of its own, a transaction that holds a directory is only refused or set aside whole; the destination never changes and recovery never reports success. |
| `DistributionRecoverySafety.ActsExactlyOn` | crates/xlfn-package/src/distribution.rs:1585-1731 | For any disk, the exact combinations of control files that leave a record to act on. |
| `DistributionRecoverySafety.ActsOnTheNewerRecord` | crates/xlfn-package/src/distribution.rs:1683-1705 | That record is the newer readable one and the transaction's own. |
| `DistributionRecoverySafety.QuarantinedExactly` | crates/xlfn-package/src/distribution.rs:1590-1731 | For any disk: the exact condition under which the transaction is set aside. |
| `DistributionRecoverySafety.SettlesExactly` | crates/xlfn-package/src/distribution.rs:1732-1907 | For any disk and record: the exact directories on which the branch of the record's state completes, and the destination it then leaves. |
| `DistributionRecoverySafety.RecoveredExactly` | crates/xlfn-package/src/distribution.rs:1557-1907 | For any disk: recovery completes exactly for a transaction without record and payload, or one whose record fits the directories; then only that transaction is gone and the destination is the one the record calls for. |
| `DistributionRecoverySafety.EveryInstant` | crates/xlfn-package/src/distribution.rs:1557-1907 | For any disk, at every instant of a recovery: the transaction is intact or set aside whole, or directories were moved as its record allows, or it held nothing. |
| `DistributionRecoverySafety.DestinationIsGuarded` | crates/xlfn-package/src/distribution.rs:1943-2026 | For any disk: the destination changes only from absent or the recorded installation, to absent or the recorded backup. |
| `DistributionRecoverySafety.BackupIsGuarded` | crates/xlfn-package/src/distribution.rs:1865-1897 | For any disk: `previous` disappears only under a Committed record that names it. |
| `DistributionRecoverySafety.SetAsideIsGuarded` | crates/xlfn-package/src/distribution.rs:2030-2048 | For any disk: `recovery-install` disappears only if the record names it, or with a Prepared or NoPrevious transaction. |
| `DistributionRecoverySafety.FailedInstallIsGuarded` | crates/xlfn-package/src/distribution.rs:1898-1902 | For any disk: `failed-install` disappears only with its transaction after a successful recovery. |
| `DistributionRecoverySafety.UnnamedPayloadIsLostIff` | crates/xlfn-package/src/distribution.rs:1733-1902 | The exact condition under which a directory that the record does not name is destroyed. |
| `DistributionRecoverySafety.StrayDirectoryIsDestroyed` | crates/xlfn-package/src/distribution.rs:1733-1760 | A concrete disk on which that happens. |
| `DistributionStore.DistributionStore.SetAside` | crates/xlfn-package/src/distribution.rs:1468-1515 | Quarantine moves exactly the first transaction aside. |
| `DistributionStore.DistributionStore.DropRecoveryInstall` | crates/xlfn-package/src/distribution.rs:2030-2048 | Follows the specified run of removing `recovery-install`, whatever call fails. |
| `DistributionStore.DistributionStore.RemoveInstalledDistribution` | crates/xlfn-package/src/distribution.rs:1943-1963 | Follows the specified run of removing an installed directory. |
| `DistributionStore.DistributionStore.SwapUnobstructed` | crates/xlfn-package/src/distribution.rs:1999-2007 | The same run when nothing was set aside earlier. |
| `DistributionStore.DistributionStore.SwapInstalled` | crates/xlfn-package/src/distribution.rs:1984-2007 | Follows the specified run: set the installation aside, restore, delete. |
| `DistributionStore.DistributionStore.ReturnPrevious` | crates/xlfn-package/src/distribution.rs:2008-2026 | Follows the specified run: restore, then delete what was set aside. |
| `DistributionStore.DistributionStore.RestorePreviousDistribution` | crates/xlfn-package/src/distribution.rs:1965-2028 | Follows the specified restoring run. |
| `DistributionStore.DistributionStore.ResolveJournal` | crates/xlfn-package/src/distribution.rs:1573-1731 | Follows the specified settling of the control files and returns its record. |
| `DistributionStore.DistributionStore.CompareNext` | crates/xlfn-package/src/distribution.rs:1676-1731 | The branch with both control files present. |
| `DistributionStore.DistributionStore.SettleTransaction` | crates/xlfn-package/src/distribution.rs:1732-1897 | Follows the specified run of the record's state. |
| `DistributionStore.DistributionStore.SettlePrepared` | crates/xlfn-package/src/distribution.rs:1733-1760 | Prepared branch. |
| `DistributionStore.DistributionStore.SettleFirstInstall` | crates/xlfn-package/src/distribution.rs:1796-1850 | Branch of the states without a previous directory. |
| `DistributionStore.DistributionStore.SettleRollback` | crates/xlfn-package/src/distribution.rs:1822-1864 | RollbackPending and RolledBack branches. |
| `DistributionStore.DistributionStore.SettleCommitted` | crates/xlfn-package/src/distribution.rs:1865-1897 | Committed branch. |
| `DistributionStore.DistributionStore.FinishRecovery` | crates/xlfn-package/src/distribution.rs:1715-1907 | Settling, then removal of the transaction. |
| `DistributionStore.DistributionStore.RemoveSettled` | crates/xlfn-package/src/distribution.rs:1898-1907 | Removal of the transaction after its settling has run to the end. |
| `DistributionStore.DistributionStore.RecoverTransaction` | crates/xlfn-package/src/distribution.rs:1557-1907 | A recovery with faults is a prefix of the specified recovery run, complete exactly when it reports success. |
| `DistributionStore.DistributionStore.RecoverStaleTransactions` | crates/xlfn-package/src/distribution.rs:1517-1555 | Success leaves no transaction; a stuck disk is never reported as recovered; an error names a real fault or a stuck disk. |
| `DistributionStore.DistributionStore.WriteState` | crates/xlfn-package/src/distribution.rs:517-551 | Leaves the disk at one of the stages of replacing the record, refuses a sequence number that cannot grow, and counts a Committed record from the moment `journal.next` is complete. |
| `DistributionStore.DistributionStore.CreateTransaction` | crates/xlfn-package/src/distribution.rs:969-1039 | Touches neither destination nor staging; success leaves a published transaction with a Prepared record; a crash anywhere is recoverable. |
| `DistributionStore.DistributionStore.PublishTransaction` | crates/xlfn-package/src/distribution.rs:1020-1039 | Gives the private transaction its listed name; a stop anywhere is recoverable. |
| `DistributionStore.DistributionStore.SavePrevious` | crates/xlfn-package/src/distribution.rs:1125-1144 | Moves the original aside and records it; a failure before the rename leaves the destination alone. |
| `DistributionStore.DistributionStore.MakeWay` | crates/xlfn-package/src/distribution.rs:1125-1173 | Up to the install rename: the original is out of the way, three records are written, and the source was verified after the second and after the third. |
| `DistributionStore.DistributionStore.VerifySource` | crates/xlfn-package/src/distribution.rs:1149-1172 | Notes at which point of the protocol the staged directory was verified. |
| `DistributionStore.DistributionStore.AnnounceInstall` | crates/xlfn-package/src/distribution.rs:1153-1179 | Records the intended installation before anything is installed. |
| `DistributionStore.DistributionStore.RestoreAfterFailedInstall` | crates/xlfn-package/src/distribution.rs:1200-1256 | Restores, records and cleans up; a failure to move the backup back is reported as Recovery, any later one as Interrupted. |
| `DistributionStore.DistributionStore.UndoFailedInstall` | crates/xlfn-package/src/distribution.rs:1180-1259 | Rollback of a failed install rename: a plain error means the original is back, a Recovery error exactly that moving it back failed; every crash is recoverable. |
| `DistributionStore.DistributionStore.RestoreAfterFailedVerification` | crates/xlfn-package/src/distribution.rs:1298-1373 | The rollback branch with a backup. |
| `DistributionStore.DistributionStore.RemoveFailedInstall` | crates/xlfn-package/src/distribution.rs:1375-1391 | The rollback branch of a first installation. |
| `DistributionStore.DistributionStore.UndoFailedVerification` | crates/xlfn-package/src/distribution.rs:1276-1394 | Rollback of a rejected installation: a plain error means the original is back and the transaction gone, a Recovery error exactly that moving the directories back failed. |
| `DistributionStore.DistributionStore.ReplaceFailedInstall` | crates/xlfn-package/src/distribution.rs:1308-1358 | Moves the rejected installation aside and the original back. |
| `DistributionStore.DistributionStore.Conclude` | crates/xlfn-package/src/distribution.rs:1396-1427 | Records Committed and cleans up; the installed directory stays at the destination; a failed removal of `previous` after the record, and nothing else, answers BackupRetained. |
| `DistributionStore.DistributionStore.VerifyDestination` | crates/xlfn-package/src/distribution.rs:1276-1279 | Notes which directory was at the destination when it was verified. |
| `DistributionStore.DistributionStore.CommitInstalled` | crates/xlfn-package/src/distribution.rs:1260-1427 | From the install rename on: every stop is recoverable, a plain error means the original is back, no fault means Complete. |
| `DistributionStore.DistributionStore.CommitFresh` | crates/xlfn-package/src/distribution.rs:1100-1427 | From every crash point of a commit or its rollback one uninterrupted recovery completes; success installs the staged directory with no call failed, all five records of its protocol written in order, the source verified before, after the second and after the third, and the installation verified; a finished rollback has written the records of the rollback; a plain error leaves the destination as it was, and an error is plain exactly when the destination was never moved or the rollback ran to its end. |
| `DistributionStore.DistributionStore.Commit` | crates/xlfn-package/src/distribution.rs:1079-1427 | Recovery and commit together: Ok means the destination is the staged directory; an error that is not Interrupted, Recovery or Quarantined means it is what it was after the initial recovery; an error is plain exactly when no stale transaction was being recovered and the destination was never moved or the rollback ran to its end; Ok means every call worked, verification included; without faults the commit succeeds unless the disk was stuck. |
| `DistributionStore.RunHistory` | crates/xlfn-package/src/distribution.rs:1079-1555 | Over any history of stagings, commits and recoveries cut anywhere: at most one transaction, the invariant after every event, a committed directory stays until a later commit starts from it, a stuck disk stays stuck with its destination intact. |
| `DrainGateSafety.StepKeepsInv` | crates/xlfn-kernel/src/drain_gate.rs:386-480 | Every atomic step of any thread keeps counts equal to permits, exclusive locks, each thread's knowledge and the notification debt. |
| `DrainGateSafety.RunsKeepInv` | crates/xlfn-kernel/src/drain_gate.rs:386-480 | The same for every interleaving of any number of threads. |
| `DrainGateSafety.DrainedGateIsUntouched` | crates/xlfn-kernel/src/drain_gate.rs:386-461 | When a wait on a sealed gate has returned, all stripes are sealed and idle at one instant, nobody owns a permit and no release touches the mutex or condition variable; all of it stays so until a reopen, with or without the claim, so the owner may be freed. |
| `DrainGateSafety.FreeUntilReopened` | crates/xlfn-kernel/src/drain_gate.rs:386-461 | From any instant at which the gate is sealed and idle with no release in its tail, and until a reopen: nobody owns a permit, no release holds or will take the lock. |
| `DrainGateSafety.CreatedSealedIsDeserted` | crates/xlfn-kernel/src/drain_gate.rs:344-350 | A gate created sealed is in that state from the start. |
| `DrainGateSafety.DrainedUntilReopened` | crates/xlfn-kernel/src/drain_gate.rs:442-480 | A drained gate stays sealed and idle until a reopen. |
| `DrainGateSafety.NoLostWakeup` | crates/xlfn-kernel/src/drain_gate.rs:96-114 | A parked waiter that was not notified is owed by a stripe with its waiting bit set and a live permit, or by a release that holds the lock and is about to notify. |
| `DrainGateSafety.IdleSealIsAllOrNothing` | crates/xlfn-kernel/src/drain_gate.rs:428-438 | A finished idle seal has every stripe sealed and idle together; a finished undo has the stripes uniform again; no step of either touches a count or a waiting bit. |
| `DrainGateSafety.FailedIdleSealRestores` | crates/xlfn-kernel/src/drain_gate.rs:428-438 | A failed idle seal, raced by any admissions, releases and waits, ends with every stripe open, or every stripe sealed, exactly as it began. |
| `DrainGateSafety.FailStopsAreUnreachable` | crates/xlfn-kernel/src/drain_gate.rs:386-480 | Releases always find a count, and reopen and undo always find a sealed idle stripe. |
| `DrainGateProgress.FinishedWaitIsDrained` | crates/xlfn-kernel/src/drain_gate/control.rs:199-207 | In every run, a scan under a sealed claim that found all stripes idle and gives the lock up leaves a drained claim. |
| `DrainGateProgress.WaitAloneDrains` | crates/xlfn-kernel/src/drain_gate/control.rs:199-207 | Alone on a sealed idle gate, a wait returns a drained claim. |
| `DrainGateProgress.NotifiedAloneReturns` | crates/xlfn-kernel/src/drain_gate.rs:96-114 | So does a parked waiter that was notified. |
| `DrainGateProgress.FreeWaitAloneReturns` | crates/xlfn-kernel/src/drain_gate.rs:453-461 | A wait without a claim returns too and leaves nothing but waiting bits. |
| `DrainGateProgress.ClaimAloneSeals` | crates/xlfn-kernel/src/drain_gate.rs:421-428 | Alone, a claim seals every stripe, busy or not, and keeps every count. |
| `DrainGateProgress.ClaimsAreTakenAndGivenBack` | crates/xlfn-kernel/src/drain_gate/control.rs:128-173 | Where no claim is out, one can be taken, recognizes a sealed gate, and can be given back. |
| `DrainGateProgress.DrainedAloneReopens` | crates/xlfn-kernel/src/drain_gate/control.rs:221-233 | Alone, a drained claim opens every stripe. |
| `DrainGateProgress.SealedIdleGateCanReopen` | crates/xlfn-kernel/src/drain_gate/control.rs:199-233 | From every reachable state with a sealed claim, a free lock and idle stripes, the claim's own steps lead to a gate open on every stripe. |
| `DrainGateProgress.IdleSealAloneSucceeds` | crates/xlfn-kernel/src/drain_gate.rs:428-438 | Alone on an open idle gate, an idle seal seals every stripe and touches nothing else. |
| `DrainGateProgress.UndoesAlone` | crates/xlfn-kernel/src/drain_gate.rs:431-440 | Alone, an attempt that gave up puts every stripe back, whatever the stripes are that it never reached. |
| `DrainGateProgress.UndisturbedIdleSealDoesNotFail` | crates/xlfn-kernel/src/drain_gate.rs:428-438 | In every run, an attempt on an open idle gate during which nobody else moves does not fail. |
| `DrainGateProgress.IdleSealIsLostToADisturbance` | crates/xlfn-kernel/src/sealable_counter/transitions.rs:476-486 | In every run, an attempt gives up only at a stripe that was sealed or busy when loaded, or that changed before the exchange. |
| `DrainGateProgress.ReleaseAloneCompletes` | crates/xlfn-kernel/src/drain_gate.rs:386-398 | Alone, the owner of a count gives it up, on the fast or on the slow path. |
| `DrainGateProgress.NotifiesExactlyWhenIdle` | crates/xlfn-kernel/src/drain_gate.rs:96-105 | A release under the lock notifies exactly when it made its stripe idle. |
| `DrainGateProgress.WhyWaitersMove` | crates/xlfn-kernel/src/drain_gate.rs:107-114 | A waiter parks only after it has looked at every stripe and found one busy, and goes on only when notified. |
| `DrainGateProgress.OpenStripesAdmit` | crates/xlfn-kernel/src/drain_gate.rs:359-368 | Where a stripe is open a thread gets in, and the stripe counts it. |
| `DrainGateProgress.AloneIsReachable` | crates/xlfn-kernel/src/drain_gate.rs:359-480 | What a thread reaches alone is reached in a run of the whole gate. |
| `SealableCounter.DecodeEncode` | crates/xlfn-kernel/src/sealable_counter.rs:29-31 | Every in-range triple has a word that reads back unchanged. |
| `SealableCounter.EncodeDecode` | crates/xlfn-kernel/src/sealable_counter.rs:29-31 | Every word is the encoding of the triple it reads as. |
| `SealableCounter.StepRefines` | crates/xlfn-kernel/src/sealable_counter.rs:51-98 | Each masked update of the word is the abstract update of (sealed, waiting, active), with the same rejections and fail-stops. |
| `SealableCounter.RunRefines` | crates/xlfn-kernel/src/sealable_counter.rs:113-202 | No sequence of operations lets the count reach the flag bits. |
| `SealableCounter.LastCountIsKept` | crates/xlfn-kernel/src/sealable_counter.rs:70-81 | While a waiter is registered, no sequence of operations without the locked release gives up the last count. |
| `SealableCounter.WidthsInUse` | crates/xlfn-kernel/src/sealable_counter/transitions.rs:20-28 | The masks at 32 and 64 bits are the source's constants. |
| `SealableCounter.Counter.constructor` | crates/xlfn-kernel/src/sealable_counter.rs:101-111 | A new counter is idle, open or sealed as asked. |
| `SealableCounter.Counter.Update` | crates/xlfn-kernel/src/sealable_counter.rs:113-202 | One atomic update changes the abstract value as specified, and nothing when refused. |
| `SealableCounter.Counter.ReleaseOne` | crates/xlfn-kernel/src/sealable_counter.rs:127-138 | A release reports that the counter became idle exactly when it gave up the only count. |
| `SealableCounter.Counter.RegisterWaiter` | crates/xlfn-kernel/src/sealable_counter.rs:160-165 | Sets the waiting bit and returns the count seen by the same update. |
| `RotatingReadSafety.PublishKeepsInv` | crates/xlfn-kernel/src/rotating_read_domain/transition.rs:145-153 | The generation that is published has no reader, so whoever still holds a record of the retired queue is inside the retired generation. |
| `RotatingReadSafety.AppendStaysAccounted` | crates/xlfn-kernel/src/rotating_read_domain/protocol.rs:81-101 | A record that enters the queue of the current generation, where the recheck under the lock puts it, keeps every record in exactly one place and out of the hands of readers it must not reach. |
| `RotatingReadSafety.DeliveryKeepsInv` | crates/xlfn-kernel/src/rotating_read_domain/transition/retirement.rs:14-20 | Emptying the queue of a generation without readers keeps the grace condition and conserves records. |
| `RotatingReadSafety.StepKeepsInv` | crates/xlfn-kernel/src/rotating_read_domain.rs:59-80 | Every step of a reader, a retiring writer or the transition holder keeps the invariant. |
| `RotatingReadSafety.RunsKeepInv` | crates/xlfn-kernel/src/rotating_read_domain.rs:59-80 | The same for every interleaving. |
| `RotatingReadSafety.SafeReclamation` | crates/xlfn-kernel/src/rotating_read_domain.rs:163-178 | A record taken from a queue is held by no admitted reader, delayed readers included, and is out of reach for later ones. |
| `RotatingReadSafety.OnlyTheCurrentGenerationAdmits` | crates/xlfn-kernel/src/rotating_read_domain.rs:66-80 | At most one generation admits, the published one; a reader with a stale selection is refused (D1, D2). |
| `RotatingReadSafety.RegisteredExactlyOnce` | crates/xlfn-kernel/src/rotating_read_domain.rs:287-299 | Every registered record is in exactly one queue or was delivered in exactly one batch; no other record is anywhere. |
| `RotatingReadSafety.GenerationsAreDrainedWhenUsed` | crates/xlfn-kernel/src/rotating_read_domain/transition.rs:138-158 | The replacement is sealed and without readers when a rotation reuses it, the retired generation while its queue is taken (D3, D4). |
| `RotatingReadSafety.ClosedNeverReopens` | crates/xlfn-kernel/src/rotating_read_domain/transition.rs:404-415 | After closure no stripe of either generation opens again (D5). |
| `RotatingReadSafety.OneGenerationIsOpenBetweenTransitions` | crates/xlfn-kernel/src/rotating_read_domain.rs:66-74 | Between transitions an open domain admits on every stripe of exactly one generation, also after a failed idle seal. |
| `RotatingReadSafety.ClosureIsReportedOnlyWhenClosed` | crates/xlfn-kernel/src/rotating_read_domain.rs:132-145 | A call that ends without an admission found the domain closed at an instant of its own. |
| `RotatingReadSafety.ClosedAdmitsNoNewCall` | crates/xlfn-kernel/src/rotating_read_domain.rs:132-145 | After closure no call that had not yet found the domain open is ever admitted. |
| `RotatingReadSafety.RefusedOnlyByASealedStripe` | crates/xlfn-kernel/src/rotating_read_domain.rs:132-145 | In every run, a call starts over only because a stripe of the generation it had selected was sealed. |
| `RotatingReadSafety.NoRecordIsLost` | crates/xlfn-kernel/src/rotating_read_domain.rs:163-178 | In every run, each record that was ever used is reachable, registered, or in the hands of a writer. |
| `RotatingReadProgress.CallAloneIsAdmitted` | crates/xlfn-kernel/src/rotating_read_domain.rs:132-145 | Between transitions a call alone is admitted to the current generation. |
| `RotatingReadProgress.CallAloneReportsClosure` | crates/xlfn-kernel/src/rotating_read_domain.rs:132-145 | On a closed domain a call alone reports that. |
| `RotatingReadProgress.EveryCallAloneEnds` | crates/xlfn-kernel/src/rotating_read_domain.rs:132-145 | A call under way with whatever selection, alone, gets in and leaves, or is told of the closure. |
| `RotatingReadProgress.LinkedRecordsAreReached` | crates/xlfn-kernel/src/rotating_read_domain.rs:59-80 | An admitted reader can get hold of every linked record. |
| `RotatingReadProgress.NewRecordsAreLinked` | crates/xlfn-kernel/src/rotating_read_domain.rs:59-80 | A record that was never used can be linked. |
| `RotatingReadProgress.WriterAloneRetires` | crates/xlfn-kernel/src/rotating_read_domain.rs:163-178 | A writer alone withdraws a record and registers it in the queue of the current generation. |
| `RotatingReadProgress.StaleWriterStartsOver` | crates/xlfn-kernel/src/rotating_read_domain/protocol.rs:81-101 | A writer whose selection went stale gives the queue lock back and starts over. |
| `RotatingReadProgress.WriterAloneRegisters` | crates/xlfn-kernel/src/rotating_read_domain/protocol.rs:81-101 | A writer alone registers the record it withdrew in the queue of the current generation. |
| `RotatingReadProgress.RotationAloneDelivers` | crates/xlfn-kernel/src/rotating_read_domain/transition.rs:113-158 | A rotation alone of a generation without readers swaps the generations, delivers exactly the old queue and leaves the domain ready for the next. |
| `RotatingReadProgress.UnfinishedRotationIsPending` | crates/xlfn-kernel/src/rotating_read_domain/transition.rs:145-158 | A rotation that ends before the drain has swapped the generations, delivered nothing and recorded the old one as pending. |
| `RotatingReadProgress.HolderMayLeave` | crates/xlfn-kernel/src/rotating_read_domain/transition.rs:206-260 | Before, while and after it waits, and after a close, the holder may give the transition lock up with everything else as it is. |
| `RotatingReadProgress.IdleAttemptAloneSeals` | crates/xlfn-kernel/src/rotating_read_domain/transition.rs:160-200 | An idle attempt that meets no reader gets as far as a plain seal. |
| `RotatingReadProgress.RefusedAttemptRestores` | crates/xlfn-kernel/src/rotating_read_domain/transition.rs:160-200 | A refused attempt, at whatever stripe, puts the domain back as it was. |
| `RotatingReadProgress.PendingAloneDelivers` | crates/xlfn-kernel/src/rotating_read_domain/transition.rs:98-111 | A rotation left pending is resumed and delivers the same queue. |
| `RotatingReadProgress.CloseAloneDelivers` | crates/xlfn-kernel/src/rotating_read_domain/transition.rs:404-415 | A close alone seals everything for good, and both queues can be taken. |
| `RotatingReadProgress.AloneIsReachable` | crates/xlfn-kernel/src/rotating_read_domain.rs:59-80 | What a thread reaches alone is reached in a run of the whole domain. |
| `GateCounters.StripesMoveByOperations` | crates/xlfn-kernel/src/sealable_counter.rs:51-98 | Every step of the gate leaves a stripe alone or is one operation of its packed counter; the plain release only under the idle lock. |
| `GateCounters.RunsOnWords` | crates/xlfn-kernel/src/sealable_counter.rs:113-202 | A run of the gate whose counts fit the word is a run on machine words: each stripe is at every instant what its word reads as, and each change is one successful masked update. |
| `GateView.EveryStepIsSeen` | crates/xlfn-kernel/src/drain_gate.rs:352-480 | Every step of a gate admits a thread, gives up a count, closes a stripe, opens one, or is invisible from outside. |
| `GateView.DesertedShows` | crates/xlfn-kernel/src/drain_gate.rs:442-461 | A sealed and idle gate without tails shows no open stripe and nobody inside. |
| `GatedReadSafety.DrainedGateEmptiesItsGeneration` | crates/xlfn-kernel/src/rotating_read_domain/transition.rs:202-214 | A claim that has come back from the wait on a generation's gate has a generation that is sealed and without readers. |
| `GatedReadSafety.StepIsSound` | crates/xlfn-kernel/src/rotating_read_domain/transition.rs:132-251 | With real gates for generations, every step is a step of the domain or none, and keeps the invariants of domain and gates. |
| `GatedReadSafety.RunsProject` | crates/xlfn-kernel/src/rotating_read_domain/transition.rs:132-251 | Every run over real gates projects to a run of the domain, so all its theorems hold. |
| `GatedReadSafety.EveryGateStepIsKept` | crates/xlfn-kernel/src/rotating_read_domain/transition.rs:132-251 | Every step of a gate that the domain does not itself schedule is a step of the combination, so no interleaving of the gates is lost. |
| `GatedReadSafety.EveryDomainStepIsKept` | crates/xlfn-kernel/src/rotating_read_domain/transition.rs:81-251 | Every step of the domain that does not go through a gate is a step of the combination. |
| `GatedReadSafety.DrainedClaimEndsTheWait` | crates/xlfn-kernel/src/rotating_read_domain/transition.rs:202-214 | A drained claim on the retired generation lets the domain go on. |
| `GatedReadSafety.DrainedClaimEndsTheClosure` | crates/xlfn-kernel/src/rotating_read_domain/transition.rs:404-415 | A drained claim on a sealed generation lets a closure go on, or end. |
| `GatedReadSafety.SafeReclamation` | crates/xlfn-kernel/src/rotating_read_domain.rs:163-178 | Whoever has a permit of either gate holds no record that was taken from a queue. |
| `GatedReadSafety.ReplacementIsAlwaysDrained` | crates/xlfn-kernel/src/rotating_read_domain/transition.rs:138-143 | While a rotation is under way and not published, the gate it reuses is deserted: its stripes are sealed, its notification lock is free when it is tried, its scan finds every count zero; so the fail-stop of `try_drained` is unreachable. |
| `ServiceSlotSafety.StepKeepsInv` | crates/xlfn-kernel/src/service_slot/transaction.rs:168-308 | Every step of a reader or of the transition holder keeps the lane table, the pinned pointers and the ownership account. |
| `ServiceSlotSafety.RunsKeepInv` | crates/xlfn-kernel/src/service_slot/transaction.rs:168-308 | The same for every interleaving. |
| `ServiceSlotSafety.FailStopsAreUnreachable` | crates/xlfn-kernel/src/service_slot.rs:298-326 | A validated reader never loads a null pointer, and a replacement never finds its target lane occupied, although lanes are reused in turn. |
| `ServiceSlotSafety.TheActiveLaneAdmits` | crates/xlfn-kernel/src/service_slot.rs:265-278 | Whenever a lane is active it publishes a service and every stripe admits: replacement has no blackout. |
| `ServiceSlotSafety.OwnersAreHandedOutOnceAndAfterTheirReads` | crates/xlfn-kernel/src/service_slot/transaction/reclamation.rs:129-155 | Each installed service is published in one lane or was handed out once; never while a read of it lives. |
| `ServiceSlotSafety.ResetSucceedsIffNothingIsCurrent` | crates/xlfn-kernel/src/service_slot.rs:333-350 | With the lock free, `reset` succeeds exactly when no service is installed. |
| `ServiceSlotSafety.PermitPinsThePointer` | crates/xlfn-kernel/src/service_slot/transaction.rs:246-283 | The administrator stores only to the pointer of a lane without permits. |
| `ServiceSlotSafety.ValidatedSince` | crates/xlfn-kernel/src/service_slot.rs:298-326 | A reader that passed revalidation stood on the active lane at some instant since, and the lane still publishes that service. |
| `ServiceSlotSafety.ReadsReturnAnActiveService` | crates/xlfn-kernel/src/service_slot.rs:298-326 | A successful read returns a service that was the active one at an instant of the same call. |
| `ServiceSlotSafety.NothingIsReturnedOnlyWithoutAService` | crates/xlfn-kernel/src/service_slot.rs:298-303 | In every run, a call that ends without a read found no active service at an instant of its own. |
| `ServiceSlotSafety.ReadsSucceedWhileALaneIsActive` | crates/xlfn-kernel/src/service_slot.rs:298-326 | A call during which some lane is active at every instant does not end without a read. |
| `ServiceSlotSafety.WhyReadersMoveBack` | crates/xlfn-kernel/src/service_slot.rs:298-326 | A call starts over only at a sealed stripe or in a lane that is no longer active; a read ends only by its own release. |
| `ServiceSlotProgress.CallAloneReads` | crates/xlfn-kernel/src/service_slot.rs:298-326 | From every reachable state with an active lane, a call alone returns the active service. |
| `ServiceSlotProgress.CallAloneFindsNothing` | crates/xlfn-kernel/src/service_slot.rs:298-303 | Without one it returns nothing. |
| `ServiceSlotProgress.EveryCallAloneEnds` | crates/xlfn-kernel/src/service_slot.rs:298-326 | From every reachable state a call under way, alone, runs to its end and gives its permit back. |
| `ServiceSlotProgress.ReplacementAloneCompletes` | crates/xlfn-kernel/src/service_slot/transaction.rs:394-404 | A replacement alone, with no reader in the lane it retires, puts its candidate in service and hands the previous owner out. |
| `ServiceSlotProgress.CloseAloneCompletes` | crates/xlfn-kernel/src/service_slot/transaction.rs:408-410 | A close alone leaves nothing active and hands the owner out. |
| `ServiceSlotProgress.AbortRestores` | crates/xlfn-kernel/src/service_slot/transaction.rs:183-193 | A refused precommit puts everything back. |
| `ServiceSlotProgress.AloneIsReachable` | crates/xlfn-kernel/src/service_slot/transaction.rs:168-308 | What a thread reaches alone is reached in a run of the whole slot. |
| `GatedServiceSafety.LooksFreeIsFree` | crates/xlfn-kernel/src/service_slot/transaction.rs:226-233 | Sealed stripes, zero counts and a null pointer are exactly a lane that nobody uses. |
| `GatedServiceSafety.StepIsSound` | crates/xlfn-kernel/src/service_slot/transaction.rs:246-308 | With real gates for lanes, every step is a step of the slot or none, and keeps the invariants of slot and gates. |
| `GatedServiceSafety.RunsProject` | crates/xlfn-kernel/src/service_slot/transaction.rs:246-308 | Every run over real gates projects to a run of the slot. |
| `GatedServiceSafety.EveryGateStepIsKept` | crates/xlfn-kernel/src/service_slot/transaction.rs:246-308 | Every step of a gate that the slot does not itself schedule is a step of the combination. |
| `GatedServiceSafety.ReadsReturnAnActiveService` | crates/xlfn-kernel/src/service_slot.rs:298-326 | Over real gates too, a successful read returns a service that was active at an instant of the same call. |
| `GatedServiceSafety.NothingIsReturnedOnlyWithoutAService` | crates/xlfn-kernel/src/service_slot.rs:298-303 | The same over real gates: a call that ends without a read found no active service at an instant of its own. |
| `GatedServiceSafety.EverySlotStepIsKept` | crates/xlfn-kernel/src/service_slot/transaction.rs:168-308 | Every step of the slot that does not go through a gate is a step of the combination. |
| `GatedServiceSafety.GatesLetTheSlotGoOn` | crates/xlfn-kernel/src/service_slot/transaction.rs:222-283 | A refused reader, a free target lane and a drained claim let the slot go on. |
| `GatedServiceSafety.FailStopsAreUnreachable` | crates/xlfn-kernel/src/service_slot.rs:298-326 | Over real gates no null load and no occupied target lane occurs, and no running read has a service that was handed out. |
| `GenerationService.StepKeepsInv` | crates/xlfn-kernel/src/service_slot/transaction.rs:75-115 | Every step of a reader, of the initializer or of the teardown keeps the lifecycle table, the pinned reads and the ownership account. |
| `GenerationService.RunsKeepInv` | crates/xlfn-kernel/src/service_slot/transaction.rs:75-115 | The same for every interleaving. |
| `GenerationService.ReadsKeepTheOwner` | crates/xlfn-kernel/src/service_slot/transaction/reclamation.rs:84-123 | While a read holds a service, the slot still owns it: it was not handed out and its shutdown has not begun, although the pointer is cleared before the drain. |
| `GenerationService.OwnersAreHandedOutOnce` | crates/xlfn-kernel/src/service_slot/transaction/reclamation.rs:95-123 | Every committed service is owned by the slot or was handed out, exactly once; a failed or abandoned teardown retains it. |
| `GenerationService.CommitNeverStops` | crates/xlfn-kernel/src/service_slot/transaction.rs:88-107 | Publication finds the gate sealed and the initializer gets its own permit: neither fail-stop is reachable. |
| `GenerationService.ArmSucceedsIffClosed` | crates/xlfn-kernel/src/service_slot.rs:118-131 | Arming succeeds exactly in the closed state; the gate and the pointer never stand in its way. |
| `GenerationService.ArmedOnlyFromClosed` | crates/xlfn-kernel/src/service_slot/transaction.rs:53-62 | In every run the slot becomes armed again only through its closed state: a failed initialization is not retried before that. |
| `GenerationService.RetainedForGood` | crates/xlfn-kernel/src/service_slot/transaction/reclamation.rs:54-66 | A service whose teardown failed is retained in every later state and never handed out. |
| `GenerationService.FailedTeardownRetains` | crates/xlfn-kernel/src/service_slot/transaction/reclamation.rs:54-84 | A teardown that fails or is abandoned, before or after the drain, leaves its owner retained. |
| `GenerationService.FailedInitializationCanBeRearmed` | crates/xlfn-kernel/src/service_slot.rs:133-149 | A failed initialization is remembered; disarmed, the slot can be armed again. |
| `GenerationService.NothingIsReadOnlyInTeardown` | crates/xlfn-kernel/src/service_slot.rs:157-170 | A read with a permit that finds nothing came during or after a teardown; while the service is ready it gets that service. |
| `GenerationService.ReadsEndByTheirRelease` | crates/xlfn-kernel/src/service_slot.rs:157-170 | A running read ends only by giving its permit back. |
| `GenerationService.CallAloneReads` | crates/xlfn-kernel/src/service_slot.rs:157-170 | A call alone reads the service that is ready. |
| `GenerationService.EveryCallAloneEnds` | crates/xlfn-kernel/src/service_slot.rs:157-178 | Whatever a call has found, alone it gives its permit back. |
| `GenerationService.FirstCallAloneInitializes` | crates/xlfn-kernel/src/service_slot/transaction.rs:349-361 | The first caller of an armed slot, alone, initializes it and gets the first read. |
| `GenerationService.TeardownAloneDelivers` | crates/xlfn-kernel/src/service_slot/transaction/reclamation.rs:84-114 | A teardown alone hands the service out, and the slot can be armed again. |
| `GenerationService.AloneIsReachable` | crates/xlfn-kernel/src/service_slot/transaction.rs:75-115 | What a thread reaches alone is reached in a run of the whole slot. |
| `PackageImages.LowerMeans` | crates/xlfn-package/src/pe.rs:460 | Lower-cases the ASCII letters and nothing else. |
| `ForwardedExports.CyclesNeverEnd` | crates/xlfn-package/src/pe.rs:433-440 | A chain that returns to an earlier export never ends. |
| `ForwardedExports.ChainsShareTheirEnd` | crates/xlfn-package/src/pe.rs:419-485 | All exports of one chain end or do not end together, which is what the shared memo relies on. |
| `ForwardedExports.ForwardedEnds` | crates/xlfn-package/src/pe.rs:445-483 | A forwarded export ends exactly when its library is a system or declared external one, or is bundled and exports the symbol, and the chain from there ends if it is forwarded again. |
| `ForwardedExports.DirectEnds` | crates/xlfn-package/src/pe.rs:445-458 | An export that is not forwarded ends exactly when the image has it. |
| `ForwardedExports.HopMeans` | crates/xlfn-package/src/pe.rs:460-481 | The exact condition for a hop to another bundled export. |
| `ForwardedExports.ValidateForwardedSymbol` | crates/xlfn-package/src/pe.rs:419-485 | Accepts exactly when the chain ends at a direct export or outside the package; the memo only ever holds exports whose chains end; a refusal shows a real cycle or a dangling export. |
| `ForwardedExports.ValidateForwardedExports` | crates/xlfn-package/src/pe.rs:406-417 | Accepts exactly when every forwarded export of every image has a chain that ends, in any order of visits. |
| `DependencyGraph.ImportOkMeans` | crates/xlfn-package/src/pe.rs:355-398 | The flat check of an import in terms of the package alone. |
| `DependencyGraph.TargetMeans` | crates/xlfn-package/src/pe.rs:355-360 | The image an import leads to. |
| `DependencyGraph.CheckImport` | crates/xlfn-package/src/pe.rs:355-398 | The checks of one import succeed exactly when its name is valid and it is external or resolved with all its targets. |
| `DependencyGraph.StacksArePaths` | crates/xlfn-package/src/pe.rs:359-370 | The names on the search stack form a path of real imports. |
| `DependencyGraph.ValidateDependencyNode` | crates/xlfn-package/src/pe.rs:335-404 | The search terminates on every graph, visits only images that pass the flat check, and reports a real import path from its root to an offending import. |
| `DependencyGraph.ValidateDependencyGraph` | crates/xlfn-package/src/pe.rs:305-318 | Accepts exactly when no library is both bundled and external, every import of every image passes the flat check and every forwarder chain ends. |
| `SectionLayout.ConsistentMeans` | crates/xlfn-package/src/pe.rs:688-700 | Consistent headers: both alignments powers of two, the section alignment not smaller and equal below a page, the image a whole number of units that holds its headers. |
| `SectionLayout.OccupiedMeans` | crates/xlfn-package/src/pe.rs:708-721 | Sections with content are kept, in their order; the others are dropped. |
| `SectionLayout.AlignEndRoundsUp` | crates/xlfn-package/src/pe.rs:701-705 | The masked rounding is the least multiple not below its input, and is refused exactly when that multiple does not fit 32 bits. |
| `SectionLayout.HeadersAlwaysRound` | crates/xlfn-package/src/pe.rs:706 | Rounding the headers of a consistent image never overflows. |
| `SectionLayout.PlaceSection` | crates/xlfn-package/src/pe.rs:708-737 | A section is placed exactly when the sections so far and this one are well placed together. |
| `SectionLayout.ValidateMappedSections` | crates/xlfn-package/src/pe.rs:682-739 | Accepts exactly the layouts whose page ranges are aligned, ordered, disjoint, clear of the headers and inside the image, and returns the occupied sections in order. |
| `SectionLayout.AddressesHaveOneSection` | crates/xlfn-package/src/pe.rs:766-776 | An export address lies in at most one accepted section, past the headers and inside the image. |
| `StableSnapshot.ContentMeans` | crates/xlfn-package/src/staging.rs:930-948 | The content is what the reads return one after the other, up to the first that returns nothing. |
| `StableSnapshot.CompareStableSnapshot` | crates/xlfn-package/src/staging.rs:904-955 | For every chunking: fails exactly on an over-long or changing file, and otherwise tells whether the bytes equal the expected ones. |
| `StableSnapshot.ReadStableSnapshot` | crates/xlfn-package/src/staging.rs:832-899 | For every chunking: fails exactly on an over-long or changing file, and otherwise returns its bytes. |
| `PreparedTree.PreparedBudget.AccountEntry` | crates/xlfn-package/src/commit.rs:67-81 | Succeeds exactly while another entry fits. |
| `PreparedTree.PreparedBudget.ReserveBytes` | crates/xlfn-package/src/commit.rs:83-97 | Succeeds exactly while the bytes fit, 64-bit overflow included. |
| `PreparedTree.ReadDirectoryEntries` | crates/xlfn-package/src/commit.rs:391-420 | Lists exactly the directories within the limit whose names are valid and distinct. |
| `PreparedTree.PrepareFile` | crates/xlfn-package/src/commit.rs:459-494 | Accepts exactly when every pass it makes is stable and within the opened length and, where the platform reads twice, the second look agrees; records the bytes of that pass. |
| `PreparedTree.RecordedBytesWereRead` | crates/xlfn-package/src/commit.rs:459-494 | Even of a file that changes between passes, only bytes shown by a stable pass are recorded, never unread shared ones. |
| `PreparedTree.HintsDoNotMatter` | crates/xlfn-package/src/commit.rs:462-482 | Of a tree that nothing disturbs the same snapshot is recorded whatever is shared, wherever it lies, however often it is read. |
| `PreparedTree.PrepareDirectoryEntry` | crates/xlfn-package/src/commit.rs:440-504 | Succeeds exactly on a well-formed entry that fits the budget, and accounts for exactly its totals. |
| `PreparedTree.PrepareDirectoryContents` | crates/xlfn-package/src/commit.rs:506-538 | The same for everything below a directory, which must be the same directory at the end. |
| `PreparedTree.PrepareTree` | crates/xlfn-package/src/commit.rs:199-235 | An undisturbed tree is accepted exactly when it has the expected top-level names and its total entries and bytes are within the two limits, independently of sharing hints; any tree exactly when every read of it succeeds besides. |
| `PreparedTreeLedger.AcceptedEverywhere` | crates/xlfn-package/src/commit.rs:440-538 | In an accepted tree every directory at every depth was unchanged with valid distinct names, and every file was vouched for by stable passes. |
| `PreparedTreeLedger.TotalsMeanTheWholeTree` | crates/xlfn-package/src/commit.rs:60-102 | The totals count every entry at any depth once and the length of every file once. |
| `PreparedTreeLedger.LimitsInNumbers` | crates/xlfn-package/src/error.rs:14-15 | A tree is within the limits exactly when it has at most 100,000 entries and 536,870,912 bytes. |
| `PreparedTreeVerification.VerifyFile` | crates/xlfn-package/src/commit.rs:574-614 | Compares once or twice, then the identity of a source. |
| `PreparedTreeVerification.VerifyPrepared` | crates/xlfn-package/src/commit.rs:554-627 | Decides whether a tree matches a snapshot, the closing identity check included. |
| `PreparedTreeVerification.SnapshotIsCoherent` | crates/xlfn-package/src/commit.rs:506-538 | An accepted snapshot has each key once, for exactly its entries, within the limit. |
| `PreparedTreeVerification.VerifiedIffShown` | crates/xlfn-package/src/commit.rs:554-627 | Verification against an accepted snapshot succeeds exactly when the tree is steady while it is walked and shows the recorded directories and bytes at every path, for any read sizes. |
| `PreparedTreeVerification.VerifiedIffSame` | crates/xlfn-package/src/commit.rs:554-627 | For the snapshot of an undisturbed tree: another tree is verified exactly when it is steady and shows the same directories and bytes at every path; the unchanged tree is. |
| `CellReference.DecimalDigitIsUnique` | crates/xlfn-common/src/lib.rs:300-318 | The digit blocks are disjoint, so a character has the value of its one block. |
| `CellReference.AsciiDigits` | crates/xlfn-common/src/lib.rs:300-318 | Of the ASCII characters exactly the ten digits count, with their own values. |
| `CellReference.AsciiRows` | crates/xlfn-common/src/lib.rs:248 | A run of decimal digits is ASCII exactly when it is written with 0 to 9. |
| `CellReference.LastRow` | crates/xlfn-common/src/lib.rs:236 | Rows run to 1048576. |
| `CellReference.LastColumn` | crates/xlfn-common/src/lib.rs:237 | Column 16384 is XFD. |
| `CellReference.LastColumnNumber` | crates/xlfn-common/src/lib.rs:237 | In numbers, columns run to 16384. |
| `CellReference.NoZeroIndex` | crates/xlfn-common/src/lib.rs:297 | An index is not zero and has a digit. |
| `CellReference.IsGridIndex` | crates/xlfn-common/src/lib.rs:282-298 | The early cut-off never changes the answer: accepted exactly when the whole run of digits denotes a number from one to the limit. |
| `CellReference.IndexSpells` | crates/xlfn-common/src/lib.rs:282-298 | An index is accepted exactly when it is the decimal notation of an in-range number after any number of zeroes. |
| `CellReference.NameOfColumnValue` | crates/xlfn-common/src/lib.rs:245-247 | The letter fold inverts the column name. |
| `CellReference.ValueOfColumnName` | crates/xlfn-common/src/lib.rs:245-247 | The column name inverts the letter fold. |
| `CellReference.IsA1Reference` | crates/xlfn-common/src/lib.rs:239-249 | True exactly for the spellings of cells of the 16,384 by 1,048,576 grid. |
| `CellReference.IsR1C1Reference` | crates/xlfn-common/src/lib.rs:251-280 | True exactly for in-grid rows and columns, row-column cells with either index omitted, and column-row cells with both. |

## Left out

- Weak memory orderings: all steps are sequentially consistent.
- Real file I/O, permissions, access-control lists, reparse points, retries, the commit lock file, BLAKE3 and JSON: directories are identities, records are valid or torn, and a call works, fails or is the last one before a crash.
- `GenerationServiceSlot`: the condition variable on which callers await another caller's initialization or teardown, and the cloning of fault values.
- Abandoned retirements of `ReplaceableServiceSlot`: publication, wait and reclamation run without a fallible step between them, so retained owners arise only in exclusive destruction, which is not modelled.
- Liveness: that a waiter eventually runs or a retry loop ends depends on the scheduler; what is proved is that no wakeup is lost and that the active lane and the current generation admit.
- Plain `quiesce` without a publication barrier: it serves callers without retirement queues.
- `validate_function_name` beyond the two reference recognisers, `operation_gate.rs`, `quota.rs`, `published_owner.rs`, `thread_affine.rs`: short branches or one-line wrappers.
- Decoding of PE bytes, of import names and of forwarder names: the validators start from decoded images.
- Display names and message texts of the reported chains: chains are lists of image keys.
- StableSnapshot.CompareStableSnapshot: trusts that equal file states before and after a pass mean an unchanged file.
- PreparedTree.PrepareDirectoryEntry: keeps entries in listing order instead of key order; no result depends on the order.
- PreparedTreeVerification.VerifyPrepared: file and directory identities are numbers, and the listing of a directory does not change while it is read.
- The macros, the command-line front end, the foreign-function layer, benchmarks and guides.
