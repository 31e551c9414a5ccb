/**
 The commit and recovery procedures as they run: one durable step at a time,
 against a file system in which any call may fail and the process may die
 before any call.
 */
module DistributionStore {
  import opened Options
  import opened DistributionModel
  import opened DistributionTheory

  /** What happens to one file-system call: it works, it reports an error, or the process dies first. */
  datatype Fault = Quiet | Fail | Crash

  /** How a procedure ends. `Rejected` is a failed check; `Aside` is a quarantine. */
  datatype Signal = Done | Failed | Rejected | Aside | Crashed

  const MAX_SEQUENCE: nat := 0xFFFF_FFFF_FFFF_FFFF

  /** Calls made to write one record: encode, create, complete, replace, sync. */
  const RECORD_CALLS: nat := 5

  /** Calls made to put a directory where another is gone: check the paths, move, sync. */
  const MOVE_CALLS: nat := 3

  /** Calls made to replace the destination by the backup: check, move it out, sync, move the backup in, sync. */
  const REPLACE_CALLS: nat := 5

  /** The records an undisturbed commit writes before its Committed record. */
  function Forward(hadPrevious: bool): seq<TransactionState> {
    if hadPrevious then [Prepared, PreviousSaved, InstallPending, Installed]
    else [Prepared, NoPrevious, InstallPendingNoPrevious, InstalledNoPrevious]
  }

  /** The records a rollback adds. */
  function Backward(hadPrevious: bool): seq<TransactionState> {
    if hadPrevious then [RollbackPending, RolledBack] else [RollbackPendingNoPrevious]
  }

  datatype ErrorKind = Plain | Interrupted | Recovery | QuarantinedError

  datatype CommitResult = Complete | BackupRetained | Error(kind: ErrorKind) | Died

  /** The records of a commit that was rolled back: after a failed install rename, or after a failed verification. */
  predicate Unwound(recorded: seq<TransactionState>, hadPrevious: bool) {
    || (hadPrevious && recorded == Forward(true)[..3] + Backward(true))
    || recorded == Forward(hadPrevious) + Backward(hadPrevious)
  }

  /** A committed directory stays at the destination until a later attempt starts from it. */
  ghost predicate Superseded(a: Attempt, committed: bool, later: Attempt, d: Disk) {
    committed ==> d.destination == Some(a.staged) || later.original == Some(a.staged)
  }

  /** `after` is the disk after `k` steps of `run`, and the signal says whether the run was finished. */
  ghost predicate Follows(before: Disk, run: Run, after: Disk, s: Signal, k: nat) {
    && k <= |run.steps|
    && after == At(before, run.steps, k)
    && (s.Done? ==> run.verdict.Recovered? && k == |run.steps|)
    && (s.Rejected? ==> run.verdict.Refused? && k == |run.steps|)
    && (s.Aside? ==> run.verdict.Quarantine?)
  }

  /** The same for settling the journal files; `found` is the record left to act on. */
  ghost predicate FollowsResolution(before: Disk, after: Disk, s: Signal, found: Option<Journal>, k: nat)
    requires before.transactions != []
  {
    match ResolveRun(before)
    case Settled(run) => Follows(before, run, after, s, k) && found.None?
    case Ready(steps, record) =>
      && Follows(before, Run(steps, Recovered), after, s, k)
      && !s.Aside?
      && (s.Done? ==> found == Some(record))
  }

  lemma FollowsAfter(d: Disk, steps: seq<Disk>, run: Run, after: Disk, s: Signal, k: nat)
    requires Follows(Last(d, steps), run, after, s, k)
    ensures Follows(d, Prepend(steps, run), after, s, |steps| + k)
  {
    assert k > 0 ==> (steps + run.steps)[|steps| + k - 1] == run.steps[k - 1];
  }

  lemma SwapAfterClearing(d: Disk, r: Journal)
    requires d.transactions != [] && r.installed == d.destination && d.transactions[0].recoveryInstall == r.installed
    requires d.destination.Some?
    ensures SwapRun(d, r) == Prepend([RemoveRecoveryInstall(d)], SwapRun(RemoveRecoveryInstall(d), r))
  {
    var d1 := RemoveRecoveryInstall(d);
    assert RemoveRecoveryInstall(d1) == d1;
  }

  /** Stopped before the end of its first part, a run in two parts is stopped there. */
  lemma FollowsBefore(d: Disk, steps: seq<Disk>, rest: Run, after: Disk, s: Signal, k: nat)
    requires Follows(d, Run(steps, Recovered), after, s, k) && !s.Done? && !s.Aside?
    ensures Follows(d, Prepend(steps, rest), after, s, k)
  {
    assert k > 0 ==> (steps + rest.steps)[k - 1] == steps[k - 1];
  }

  /** A settling that does not finish is a recovery that does not finish. */
  lemma StoppedSettling(d: Disk, settle: Run, after: Disk, s: Signal, k: nat)
    requires d.transactions != [] && (settle.verdict.Recovered? ==> Last(d, settle.steps).transactions != [])
    requires Follows(d, settle, after, s, k) && !s.Done?
    ensures Follows(d, ThenRemoveTransaction(d, settle), after, s, k)
  {
    if settle.verdict.Recovered? {
      FollowsBefore(d, settle.steps, Run([RemoveTransaction(Last(d, settle.steps))], Recovered), after, s, k);
    }
  }

  lemma FinishRunOf(d: Disk, r: Journal)
    requires d.transactions != [] && !(d.transactions[0].isPrivate && HasPayload(d.transactions[0]))
    ensures FinishRun(d, r) == ThenRemoveTransaction(d, SettleRun(d, r))
  {
  }

  lemma RecoveryRunOf(d: Disk, steps: seq<Disk>, r: Journal)
    requires d.transactions != [] && ResolveRun(d) == Ready(steps, r)
    ensures Last(d, steps).transactions != [] && RecoveryRun(d) == Prepend(steps, FinishRun(Last(d, steps), r))
  {
  }

  lemma StoppingFollows(d: Disk, after: Disk, s: Signal, found: Option<Journal>, k: nat)
    requires d.transactions != [] && FollowsResolution(d, after, s, found, k)
    requires !s.Done? || found.None?
    ensures Follows(d, RecoveryRun(d), after, s, k)
  {
    if ResolveRun(d).Ready? {
      var Ready(steps, r) := ResolveRun(d);
      RecoveryRunOf(d, steps, r);
      FollowsBefore(d, steps, FinishRun(Last(d, steps), r), after, s, k);
    }
  }

  class DistributionStore {
    const faults: nat -> Fault
    var clock: nat
    var disk: Disk
    ghost var attempt: Attempt
    ghost var committed: bool
    /** How many calls have failed or killed the process. */
    ghost var troubles: nat
    /** The destination has changed since the commit began. */
    ghost var touched: bool
    /** A rollback of this commit has run to its end. */
    ghost var undone: bool
    /** The directory that was at the destination when the commit verified it. */
    ghost var verified: Option<DirectoryId>
    /** The states this commit has durably recorded. */
    ghost var recorded: seq<TransactionState>
    /** How many states were recorded at each verification of the staged directory. */
    ghost var inspections: seq<nat>

    ghost predicate Valid()
      reads this
    {
      Inv(attempt, committed, disk)
    }

    /** The last call made was the one that went wrong. */
    ghost predicate Blamed(since: nat)
      reads this
    {
      since < clock && !faults(clock - 1).Quiet?
    }

    /** Nothing goes wrong from call number `since` on. */
    ghost predicate Calm(since: nat) {
      forall i :: since <= i ==> faults(i).Quiet?
    }

    /** A parent directory that holds a distribution or none, and no transaction. */
    constructor (faults: nat -> Fault, destination: Option<DirectoryId>)
      ensures Valid() && clock == 0 && this.faults == faults
      ensures disk == Disk(destination, None, [], []) && !committed && attempt.original == destination
    {
      this.faults, clock := faults, 0;
      disk := Disk(destination, None, [], []);
      attempt, committed := Attempt(destination, if destination == Some(0) then 1 else 0), false;
      troubles, touched, undone, verified, recorded, inspections := 0, false, false, None, [], [];
    }

    /** A call that changes no name: a sync, a lock check, a path or content verification. */
    method Boundary() returns (s: Signal)
      modifies this`clock, this`troubles
      ensures s.Done? || s.Failed? || s.Crashed?
      ensures clock == old(clock) + 1
      ensures s.Done? <==> faults(old(clock)).Quiet?
      ensures s.Failed? <==> faults(old(clock)).Fail?
      ensures troubles == old(troubles) + if s.Done? then 0 else 1
    {
      var fault := faults(clock);
      clock := clock + 1;
      troubles := if fault.Quiet? then troubles else troubles + 1;
      s := match fault case Quiet => Done case Fail => Failed case Crash => Crashed;
    }

    /** One durable change; an error or a crash leaves the disk as it was. */
    method Step(next: Disk) returns (s: Signal)
      modifies this`clock, this`troubles, this`disk, this`touched
      ensures s.Done? || s.Failed? || s.Crashed?
      ensures clock == old(clock) + 1
      ensures s.Done? <==> faults(old(clock)).Quiet?
      ensures s.Failed? <==> faults(old(clock)).Fail?
      ensures disk == if s.Done? then next else old(disk)
      ensures touched == (old(touched) || disk.destination != old(disk).destination)
      ensures troubles == old(troubles) + if s.Done? then 0 else 1
    {
      s := Boundary();
      if s.Done? {
        touched := touched || next.destination != disk.destination;
        disk := next;
      }
    }

    /** A durable change followed by the directory syncs that persist it. */
    method StepAndSync(next: Disk) returns (s: Signal, moved: bool)
      modifies this`clock, this`troubles, this`disk, this`touched
      ensures s.Done? || s.Failed? || s.Crashed?
      ensures disk == if moved then next else old(disk)
      ensures s.Done? ==> moved
      ensures old(clock) < clock
      ensures !s.Done? ==> Blamed(old(clock))
      ensures s.Done? ==> troubles == old(troubles)
    {
      moved := false;
      s := Step(next);
      if s.Done? {
        moved := true;
        s := Boundary();
      }
    }

    // Recovery.

    method SetAside() returns (s: Signal, ghost k: nat)
      requires disk.transactions != []
      modifies this`clock, this`troubles, this`disk, this`touched
      ensures Follows(old(disk), Quarantined(old(disk)), disk, s, k)
      ensures s.Aside? || s.Crashed?
      ensures old(clock) <= clock && (s.Crashed? ==> Blamed(old(clock)))
      ensures disk.staging == old(disk.staging)
    {
      k := 0;
      s := Step(QuarantineTransaction(disk));
      if s.Crashed? {
        return;
      }
      k := if s.Done? then 1 else 0;
      s := Aside;
    }

    method DropRecoveryInstall(r: Journal) returns (s: Signal, ghost k: nat)
      requires disk.transactions != []
      modifies this`clock, this`troubles, this`disk, this`touched
      ensures Follows(old(disk), RemoveRecoveryRun(old(disk), r), disk, s, k)
      ensures old(clock) <= clock && (s.Failed? || s.Crashed? ==> Blamed(old(clock))) && (s.Done? ==> troubles == old(troubles))
      ensures disk.staging == old(disk.staging)
      ensures !s.Aside?
    {
      k := 0;
      var aside := disk.transactions[0].recoveryInstall;
      if aside.None? {
        return Done, 0;
      }
      if r.installed.None? || aside != r.installed {
        return Rejected, 0;
      }
      var moved;
      s, moved := StepAndSync(RemoveRecoveryInstall(disk));
      k := if moved then 1 else 0;
    }

    method RemoveInstalledDistribution(r: Journal) returns (s: Signal, ghost k: nat)
      modifies this`clock, this`troubles, this`disk, this`touched
      ensures Follows(old(disk), RemoveInstalledRun(old(disk), r), disk, s, k)
      ensures old(clock) <= clock && (s.Failed? || s.Crashed? ==> Blamed(old(clock))) && (s.Done? ==> troubles == old(troubles))
      ensures disk.staging == old(disk.staging)
      ensures !s.Aside?
    {
      k := 0;
      if disk.destination.None? {
        return Done, 0;
      }
      if r.installed.None? || disk.destination != r.installed {
        return Rejected, 0;
      }
      var moved;
      s, moved := StepAndSync(disk.(destination := None));
      k := if moved then 1 else 0;
    }

    /** With nothing set aside: set the installation aside, restore, delete it. */
    method SwapUnobstructed(ghost r: Journal) returns (s: Signal, ghost k: nat)
      requires disk.transactions != [] && disk.transactions[0].recoveryInstall.None?
      requires r.installed == disk.destination
      modifies this`clock, this`troubles, this`disk, this`touched
      ensures Follows(old(disk), SwapRun(old(disk), r), disk, s, k)
      ensures old(clock) <= clock && (s.Failed? || s.Crashed? ==> Blamed(old(clock))) && (s.Done? ==> troubles == old(troubles))
      ensures disk.staging == old(disk.staging)
      ensures !s.Aside? && !s.Rejected?
    {
      assert RemoveRecoveryInstall(disk) == disk;
      var moved;
      s, moved := StepAndSync(SetInstalledAside(disk));
      k := if moved then 1 else 0;
      if !s.Done? {
        return;
      }
      // Recovery checks the backup's identity again here; moving the installation kept it.
      assert disk.transactions[0].previous == old(disk.transactions[0].previous);
      s, moved := StepAndSync(RestorePrevious(disk));
      k := if moved then 2 else 1;
      if !s.Done? {
        return;
      }
      s, moved := StepAndSync(RemoveRecoveryInstall(disk));
      k := if moved then 3 else 2;
    }

    method SwapInstalled(r: Journal) returns (s: Signal, ghost k: nat)
      requires disk.transactions != [] && disk.destination.Some?
      modifies this`clock, this`troubles, this`disk, this`touched
      ensures Follows(old(disk), SwapRun(old(disk), r), disk, s, k)
      ensures old(clock) <= clock && (s.Failed? || s.Crashed? ==> Blamed(old(clock))) && (s.Done? ==> troubles == old(troubles))
      ensures disk.staging == old(disk.staging)
      ensures !s.Aside?
    {
      k := 0;
      if r.installed.None? || disk.destination != r.installed {
        return Rejected, 0;
      }
      if disk.transactions[0].recoveryInstall.Some? {
        if disk.transactions[0].recoveryInstall != r.installed {
          return Rejected, 0;
        }
        var moved;
        s, moved := StepAndSync(RemoveRecoveryInstall(disk));
        k := if moved then 1 else 0;
        if !s.Done? {
          return;
        }
        ghost var cleared := disk;
        SwapAfterClearing(old(disk), r);
        s, k := SwapUnobstructed(r);
        FollowsAfter(old(disk), [cleared], SwapRun(cleared, r), disk, s, k);
        k := k + 1;
      } else {
        s, k := SwapUnobstructed(r);
      }
    }

    method ReturnPrevious(r: Journal) returns (s: Signal, ghost k: nat)
      requires disk.transactions != [] && disk.destination.None?
      modifies this`clock, this`troubles, this`disk, this`touched
      ensures Follows(old(disk), ReturnRun(old(disk), r), disk, s, k)
      ensures old(clock) <= clock && (s.Failed? || s.Crashed? ==> Blamed(old(clock))) && (s.Done? ==> troubles == old(troubles))
      ensures disk.staging == old(disk.staging)
      ensures !s.Aside?
    {
      k := 0;
      var moved;
      if disk.transactions[0].recoveryInstall.Some? && disk.transactions[0].recoveryInstall != r.installed {
        return Rejected, 0;
      }
      s, moved := StepAndSync(RestorePrevious(disk));
      k := if moved then 1 else 0;
      if !s.Done? {
        return;
      }
      if disk.transactions[0].recoveryInstall.Some? {
        s, moved := StepAndSync(RemoveRecoveryInstall(disk));
        k := if moved then 2 else 1;
      }
    }

    method RestorePreviousDistribution(r: Journal) returns (s: Signal, ghost k: nat)
      requires disk.transactions != []
      modifies this`clock, this`troubles, this`disk, this`touched
      ensures Follows(old(disk), RestoreRun(old(disk), r), disk, s, k)
      ensures old(clock) <= clock && (s.Failed? || s.Crashed? ==> Blamed(old(clock))) && (s.Done? ==> troubles == old(troubles))
      ensures disk.staging == old(disk.staging)
      ensures !s.Aside?
    {
      s := Boundary();
      if !s.Done? {
        return s, 0;
      }
      var expected := Fallback(r.previous, r.original);
      if expected.None? || disk.transactions[0].previous != expected {
        return Rejected, 0;
      }
      if disk.destination.Some? {
        s, k := SwapInstalled(r);
      } else {
        s, k := ReturnPrevious(r);
      }
    }

    /** Settles `journal` against `journal.next`; `found` is the record to act on, if one is left. */
    method ResolveJournal() returns (s: Signal, found: Option<Journal>, ghost k: nat)
      requires disk.transactions != []
      modifies this`clock, this`troubles, this`disk, this`touched
      ensures FollowsResolution(old(disk), disk, s, found, k)
      ensures old(clock) <= clock && (s.Failed? || s.Crashed? ==> Blamed(old(clock))) && (s.Done? ==> troubles == old(troubles))
      ensures disk.staging == old(disk.staging)
    {
      k, found := 0, None;
      var t := disk.transactions[0];
      var moved;
      if t.journal.Absent? {
        if t.next.Absent? {
          if HasPayload(t) {
            s, k := SetAside();
          } else {
            s, moved := StepAndSync(RemoveTransaction(disk));
            k := if moved then 1 else 0;
          }
          return;
        }
        if t.next.Irregular? {
          s, k := SetAside();
          return;
        }
        var next := ReadJournal(t.next);
        if next.None? {
          if HasPayload(t) {
            s, k := SetAside();
            return;
          }
          s, moved := StepAndSync(DiscardNext(disk));
          k := if moved then 1 else 0;
          if s.Done? {
            s, moved := StepAndSync(RemoveTransaction(disk));
            k := if moved then 2 else 1;
          }
          return;
        }
        if next.value.owner != t.identity {
          return Rejected, None, 0;
        }
        s, moved := StepAndSync(PromoteNext(disk));
        k := if moved then 1 else 0;
        found := next;
        return;
      }
      if ReadJournal(t.journal).None? {
        s, k := SetAside();
        return;
      }
      s, found, k := CompareNext();
    }

    /** The case of a readable journal: promote a newer `journal.next`, discard any other. */
    method CompareNext() returns (s: Signal, found: Option<Journal>, ghost k: nat)
      requires disk.transactions != [] && ReadJournal(disk.transactions[0].journal).Some?
      modifies this`clock, this`troubles, this`disk, this`touched
      ensures FollowsResolution(old(disk), disk, s, found, k)
      ensures old(clock) <= clock && (s.Failed? || s.Crashed? ==> Blamed(old(clock))) && (s.Done? ==> troubles == old(troubles))
      ensures disk.staging == old(disk.staging)
    {
      k, found := 0, None;
      var t := disk.transactions[0];
      var moved;
      var journal := ReadJournal(t.journal);
      if journal.value.owner != t.identity {
        return Rejected, None, 0;
      }
      if t.next.Absent? {
        return Done, journal, 0;
      }
      if t.next.Irregular? {
        s, k := SetAside();
        return;
      }
      var next := ReadJournal(t.next);
      if next.Some? && next.value.sequence > journal.value.sequence {
        if next.value.owner != t.identity {
          return Rejected, None, 0;
        }
        s, moved := StepAndSync(PromoteNext(disk));
        found := next;
      } else {
        s, moved := StepAndSync(DiscardNext(disk));
        found := journal;
      }
      k := if moved then 1 else 0;
    }

    /** The branch of each journal state. */
    method SettleTransaction(r: Journal) returns (s: Signal, ghost k: nat)
      requires disk.transactions != []
      modifies this`clock, this`troubles, this`disk, this`touched
      ensures Follows(old(disk), SettleRun(old(disk), r), disk, s, k)
      ensures old(clock) <= clock && (s.Failed? || s.Crashed? ==> Blamed(old(clock))) && (s.Done? ==> troubles == old(troubles))
      ensures disk.staging == old(disk.staging)
    {
      match r.state {
        case Prepared =>
          s, k := SettlePrepared(r);
        case NoPrevious =>
          if disk.transactions[0].previous.Some? || (disk.destination.Some? && r.original.None?) {
            return Rejected, 0;
          }
          if r.original.Some? && disk.destination != r.original {
            return Rejected, 0;
          }
          return Done, 0;
        case PreviousSaved | InstallPending | Installed =>
          if disk.transactions[0].previous.None? {
            return Rejected, 0;
          }
          s, k := RestorePreviousDistribution(r);
        case InstallPendingNoPrevious | InstalledNoPrevious | RollbackPendingNoPrevious =>
          s, k := SettleFirstInstall(r);
        case RollbackPending | RolledBack =>
          s, k := SettleRollback(r);
        case Committed =>
          s, k := SettleCommitted(r);
      }
    }

    method SettlePrepared(r: Journal) returns (s: Signal, ghost k: nat)
      requires disk.transactions != []
      modifies this`clock, this`troubles, this`disk, this`touched
      ensures Follows(old(disk), PreparedRun(old(disk), r), disk, s, k)
      ensures old(clock) <= clock && (s.Failed? || s.Crashed? ==> Blamed(old(clock))) && (s.Done? ==> troubles == old(troubles))
      ensures disk.staging == old(disk.staging)
    {
      var previous := disk.transactions[0].previous;
      if previous.Some? {
        if Fallback(r.previous, r.original) != previous || disk.destination.Some? {
          return Rejected, 0;
        }
        var moved;
        s, moved := StepAndSync(RestorePrevious(disk));
        k := if moved then 1 else 0;
      } else if r.original.Some? && disk.destination != r.original {
        return Rejected, 0;
      } else {
        return Done, 0;
      }
    }

    method SettleFirstInstall(r: Journal) returns (s: Signal, ghost k: nat)
      requires disk.transactions != []
      modifies this`clock, this`troubles, this`disk, this`touched
      ensures Follows(old(disk), FirstInstallRun(old(disk), r), disk, s, k)
      ensures old(clock) <= clock && (s.Failed? || s.Crashed? ==> Blamed(old(clock))) && (s.Done? ==> troubles == old(troubles))
      ensures disk.staging == old(disk.staging)
    {
      if disk.transactions[0].previous.Some? {
        return Rejected, 0;
      }
      s, k := RemoveInstalledDistribution(r);
      if s.Done? {
        ghost var i := k;
        s, k := DropRecoveryInstall(r);
        k := i + k;
      }
    }

    method SettleRollback(r: Journal) returns (s: Signal, ghost k: nat)
      requires disk.transactions != []
      modifies this`clock, this`troubles, this`disk, this`touched
      ensures Follows(old(disk), RollbackRun(old(disk), r), disk, s, k)
      ensures old(clock) <= clock && (s.Failed? || s.Crashed? ==> Blamed(old(clock))) && (s.Done? ==> troubles == old(troubles))
      ensures disk.staging == old(disk.staging)
      ensures !s.Aside?
    {
      if disk.transactions[0].previous.None? {
        if r.original.None? || disk.destination != r.original {
          return Rejected, 0;
        }
        s, k := DropRecoveryInstall(r);
        return;
      }
      s, k := RestorePreviousDistribution(r);
      if s.Done? && r.state.RolledBack? {
        ghost var i := k;
        s, k := DropRecoveryInstall(r);
        k := i + k;
      }
    }

    method SettleCommitted(r: Journal) returns (s: Signal, ghost k: nat)
      requires disk.transactions != []
      modifies this`clock, this`troubles, this`disk, this`touched
      ensures Follows(old(disk), CommittedRun(old(disk), r), disk, s, k)
      ensures old(clock) <= clock && (s.Failed? || s.Crashed? ==> Blamed(old(clock))) && (s.Done? ==> troubles == old(troubles))
      ensures disk.staging == old(disk.staging)
    {
      if r.installed.None? {
        return Rejected, 0;
      }
      if disk.destination.None? {
        s, k := SetAside();
        return;
      }
      if disk.destination != r.installed {
        return Rejected, 0;
      }
      ghost var i := 0;
      if disk.transactions[0].previous.Some? {
        if disk.transactions[0].previous != r.previous {
          return Rejected, 0;
        }
        var moved;
        s, moved := StepAndSync(RemovePrevious(disk));
        k := if moved then 1 else 0;
        if !s.Done? {
          return;
        }
        i := 1;
      }
      s, k := DropRecoveryInstall(r);
      k := i + k;
    }

    method FinishRecovery(r: Journal) returns (s: Signal, ghost k: nat)
      requires disk.transactions != []
      modifies this`clock, this`troubles, this`disk, this`touched
      ensures Follows(old(disk), FinishRun(old(disk), r), disk, s, k)
      ensures old(clock) <= clock && (s.Failed? || s.Crashed? ==> Blamed(old(clock))) && (s.Done? ==> troubles == old(troubles))
      ensures disk.staging == old(disk.staging)
    {
      k := 0;
      var t := disk.transactions[0];
      if t.isPrivate && HasPayload(t) {
        s, k := SetAside();
        return;
      }
      s := Boundary();
      if !s.Done? {
        return;
      }
      FinishRunOf(disk, r);
      ghost var settle := SettleRun(disk, r);
      s, k := SettleTransaction(r);
      if s.Done? {
        s, k := RemoveSettled(old(disk), settle, k);
      } else {
        StoppedSettling(old(disk), settle, disk, s, k);
      }
    }

    /** Deletes the transaction whose settling `settle` has run to its end. */
    method RemoveSettled(ghost start: Disk, ghost settle: Run, ghost done: nat) returns (s: Signal, ghost k: nat)
      requires start.transactions != [] && (settle.verdict.Recovered? ==> Last(start, settle.steps).transactions != [])
      requires Follows(start, settle, disk, Done, done)
      modifies this`clock, this`troubles, this`disk, this`touched
      ensures Follows(start, ThenRemoveTransaction(start, settle), disk, s, k)
      ensures s.Done? || s.Failed? || s.Crashed?
      ensures old(clock) <= clock && (s.Failed? || s.Crashed? ==> Blamed(old(clock))) && (s.Done? ==> troubles == old(troubles))
      ensures disk.staging == old(disk.staging)
    {
      k := done;
      s := Boundary();
      if !s.Done? {
        return;
      }
      var moved;
      s, moved := StepAndSync(RemoveTransaction(disk));
      k := if moved then k + 1 else k;
    }

    /**
     Recovers the first listed transaction. The disk always stands at some step of the specified run,
     and without a fault the run is completed.
     */
    method RecoverTransaction() returns (s: Signal, ghost k: nat)
      requires disk.transactions != []
      modifies this`clock, this`troubles, this`disk, this`touched
      ensures Follows(old(disk), RecoveryRun(old(disk)), disk, s, k)
      ensures old(clock) <= clock && (s.Failed? || s.Crashed? ==> Blamed(old(clock))) && (s.Done? ==> troubles == old(troubles))
      ensures disk.staging == old(disk.staging)
    {
      s := Boundary();
      if !s.Done? {
        return s, 0;
      }
      var found;
      s, found, k := ResolveJournal();
      if !s.Done? || found.None? {
        StoppingFollows(old(disk), disk, s, found, k);
      } else {
        ghost var steps := ResolveRun(old(disk)).steps;
        RecoveryRunOf(old(disk), steps, found.value);
        s, k := FinishResolved(old(disk), steps, found.value, FinishRun(disk, found.value));
      }
    }

    /** Goes on with the record that the first part of a recovery, `steps`, has left. */
    method FinishResolved(ghost start: Disk, ghost steps: seq<Disk>, r: Journal, ghost run: Run) returns (s: Signal, ghost k: nat)
      requires disk == Last(start, steps) && disk.transactions != [] && run == FinishRun(disk, r)
      modifies this`clock, this`troubles, this`disk, this`touched
      ensures Follows(start, Prepend(steps, run), disk, s, k)
      ensures old(clock) <= clock && (s.Failed? || s.Crashed? ==> Blamed(old(clock))) && (s.Done? ==> troubles == old(troubles))
      ensures disk.staging == old(disk.staging)
    {
      s, k := FinishRecovery(r);
      assert Follows(Last(start, steps), run, disk, s, k);
      k := Shifted(start, steps, run, s, k);
    }

    /** Counts the steps of a second part from the beginning of the first. */
    ghost method Shifted(start: Disk, steps: seq<Disk>, run: Run, s: Signal, k: nat) returns (n: nat)
      requires Follows(Last(start, steps), run, disk, s, k)
      ensures Follows(start, Prepend(steps, run), disk, s, n)
    {
      FollowsAfter(start, steps, run, disk, s, k);
      n := |steps| + k;
    }

    /** Recovers every listed transaction, stopping at the first that does not finish. */
    method RecoverStaleTransactions() returns (s: Signal, entered: bool)
      requires Valid()
      modifies this`clock, this`troubles, this`disk, this`touched
      ensures Valid()
      ensures s.Done? ==> disk.transactions == []
      ensures s.Rejected? ==> old(Stuck(disk))
      ensures old(Stuck(disk)) ==> !s.Done? && Stuck(disk)
      ensures !s.Aside?
      ensures !entered ==> disk == old(disk) && touched == old(touched)
      ensures entered ==> old(disk).transactions != []
      ensures s.Rejected? ==> entered
      ensures old(clock) <= clock && (s.Failed? || s.Crashed? ==> Blamed(old(clock))) && (s.Done? ==> troubles == old(troubles))
      ensures disk.staging == old(disk.staging)
    {
      entered := false;
      s := Boundary();
      if !s.Done? {
        return;
      }
      while disk.transactions != []
        invariant Valid()
        invariant old(clock) <= clock
        invariant s.Done? && troubles == old(troubles)
        invariant old(Stuck(disk)) ==> Stuck(disk)
        invariant disk.staging == old(disk.staging)
        invariant disk.transactions != [] || !entered ==> disk == old(disk)
        invariant !entered ==> touched == old(touched)
        invariant entered ==> old(disk).transactions != []
        decreases |disk.transactions|
      {
        entered := true;
        ghost var before := disk;
        ghost var k;
        s, k := RecoverTransaction();
        RecoveryDecides(attempt, committed, before);
        RecoveryStaysInvariant(attempt, committed, before, k);
        if !s.Done? {
          return;
        }
      }
    }

    // Commit.

    /**
     Writes `journal.next`, completes it, and replaces the journal with it. A sequence number that cannot grow is
     refused; so is, by the first boundary, a record that cannot be encoded within its size limit.
     */
    method WriteState(r: Journal, state: TransactionState) returns (s: Signal, out: Journal, ghost stage: nat)
      requires |disk.transactions| == 1
      modifies this`clock, this`troubles, this`disk, this`touched, this`committed, this`recorded
      ensures r.sequence < MAX_SEQUENCE ==> out == r.(state := state, sequence := r.sequence + 1)
      ensures disk == WriteStage(old(disk), out, stage)
      ensures s.Done? ==> stage == 3
      ensures stage > 0 ==> r.sequence < MAX_SEQUENCE
      ensures s.Rejected? ==> r.sequence >= MAX_SEQUENCE || !old(disk).transactions[0].next.Absent?
      ensures !s.Aside?
      ensures committed == (old(committed) || (stage >= 2 && state.Committed?))
      ensures recorded == old(recorded) + if stage >= 2 then [state] else []
      ensures old(clock) <= clock <= old(clock) + RECORD_CALLS && touched == old(touched)
      ensures s.Done? ==> clock == old(clock) + RECORD_CALLS && troubles == old(troubles)
      ensures !s.Rejected? ==> old(clock) < clock
      ensures Calm(old(clock)) && r.sequence < MAX_SEQUENCE && old(disk).transactions[0].next.Absent? ==> s.Done?
    {
      stage := 0;
      out := r.(state := state);
      if r.sequence >= MAX_SEQUENCE {
        s := Rejected;
        return;
      }
      out := out.(sequence := r.sequence + 1);
      s := Boundary();
      if !s.Done? {
        return;
      }
      var t := disk.transactions[0];
      if !t.next.Absent? {
        s := Rejected;
        return;
      }
      s := Step(WithFirst(disk, t.(next := Torn)));
      if !s.Done? {
        return;
      }
      stage := 1;
      s := Step(WithFirst(disk, t.(next := Written(out))));
      if !s.Done? {
        return;
      }
      stage := 2;
      committed, recorded := committed || state.Committed?, recorded + [state];
      s := Step(PromoteNext(disk));
      if !s.Done? {
        return;
      }
      stage := 3;
      s := Boundary();
    }

    /** Between two records: one published transaction whose only control file holds `r`. */
    ghost predicate Live(r: Journal)
      reads this
    {
      && Valid() && !committed && !Stuck(disk)
      && IsResolved(disk, r)
      && !disk.transactions[0].isPrivate
    }

    /** A crash here is followed by a recovery that completes. */
    ghost predicate Recoverable()
      reads this
    {
      Valid() && !Stuck(disk)
    }

    ghost predicate Placed(destination: Option<DirectoryId>, previous: Option<DirectoryId>)
      reads this
    {
      && |disk.transactions| == 1
      && disk.destination == destination
      && disk.transactions[0].previous == previous
      && disk.transactions[0].recoveryInstall.None?
    }

    /** Records `r` in a state that the directories already satisfy; `current` is the record on disk. */
    method Record(ghost current: Journal, r: Journal, state: TransactionState) returns (s: Signal, out: Journal)
      requires Live(current) && r.sequence == current.sequence
      requires RecordOf(attempt, r.(state := state, sequence := r.sequence + 1), disk.transactions[0].identity)
      requires Layout(attempt, state, disk, disk.transactions[0])
      requires IsFragile(state) ==> disk.transactions[0].previous.Some?
      modifies this`clock, this`troubles, this`disk, this`touched, this`committed, this`recorded
      ensures Recoverable()
      ensures out == r.(state := state, sequence := r.sequence + 1)
      ensures s.Done? ==> disk == WriteStage(old(disk), out, 3) && committed == state.Committed?
      ensures s.Done? ==> recorded == old(recorded) + [state]
      ensures committed ==> state.Committed?
      ensures |disk.transactions| == 1
      ensures disk.destination == old(disk.destination) && disk.staging == old(disk.staging)
      ensures s.Done? || s.Failed? || s.Crashed?
      ensures touched == old(touched)
      ensures clock <= old(clock) + RECORD_CALLS && (s.Done? ==> clock == old(clock) + RECORD_CALLS)
      ensures old(clock) < clock && (Calm(old(clock)) ==> s.Done?) && (s.Done? ==> troubles == old(troubles))
    {
      ghost var stage;
      s, out, stage := WriteState(r, state);
      WritingStaysInvariant(attempt, old(disk), current, out, stage);
    }

    /** A durable change that the invariant allows. */
    method SafeStep(next: Disk) returns (s: Signal)
      requires Inv(attempt, committed, next) && !Stuck(next) && Recoverable()
      modifies this`clock, this`troubles, this`disk, this`touched
      ensures Recoverable()
      ensures s.Done? || s.Failed? || s.Crashed?
      ensures disk == if s.Done? then next else old(disk)
      ensures touched == (old(touched) || disk.destination != old(disk).destination)
      ensures clock == old(clock) + 1 && (s.Failed? <==> faults(old(clock)).Fail?)
      ensures old(clock) <= clock && (Calm(old(clock)) ==> s.Done?) && (s.Done? ==> troubles == old(troubles))
      ensures troubles == old(troubles) + if s.Done? then 0 else 1
    {
      s := Step(next);
    }

    method CreateTransaction() returns (s: Signal, r: Journal)
      requires Valid() && disk.transactions == [] && disk.staging.Some?
      modifies this
      ensures Recoverable()
      ensures attempt == Attempt(old(disk.destination), old(disk.staging).value) && !committed
      ensures disk.destination == old(disk.destination) && disk.staging == old(disk.staging)
      ensures touched == old(touched) && undone == old(undone) && verified == old(verified)
      ensures inspections == old(inspections) && (s.Done? ==> recorded == old(recorded) + [Prepared])
      ensures s.Done? || s.Failed? || s.Crashed?
      ensures s.Done? ==> Live(r) && r.state.Prepared? && Placed(disk.destination, None)
      ensures s.Done? ==> disk.transactions[0].failedInstall.None?
      ensures old(clock) <= clock && (Calm(old(clock)) ==> s.Done?) && (s.Done? ==> troubles == old(troubles))
    {
      attempt, committed := Attempt(disk.destination, disk.staging.value), false;
      var identity := clock;
      r := Journal(identity, disk.destination, Prepared, None, None, 0);
      s := SafeStep(disk.(transactions := [Transaction(identity, true, Absent, Absent, None, None, None)]));
      if !s.Done? {
        return;
      }
      ghost var made := disk;
      ghost var stage;
      s, r, stage := WriteState(r, Prepared);
      WritingTheFirstRecord(attempt, made, r, stage);
      if s.Done? {
        s := PublishTransaction(r);
      }
    }

    /** Gives the private transaction its listed name. */
    method PublishTransaction(ghost r: Journal) returns (s: Signal)
      requires Recoverable() && !committed && r.state.Prepared? && disk.destination == attempt.original
      requires IsResolved(disk, r) && disk.transactions[0].isPrivate && !HasPayload(disk.transactions[0])
      modifies this`clock, this`troubles, this`disk, this`touched
      ensures Recoverable()
      ensures disk.destination == old(disk.destination) && disk.staging == old(disk.staging) && touched == old(touched)
      ensures s.Done? || s.Failed? || s.Crashed?
      ensures s.Done? ==> Live(r) && Placed(disk.destination, None) && disk.transactions[0].failedInstall.None?
      ensures old(clock) <= clock && (Calm(old(clock)) ==> s.Done?) && (s.Done? ==> troubles == old(troubles))
    {
      s := Boundary();
      if !s.Done? {
        return;
      }
      s := SafeStep(WithFirst(disk, disk.transactions[0].(isPrivate := false)));
      if !s.Done? {
        return;
      }
      s := Boundary();
    }

    /** Moves the destination into the transaction, or records that there was none. */
    method SavePrevious(r0: Journal) returns (s: Signal, r: Journal, changed: bool)
      requires Live(r0) && r0.state.Prepared? && Placed(attempt.original, None)
      requires disk.transactions[0].failedInstall.None? && disk.staging == Some(attempt.staged)
      modifies this`clock, this`troubles, this`disk, this`touched, this`committed, this`recorded
      ensures Recoverable() && !committed
      ensures s.Done? || s.Failed? || s.Crashed?
      ensures !changed ==> disk.destination == attempt.original
      ensures s.Done? ==> Live(r) && changed == attempt.original.Some? && Placed(None, attempt.original)
      ensures s.Done? ==> r.state == if changed then PreviousSaved else NoPrevious
      ensures s.Done? ==> recorded == old(recorded) + [r.state]
      ensures s.Done? ==> disk.transactions[0].failedInstall.None?
      ensures disk.staging == old(disk.staging) && touched == (old(touched) || changed)
      ensures old(clock) <= clock && (Calm(old(clock)) ==> s.Done?) && (s.Done? ==> troubles == old(troubles))
    {
      r, changed := r0, false;
      if disk.destination.Some? {
        s := Boundary();
        if !s.Done? {
          return;
        }
        var t := disk.transactions[0];
        s := SafeStep(WithFirst(disk, t.(previous := disk.destination)).(destination := None));
        if !s.Done? {
          return;
        }
        changed := true;
        s := Boundary();
        if !s.Done? {
          return;
        }
        r := r.(previous := disk.transactions[0].previous);
        s, r := Record(r0, r, PreviousSaved);
      } else {
        s, r := Record(r0, r, NoPrevious);
      }
    }

    /** Verifies the staged directory. */
    method VerifySource() returns (s: Signal)
      modifies this`clock, this`troubles, this`inspections
      ensures s.Done? || s.Failed? || s.Crashed?
      ensures clock == old(clock) + 1
      ensures s.Done? <==> faults(old(clock)).Quiet?
      ensures s.Failed? <==> faults(old(clock)).Fail?
      ensures inspections == old(inspections) + if s.Done? then [|recorded|] else []
      ensures troubles == old(troubles) + if s.Done? then 0 else 1
    {
      s := Boundary();
      inspections := inspections + if s.Done? then [|recorded|] else [];
    }

    /** Verifies the source and records which directory is about to be installed. */
    method AnnounceInstall(r0: Journal) returns (s: Signal, r: Journal)
      requires Live(r0) && Placed(None, attempt.original) && disk.transactions[0].failedInstall.None?
      requires r0.state == if attempt.original.Some? then PreviousSaved else NoPrevious
      requires disk.staging == Some(attempt.staged)
      modifies this`clock, this`troubles, this`disk, this`touched, this`committed, this`recorded, this`inspections
      ensures Recoverable() && !committed && disk.destination.None?
      ensures s.Done? ==> recorded == old(recorded) + [r.state]
      ensures s.Done? ==> inspections == old(inspections) + [|old(recorded)|, |old(recorded)| + 1]
      ensures s.Done? || s.Failed? || s.Crashed?
      ensures s.Done? ==> Live(r) && Placed(None, attempt.original)
      ensures s.Done? ==> r.state == if attempt.original.Some? then InstallPending else InstallPendingNoPrevious
      ensures s.Done? ==> disk.transactions[0].failedInstall.None?
      ensures disk.staging == old(disk.staging) && touched == old(touched)
      ensures old(clock) <= clock && (Calm(old(clock)) ==> s.Done?) && (s.Done? ==> troubles == old(troubles))
    {
      r := r0;
      s := VerifySource();
      if !s.Done? {
        return;
      }
      var state := if disk.transactions[0].previous.Some? then InstallPending else InstallPendingNoPrevious;
      r := r.(installed := disk.staging);
      s, r := Record(r0, r, state);
      if !s.Done? {
        return;
      }
      s := VerifySource();
    }

    /** Moves the backup back after a failed install rename, records it and cleans up. */
    method RestoreAfterFailedInstall(r0: Journal) returns (result: Option<CommitResult>)
      requires Live(r0) && r0.state.RollbackPending? && Placed(None, attempt.original) && attempt.original.Some?
      requires disk.transactions[0].failedInstall.None?
      requires touched && !undone
      modifies this`clock, this`troubles, this`disk, this`touched, this`committed, this`recorded, this`undone
      ensures Recoverable() && !committed
      ensures touched && (undone <==> result.None?)
      ensures result.None? ==> disk.destination == attempt.original && recorded == old(recorded) + [RolledBack]
      ensures result.Some? && result.value.Error? ==> (result.value == Error(Recovery) <==> clock <= old(clock) + MOVE_CALLS)
      ensures old(clock) < clock && (result.None? ==> clock > old(clock) + MOVE_CALLS)
      ensures result.Some? ==>
        result.value.Died? || (result.value.Error? && !result.value.kind.QuarantinedError? && !result.value.kind.Plain?)
    {
      var s := Boundary();
      if s.Done? {
        s := SafeStep(RestorePrevious(disk));
        if s.Done? {
          s := Boundary();
        }
      }
      if !s.Done? {
        return Some(if s.Crashed? then Died else Error(Recovery));
      }
      var r;
      s, r := Record(r0, r0, RolledBack);
      if !s.Done? {
        return Some(Ended(s, true));
      }
      s := CleanUp();
      if !s.Done? {
        return Some(Ended(s, true));
      }
      result := None;
    }

    /** The rollback taken when the staging directory could not be renamed into place. */
    method UndoFailedInstall(r0: Journal) returns (result: CommitResult)
      requires Live(r0) && Placed(None, attempt.original) && disk.transactions[0].failedInstall.None?
      requires r0.state == if attempt.original.Some? then InstallPending else InstallPendingNoPrevious
      requires touched == attempt.original.Some? && !undone
      modifies this`clock, this`troubles, this`disk, this`touched, this`committed, this`recorded, this`undone
      ensures Recoverable() && !committed
      ensures result.Died? || (result.Error? && !result.kind.QuarantinedError?)
      ensures result.Error? ==> (result == Error(Plain) <==> !touched || undone)
      ensures result == Error(Plain) ==> disk.destination == attempt.original
      ensures undone ==> attempt.original.Some? && recorded == old(recorded) + Backward(true)
      ensures result.Error? ==>
        var moving := old(clock) + RECORD_CALLS < clock <= old(clock) + RECORD_CALLS + MOVE_CALLS;
        (result == Error(Recovery) <==> attempt.original.Some? && moving)
    {
      var backup := disk.transactions[0].previous.Some?;
      var s, r := Record(r0, r0, if backup then RollbackPending else RollbackPendingNoPrevious);
      if !s.Done? {
        return Ended(s, backup);
      }
      if backup {
        var stopped := RestoreAfterFailedInstall(r);
        if stopped.Some? {
          return stopped.value;
        }
      }
      s := Boundary();
      return Ended(s, false);
    }

    /** Deletes the transaction directory once the destination is settled. */
    method CleanUp() returns (s: Signal)
      requires Recoverable() && |disk.transactions| == 1
      requires disk.destination == Outcome(attempt, committed)
      modifies this`clock, this`troubles, this`disk, this`touched, this`undone
      ensures Recoverable()
      ensures s.Done? || s.Failed? || s.Crashed?
      ensures s.Done? ==> disk.transactions == []
      ensures touched == old(touched) && undone == (old(undone) || (s.Done? && !committed))
      ensures disk.destination == old(disk.destination) && disk.staging == old(disk.staging)
      ensures old(clock) < clock && (Calm(old(clock)) ==> s.Done?) && (s.Done? ==> troubles == old(troubles))
    {
      RemovingASettledTransaction(attempt, committed, disk);
      s := SafeStep(RemoveTransaction(disk));
      if s.Done? {
        s := Boundary();
        undone := undone || (s.Done? && !committed);
      }
    }

    /** Puts the backup back in place of the rejected installation and deletes that. */
    method RestoreAfterFailedVerification(r0: Journal) returns (result: Option<CommitResult>)
      requires Live(r0) && r0.state.RollbackPending? && Placed(Some(attempt.staged), attempt.original)
      requires attempt.original.Some? && disk.transactions[0].failedInstall.None? && disk.staging.None?
      requires touched && !undone
      modifies this`clock, this`troubles, this`disk, this`touched, this`committed, this`recorded
      ensures Recoverable() && !committed
      ensures touched
      ensures result.None? ==> disk.destination == attempt.original && |disk.transactions| == 1
      ensures result.None? ==> recorded == old(recorded) + [RolledBack]
      ensures old(clock) < clock && (result.None? ==> clock > old(clock) + REPLACE_CALLS)
      ensures result.Some? && result.value.Error? ==> (result.value == Error(Recovery) <==> clock <= old(clock) + REPLACE_CALLS)
      ensures result.Some? ==>
        result.value.Died? || (result.value.Error? && !result.value.kind.QuarantinedError? && !result.value.kind.Plain?)
    {
      var s, r := ReplaceFailedInstall(r0);
      if !s.Done? {
        return Some(if s.Crashed? then Died else Error(Recovery));
      }
      s, r := Record(r, r, RolledBack);
      if !s.Done? {
        return Some(Ended(s, true));
      }
      s := SafeStep(WithFirst(disk, disk.transactions[0].(failedInstall := None)));
      if s.Done? {
        s := Boundary();
      }
      result := if s.Done? then None else Some(Ended(s, true));
    }

    /** Removes a rejected first installation. */
    method RemoveFailedInstall(ghost r0: Journal) returns (result: Option<CommitResult>)
      requires Live(r0) && r0.state.RollbackPendingNoPrevious? && Placed(Some(attempt.staged), None)
      requires attempt.original.None?
      requires touched && !undone
      modifies this`clock, this`troubles, this`disk, this`touched
      ensures Recoverable() && !committed
      ensures touched
      ensures result.None? ==> disk.destination == attempt.original && |disk.transactions| == 1
      ensures old(clock) < clock <= old(clock) + MOVE_CALLS && (result.None? ==> clock == old(clock) + MOVE_CALLS)
      ensures result.Some? ==> result.value.Died? || result.value == Error(Recovery)
    {
      var s := Boundary();
      if s.Done? {
        s := SafeStep(disk.(destination := None));
        if s.Done? {
          s := Boundary();
        }
      }
      result := if s.Done? then None else Some(if s.Crashed? then Died else Error(Recovery));
    }

    /** The rollback taken when the installed directory fails verification. */
    method UndoFailedVerification(r0: Journal) returns (result: CommitResult)
      requires Live(r0) && Placed(Some(attempt.staged), attempt.original)
      requires disk.transactions[0].failedInstall.None? && disk.staging.None?
      requires r0.state == if attempt.original.Some? then Installed else InstalledNoPrevious
      requires touched && !undone
      modifies this`clock, this`troubles, this`disk, this`touched, this`committed, this`recorded, this`undone
      ensures Recoverable() && !committed
      ensures result.Died? || (result.Error? && !result.kind.QuarantinedError?)
      ensures result.Error? ==> (result == Error(Plain) <==> !touched || undone)
      ensures result == Error(Plain) ==> disk.destination == attempt.original && disk.transactions == []
      ensures undone ==> recorded == old(recorded) + Backward(attempt.original.Some?)
      ensures result.Error? ==>
        var moves := if attempt.original.Some? then REPLACE_CALLS else MOVE_CALLS;
        (result == Error(Recovery) <==> old(clock) + RECORD_CALLS < clock <= old(clock) + RECORD_CALLS + moves)
    {
      var backup := disk.transactions[0].previous.Some?;
      var s, r := Record(r0, r0, if backup then RollbackPending else RollbackPendingNoPrevious);
      if !s.Done? {
        return Ended(s, true);
      }
      var stopped;
      if backup {
        stopped := RestoreAfterFailedVerification(r);
      } else {
        stopped := RemoveFailedInstall(r);
      }
      if stopped.Some? {
        return stopped.value;
      }
      s := CleanUp();
      return Ended(s, !s.Done?);
    }

    /** Moves the failed installation into the transaction and the backup back to the destination. */
    method ReplaceFailedInstall(r0: Journal) returns (s: Signal, r: Journal)
      requires Live(r0) && Placed(Some(attempt.staged), attempt.original) && attempt.original.Some?
      requires disk.transactions[0].failedInstall.None? && disk.staging.None?
      requires r0.state.RollbackPending?
      modifies this`clock, this`troubles, this`disk, this`touched
      ensures Recoverable() && r == r0 && disk.staging.None?
      ensures s.Done? || s.Failed? || s.Crashed?
      ensures old(touched) ==> touched
      ensures s.Done? ==> Live(r) && Placed(attempt.original, None)
      ensures old(clock) < clock <= old(clock) + REPLACE_CALLS && (s.Done? ==> clock == old(clock) + REPLACE_CALLS)
      ensures (Calm(old(clock)) ==> s.Done?) && (s.Done? ==> troubles == old(troubles))
    {
      r := r0;
      s := Boundary();
      if !s.Done? {
        return;
      }
      var t := disk.transactions[0];
      s := SafeStep(WithFirst(disk, t.(failedInstall := disk.destination)).(destination := None));
      if !s.Done? {
        return;
      }
      s := Boundary();
      if !s.Done? {
        return;
      }
      s := SafeStep(RestorePrevious(disk));
      if !s.Done? {
        return;
      }
      s := Boundary();
    }

    /** Records the commit, then deletes the backup and the transaction. */
    method Conclude(r0: Journal) returns (result: CommitResult)
      requires Live(r0) && Placed(Some(attempt.staged), attempt.original)
      requires disk.transactions[0].failedInstall.None? && disk.staging.None?
      requires r0.state == if attempt.original.Some? then Installed else InstalledNoPrevious
      requires touched && !undone
      modifies this`clock, this`troubles, this`disk, this`touched, this`committed, this`recorded, this`undone
      ensures Recoverable()
      ensures disk.destination == Some(attempt.staged)
      ensures result != Error(Plain) && result != Error(QuarantinedError)
      ensures touched && !undone
      ensures result.BackupRetained? <==>
        && attempt.original.Some? && clock == old(clock) + RECORD_CALLS + 1
        && troubles == old(troubles) + 1 && faults(old(clock) + RECORD_CALLS).Fail?
      ensures result.BackupRetained? ==> troubles == old(troubles) + 1
      ensures result.Complete? ==> troubles == old(troubles)
      ensures result.Complete? ==> committed && disk.transactions == []
      ensures result.BackupRetained? ==> committed && |disk.transactions| == 1
      ensures result.Complete? || result.BackupRetained? ==> recorded == old(recorded) + [Committed]
      ensures Calm(old(clock)) ==> result.Complete?
    {
      var backup := disk.transactions[0].previous.Some?;
      var s, r := Record(r0, r0, Committed);
      if !s.Done? {
        return Ended(s, true);
      }
      if backup {
        s := SafeStep(RemovePrevious(disk));
        if s.Failed? {
          return BackupRetained;
        }
        if s.Done? {
          s := Boundary();
        }
        if !s.Done? {
          return Ended(s, true);
        }
      }
      s := CleanUp();
      return if s.Done? then Complete else Ended(s, true);
    }

    /**
     A commit over a parent directory without unresolved transactions. Wherever it stops, one recovery
     then completes, and the destination follows from whether a Committed record was durable.
     */
    method CommitFresh() returns (result: CommitResult)
      requires Valid() && disk.transactions == []
      modifies this
      ensures Valid() && Completes(attempt, committed, disk)
      ensures old(disk).staging.None? ==>
        && (result.Died? || result == Error(Plain))
        && disk == old(disk) && attempt == old(attempt) && committed == old(committed)
      ensures old(disk).staging.Some? ==> attempt == Attempt(old(disk).destination, old(disk).staging.value)
      ensures result.Complete? ==> disk.destination == old(disk).staging && disk.transactions == []
      ensures result.BackupRetained? ==> disk.destination == old(disk).staging && CommitDurable(disk)
      ensures result == Error(Plain) ==> disk.destination == old(disk).destination
      ensures result.Error? ==> (result == Error(Plain) <==> !touched || undone)
      ensures result.Complete? ==> troubles == old(troubles)
      ensures result.BackupRetained? ==> troubles == old(troubles) + 1
      ensures old(disk).staging.Some? && committed ==> verified == old(disk).staging
      ensures result != Error(QuarantinedError)
      ensures result.Complete? || result.BackupRetained? ==> recorded == Forward(old(disk).destination.Some?) + [Committed] && inspections == [0, 2, 3]
      ensures undone ==> Unwound(recorded, old(disk).destination.Some?)
      ensures Calm(old(clock)) && old(disk).staging.Some? ==> result.Complete?
    {
      touched, undone, verified, recorded, inspections := false, false, None, [], [];
      if disk.staging.Some? {
        attempt, committed := Attempt(disk.destination, disk.staging.value), false;
      }
      result := CommitChecked();
      CompletesUnlessStuck(attempt, committed, disk);
    }

    method CommitChecked() returns (result: CommitResult)
      requires Valid() && disk.transactions == []
      requires disk.staging.Some? ==> attempt == Attempt(disk.destination, disk.staging.value) && !committed
      requires !touched && !undone && verified.None? && recorded == [] && inspections == []
      modifies this
      ensures Recoverable() && attempt == old(attempt)
      ensures old(disk).staging.None? ==>
        && (result.Died? || result == Error(Plain))
        && disk == old(disk) && committed == old(committed)
      ensures result.Complete? ==> disk.destination == old(disk).staging && disk.transactions == []
      ensures result.BackupRetained? ==> disk.destination == old(disk).staging && CommitDurable(disk)
      ensures result == Error(Plain) ==> disk.destination == old(disk).destination
      ensures result.Error? ==> (result == Error(Plain) <==> !touched || undone)
      ensures result.Complete? ==> troubles == old(troubles)
      ensures result.BackupRetained? ==> troubles == old(troubles) + 1
      ensures old(disk).staging.Some? && committed ==> verified == old(disk).staging
      ensures result != Error(QuarantinedError)
      ensures result.Complete? || result.BackupRetained? ==> recorded == Forward(old(disk).destination.Some?) + [Committed] && inspections == [0, 2, 3]
      ensures undone ==> Unwound(recorded, old(disk).destination.Some?)
      ensures Calm(old(clock)) && old(disk).staging.Some? ==> result.Complete?
    {
      var s := VerifySource();
      if s.Crashed? {
        return Died;
      }
      if s.Failed? || disk.staging.None? {
        return Error(Plain);
      }
      var r;
      s, r := CreateTransaction();
      if s.Done? {
        s := Boundary();
      }
      if !s.Done? {
        return Ended(s, false);
      }
      result := CommitCreated(r);
    }

    /** Up to the install rename: the original is out of the way and the installation announced. */
    method MakeWay(r0: Journal) returns (s: Signal, r: Journal, changed: bool)
      requires Live(r0) && r0.state.Prepared? && Placed(attempt.original, None)
      requires disk.transactions[0].failedInstall.None? && disk.staging == Some(attempt.staged)
      requires recorded == [Prepared] && inspections == [0]
      modifies this`clock, this`troubles, this`disk, this`touched, this`committed, this`recorded, this`inspections
      ensures Recoverable() && !committed
      ensures s.Done? || s.Failed? || s.Crashed?
      ensures !changed ==> disk.destination == attempt.original
      ensures s.Done? ==> Live(r) && changed == attempt.original.Some? && Placed(None, attempt.original)
      ensures s.Done? ==> r.state == if changed then InstallPending else InstallPendingNoPrevious
      ensures s.Done? ==> recorded == Forward(changed)[..3] && inspections == [0, 2, 3]
      ensures s.Done? ==> disk.transactions[0].failedInstall.None?
      ensures disk.staging == old(disk.staging) && touched == (old(touched) || changed)
      ensures old(clock) <= clock && (Calm(old(clock)) ==> s.Done?) && (s.Done? ==> troubles == old(troubles))
    {
      s, r, changed := SavePrevious(r0);
      if s.Done? {
        s, r := AnnounceInstall(r);
      }
    }

    /** The body of the commit, between creating the transaction and its outcome. */
    method CommitCreated(r0: Journal) returns (result: CommitResult)
      requires Live(r0) && r0.state.Prepared? && Placed(attempt.original, None)
      requires disk.transactions[0].failedInstall.None? && disk.staging == Some(attempt.staged)
      requires !touched && !undone && verified.None? && recorded == [Prepared] && inspections == [0]
      modifies this`clock, this`troubles, this`disk, this`touched, this`committed, this`recorded, this`undone, this`verified, this`inspections
      ensures Recoverable()
      ensures result.Complete? ==> disk.destination == Some(attempt.staged) && disk.transactions == []
      ensures result.BackupRetained? ==> disk.destination == Some(attempt.staged) && committed && |disk.transactions| == 1
      ensures result.Error? ==> (result == Error(Plain) <==> !touched || undone)
      ensures result.BackupRetained? ==> troubles == old(troubles) + 1
      ensures result.Complete? ==> troubles == old(troubles)
      ensures committed ==> verified == Some(attempt.staged)
      ensures result == Error(Plain) ==> disk.destination == attempt.original
      ensures result != Error(QuarantinedError)
      ensures result.Complete? || result.BackupRetained? ==> recorded == Forward(attempt.original.Some?) + [Committed] && inspections == [0, 2, 3]
      ensures undone ==> Unwound(recorded, attempt.original.Some?)
      ensures Calm(old(clock)) ==> result.Complete?
    {
      var s, r, changed := MakeWay(r0);
      if !s.Done? {
        return Ended(s, changed);
      }
      s := SafeStep(disk.(destination := disk.staging, staging := None));
      if s.Crashed? {
        return Died;
      }
      if s.Failed? {
        result := UndoFailedInstall(r);
      } else {
        result := CommitInstalled(r);
      }
    }

    /** Verifies the directory at the destination. */
    method VerifyDestination() returns (s: Signal)
      modifies this`clock, this`troubles, this`verified
      ensures s.Done? || s.Failed? || s.Crashed?
      ensures clock == old(clock) + 1
      ensures s.Done? <==> faults(old(clock)).Quiet?
      ensures verified == if s.Done? then disk.destination else None
      ensures troubles == old(troubles) + if s.Done? then 0 else 1
    {
      s := Boundary();
      verified := if s.Done? then disk.destination else None;
    }

    /** From the install rename on: record it, verify the installed directory, conclude or roll back. */
    method CommitInstalled(r0: Journal) returns (result: CommitResult)
      requires Live(r0) && Placed(Some(attempt.staged), attempt.original)
      requires r0.state == if attempt.original.Some? then InstallPending else InstallPendingNoPrevious
      requires disk.transactions[0].failedInstall.None? && disk.staging.None?
      requires touched && !undone && verified.None? && recorded == Forward(attempt.original.Some?)[..3]
      modifies this`clock, this`troubles, this`disk, this`touched, this`committed, this`recorded, this`undone, this`verified
      ensures Recoverable()
      ensures result.Complete? ==> disk.destination == Some(attempt.staged) && disk.transactions == []
      ensures result.BackupRetained? ==> disk.destination == Some(attempt.staged) && committed && |disk.transactions| == 1
      ensures result.Error? ==> (result == Error(Plain) <==> !touched || undone)
      ensures result.Complete? ==> troubles == old(troubles)
      ensures committed ==> verified == Some(attempt.staged)
      ensures result.BackupRetained? ==> troubles == old(troubles) + 1
      ensures result == Error(Plain) ==> disk.destination == attempt.original
      ensures result != Error(QuarantinedError)
      ensures result.Complete? || result.BackupRetained? ==> recorded == Forward(attempt.original.Some?) + [Committed]
      ensures undone ==> Unwound(recorded, attempt.original.Some?)
      ensures Calm(old(clock)) ==> result.Complete?
    {
      var s := Boundary();
      if !s.Done? {
        return Ended(s, true);
      }
      var r;
      s, r := Record(r0, r0, if disk.transactions[0].previous.Some? then Installed else InstalledNoPrevious);
      if !s.Done? {
        return Ended(s, true);
      }
      s := VerifyDestination();
      if s.Crashed? {
        return Died;
      }
      if s.Failed? {
        result := UndoFailedVerification(r);
      } else {
        result := Conclude(r);
      }
    }

    /**
     The whole commit: recover what earlier commits left, then commit the staged directory.
     `settled` is the disk between the two parts.
     */
    method Commit() returns (result: CommitResult, ghost settled: Disk, ghost recovering: bool)
      requires Valid()
      modifies this
      ensures Valid()
      ensures result.Complete? ==> disk.destination == old(disk).staging && disk.transactions == []
      ensures result.BackupRetained? ==> disk.destination == old(disk).staging && CommitDurable(disk)
      ensures result == Error(Plain) ==>
        && disk.destination == settled.destination
        && (settled == old(disk)
            || (settled.transactions == [] && settled.destination == old(Outcome(attempt, committed))))
      ensures recovering ==> old(disk).transactions != [] && (result.Died? || result == Error(Interrupted))
      ensures result.Error? ==> (result == Error(Plain) <==> !recovering && (!touched || undone))
      ensures result.Complete? ==> troubles == old(troubles) && verified == old(disk).staging
      ensures result.BackupRetained? ==> troubles == old(troubles) + 1 && verified == old(disk).staging
      ensures result.Complete? || result.BackupRetained? ==>
        recorded == Forward(settled.destination.Some?) + [Committed] && inspections == [0, 2, 3]
      ensures undone ==> Unwound(recorded, settled.destination.Some?)
      ensures result != Error(QuarantinedError)
      ensures old(Stuck(disk)) ==>
        && (result.Died? || result.Error?)
        && Stuck(disk) && disk.destination == old(disk).destination && attempt == old(attempt)
      ensures Superseded(old(attempt), old(committed), attempt, disk)
      ensures Calm(old(clock)) && old(disk).staging.Some? && !old(Stuck(disk)) ==> result.Complete?
    {
      touched, undone, verified, recorded, inspections, recovering := false, false, None, [], [], false;
      var s, entered := RecoverStaleTransactions();
      settled := disk;
      InvKeepsTheAuthoritativeDirectory(attempt, committed, old(disk));
      InvKeepsTheAuthoritativeDirectory(attempt, committed, disk);
      if !s.Done? {
        // A partly recovered destination is never reported as a plain error.
        return Ended(s, entered), settled, entered;
      }
      result := CommitFresh();
      InvKeepsTheAuthoritativeDirectory(attempt, committed, disk);
    }

    /** Makes a prepared directory available for the next commit; it must not sit anywhere else. */
    method Stage(directory: DirectoryId)
      requires Valid()
      modifies this`disk
      ensures Valid() && disk.(staging := None) == old(disk).(staging := None)
      ensures disk.staging == Some(directory) || disk == old(disk)
      ensures Stuck(disk) == old(Stuck(disk))
    {
      var next := disk.(staging := Some(directory));
      if StagedApart(next) {
        disk := next;
      }
    }

    static function Ended(s: Signal, changed: bool): CommitResult {
      if s.Crashed? then Died else Error(if changed then Interrupted else Plain)
    }
  }

  datatype Event = StageDirectory(directory: DirectoryId) | TryCommit | TryRecovery

  datatype Snapshot = Snapshot(attempt: Attempt, committed: bool, disk: Disk)

  /** What must hold between one event and the next. */
  ghost predicate Continues(before: Snapshot, after: Snapshot) {
    && Superseded(before.attempt, before.committed, after.attempt, after.disk)
    && (Stuck(before.disk) ==> Stuck(after.disk) && after.disk.destination == before.disk.destination)
  }

  /**
   Any history of staging, commits and recoveries, each cut short wherever the fault oracle says:
   the invariant holds after every event, so at most one transaction is ever unresolved.
   */
  method RunHistory(store: DistributionStore, events: seq<Event>) returns (ghost trace: seq<Snapshot>)
    requires store.Valid()
    modifies store
    ensures store.Valid()
    ensures |trace| == |events| + 1
    ensures forall i :: 0 <= i < |trace| ==> Inv(trace[i].attempt, trace[i].committed, trace[i].disk)
    ensures forall i :: 0 < i < |trace| ==> Continues(trace[i - 1], trace[i])
  {
    trace := [Snapshot(store.attempt, store.committed, store.disk)];
    for n := 0 to |events|
      invariant store.Valid()
      invariant |trace| == n + 1
      invariant trace[n] == Snapshot(store.attempt, store.committed, store.disk)
      invariant forall i :: 0 <= i < |trace| ==> Inv(trace[i].attempt, trace[i].committed, trace[i].disk)
      invariant forall i :: 0 < i < |trace| ==> Continues(trace[i - 1], trace[i])
    {
      InvKeepsTheAuthoritativeDirectory(store.attempt, store.committed, store.disk);
      match events[n] {
        case StageDirectory(directory) => store.Stage(directory);
        case TryCommit => var result; ghost var settled, recovering; result, settled, recovering := store.Commit();
        case TryRecovery => var s, entered := store.RecoverStaleTransactions();
      }
      InvKeepsTheAuthoritativeDirectory(store.attempt, store.committed, store.disk);
      trace := trace + [Snapshot(store.attempt, store.committed, store.disk)];
    }
  }
}
