/**
 What every durable state of a commit, a rollback or a crashed recovery looks
 like, and what recovery makes of it.
 */
module DistributionTheory {
  import opened Options
  import opened DistributionModel

  /** One commit: the directory it found at the destination and the directory it installs. */
  datatype Attempt = Attempt(original: Option<DirectoryId>, staged: DirectoryId)

  predicate IsBackupState(s: TransactionState) {
    s.PreviousSaved? || s.InstallPending? || s.Installed? || s.RollbackPending? || s.RolledBack?
  }

  predicate IsFirstInstallState(s: TransactionState) {
    s.NoPrevious? || s.InstallPendingNoPrevious? || s.InstalledNoPrevious? || s.RollbackPendingNoPrevious?
  }

  /** The states whose recovery refuses once `previous` has been moved back. */
  predicate IsFragile(s: TransactionState) {
    s.PreviousSaved? || s.InstallPending? || s.Installed?
  }

  /** At most how many records a transaction has written when it reaches a state. */
  function Writes(s: TransactionState): nat {
    match s
    case Prepared => 1
    case NoPrevious | PreviousSaved => 2
    case InstallPending | InstallPendingNoPrevious => 3
    case Installed | InstalledNoPrevious => 4
    case RollbackPending | RollbackPendingNoPrevious | Committed => 5
    case RolledBack => 6
  }

  /** The identities a record of `a` carries in each state. */
  predicate RecordOf(a: Attempt, r: Journal, owner: nat) {
    && r.owner == owner
    && 0 < r.sequence <= Writes(r.state)
    && r.original == a.original
    && r.previous == (if r.state.Prepared? then None else a.original)
    && r.installed == (if r.state.Prepared? || r.state.NoPrevious? || r.state.PreviousSaved?
                       then None else Some(a.staged))
    && (IsBackupState(r.state) ==> a.original.Some?)
    && (IsFirstInstallState(r.state) ==> a.original.None?)
  }

  /** Where the original and the staged directory may be while a record in state `s` is effective. */
  predicate Layout(a: Attempt, s: TransactionState, d: Disk, t: Transaction) {
    && (t.recoveryInstall.None? || t.recoveryInstall == Some(a.staged))
    && (t.failedInstall.None? || t.failedInstall == Some(a.staged))
    && !(t.recoveryInstall.Some? && t.failedInstall.Some?)
    && (d.destination == Some(a.staged) ==> t.recoveryInstall.None? && t.failedInstall.None?)
    && (t.failedInstall.Some? ==> s.RollbackPending? || s.RolledBack?)
    && (t.recoveryInstall.Some? ==> s.InstallPending? || s.Installed? || s.RollbackPending?)
    && match s
       case Prepared =>
         || (t.previous.None? && d.destination == a.original)
         || (t.previous.Some? && t.previous == a.original && d.destination.None?)
       case NoPrevious => t.previous.None? && d.destination.None?
       case PreviousSaved =>
         || (t.previous == a.original && d.destination.None?)
         || (t.previous.None? && d.destination == a.original)
       case InstallPending | Installed | RollbackPending =>
         || (t.previous == a.original && (d.destination.None? || d.destination == Some(a.staged)))
         || (t.previous.None? && d.destination == a.original)
       case RolledBack => t.previous.None? && d.destination == a.original
       case Committed =>
         && d.destination == Some(a.staged)
         && (t.previous.None? || t.previous == a.original)
       case _ =>
         && t.previous.None?
         && (d.destination.None? || d.destination == Some(a.staged))
  }

  /** The two control files together: the next record is torn, or newer and already true of the disk. */
  predicate Files(a: Attempt, d: Disk, t: Transaction) {
    match t.journal
    case Absent =>
      && t.isPrivate && !HasPayload(t) && d.destination == a.original
      && (t.next.Absent? || t.next.Torn?
          || (t.next.Written? && t.next.record.state.Prepared? && RecordOf(a, t.next.record, t.identity)))
    case Written(r) =>
      && RecordOf(a, r, t.identity)
      && Layout(a, r.state, d, t)
      && (t.isPrivate ==> r.state.Prepared? && !HasPayload(t) && t.next.Absent?)
      && (t.next.Absent? || t.next.Torn?
          || (t.next.Written?
              && RecordOf(a, t.next.record, t.identity)
              && t.next.record.sequence > r.sequence
              && !r.state.Committed?
              && Layout(a, t.next.record.state, d, t)))
    case _ => false
  }

  /** The record recovery acts on: the newer readable one of `journal` and `journal.next`. */
  function Effective(t: Transaction): Option<TransactionState> {
    var journal := ReadJournal(t.journal);
    var next := ReadJournal(t.next);
    if next.Some? && (journal.None? || next.value.sequence > journal.value.sequence)
    then Some(next.value.state)
    else if journal.Some? then Some(journal.value.state)
    else None
  }

  /** A complete Committed record is on disk. */
  predicate CommitDurable(d: Disk) {
    exists k :: 0 <= k < |d.transactions| && Effective(d.transactions[k]) == Some(Committed)
  }

  /** A staged directory sits nowhere else. */
  predicate StagedApart(d: Disk) {
    d.staging.Some? ==>
      && d.staging != d.destination
      && forall k :: 0 <= k < |d.transactions| ==>
           && d.staging != d.transactions[k].previous
           && d.staging != d.transactions[k].recoveryInstall
           && d.staging != d.transactions[k].failedInstall
  }

  /** The invariant of every history; `committed` remembers that a Committed record was durable. */
  predicate Inv(a: Attempt, committed: bool, d: Disk) {
    && a.original != Some(a.staged)
    && |d.transactions| <= 1
    && d.quarantined == []
    && StagedApart(d)
    && (d.transactions == [] ==> d.destination == (if committed then Some(a.staged) else a.original))
    && (d.transactions != [] ==>
          var t := d.transactions[0];
          Files(a, d, t) && (committed <==> Effective(t) == Some(Committed)))
  }

  /** A fragile record whose `previous` was already moved back to the destination. */
  predicate Stuck(d: Disk) {
    && d.transactions != []
    && var t := d.transactions[0];
       var s := Effective(t);
       s.Some? && IsFragile(s.value) && t.previous.None?
  }

  /** The directory a completed recovery must leave at the destination. */
  function Outcome(a: Attempt, committed: bool): Option<DirectoryId> {
    if committed then Some(a.staged) else a.original
  }

  /** What the invariant means without its table: no directory that matters is ever lost. */
  lemma InvKeepsTheAuthoritativeDirectory(a: Attempt, committed: bool, d: Disk)
    requires Inv(a, committed, d)
    ensures !committed && a.original.Some? ==>
      || d.destination == a.original
      || (d.transactions != [] && d.transactions[0].previous == a.original)
    ensures !committed && a.original.None? ==> d.destination.None? || d.destination == Some(a.staged)
    ensures committed ==> d.destination == Some(a.staged)
    ensures !committed ==> !CommitDurable(d)
    ensures Stuck(d) ==> !committed && d.destination == a.original
  {
  }

  /** Without a readable record the transaction never changed a directory, and it is removed. */
  lemma UnrecordedInv(a: Attempt, committed: bool, d: Disk)
    requires Inv(a, committed, d) && d.transactions != [] && ResolveRun(d).Settled?
    ensures ResolveRun(d).run.verdict.Recovered?
    ensures !committed && Effective(d.transactions[0]).None?
    ensures Last(d, ResolveRun(d).run.steps).transactions == []
    ensures forall k :: 0 <= k < |ResolveRun(d).run.steps| ==> Inv(a, committed, ResolveRun(d).run.steps[k])
  {
  }

  lemma PromotingInv(a: Attempt, committed: bool, d: Disk)
    requires Inv(a, committed, d) && d.transactions != []
    requires d.transactions[0].next.Written?
    ensures Inv(a, committed, PromoteNext(d)) && Effective(d.transactions[0]) == Some(d.transactions[0].next.record.state)
  {
  }

  lemma DiscardingInv(a: Attempt, committed: bool, d: Disk)
    requires Inv(a, committed, d) && d.transactions != []
    requires d.transactions[0].journal.Written? && !d.transactions[0].next.Written?
    ensures Inv(a, committed, DiscardNext(d)) && Effective(d.transactions[0]) == Some(d.transactions[0].journal.record.state)
  {
  }

  lemma RecordedInv(a: Attempt, committed: bool, d: Disk)
    requires Inv(a, committed, d) && d.transactions != [] && ResolveRun(d).Ready?
    ensures var Ready(steps, r) := ResolveRun(d);
      var e := Last(d, steps);
      && |steps| <= 1
      && Inv(a, committed, e)
      && e.transactions == [d.transactions[0].(journal := Written(r), next := Absent)]
      && e.destination == d.destination
      && Effective(d.transactions[0]) == Some(r.state)
  {
    if d.transactions[0].next.Written? {
      PromotingInv(a, committed, d);
      assert ResolveRun(d).steps == [PromoteNext(d)];
    } else {
      DiscardingInv(a, committed, d);
      assert ResolveRun(d).steps == [] || ResolveRun(d).steps == [DiscardNext(d)];
    }
  }

  /** Settling the two control files ends with the newer readable record, or with no transaction. */
  lemma ResolvedInv(a: Attempt, committed: bool, d: Disk)
    requires Inv(a, committed, d) && d.transactions != []
    ensures ResolveRun(d).Ready? <==> Effective(d.transactions[0]).Some?
    ensures ResolveRun(d).Settled? ==>
      && ResolveRun(d).run.verdict.Recovered?
      && !committed
      && Last(d, ResolveRun(d).run.steps).transactions == []
      && forall k :: 0 <= k < |ResolveRun(d).run.steps| ==> Inv(a, committed, ResolveRun(d).run.steps[k])
    ensures ResolveRun(d).Ready? ==>
      var Ready(steps, r) := ResolveRun(d);
      var e := Last(d, steps);
      && |steps| <= 1
      && Inv(a, committed, e)
      && e.transactions == [d.transactions[0].(journal := Written(r), next := Absent)]
      && e.destination == d.destination
      && Effective(d.transactions[0]) == Some(r.state)
  {
    if ResolveRun(d).Ready? {
      RecordedInv(a, committed, d);
    } else {
      UnrecordedInv(a, committed, d);
    }
  }

  /** A disk whose journal files have been settled into the single record `r`. */
  predicate IsResolved(d: Disk, r: Journal) {
    && |d.transactions| == 1
    && d.transactions[0].journal == Written(r)
    && d.transactions[0].next.Absent?
  }

  /** `run` leads from `d` to the outcome through the invariant, and gets stuck only when `r` is fragile. */
  predicate Settles(a: Attempt, committed: bool, d: Disk, r: Journal, run: Run) {
    && run.verdict.Recovered?
    && Last(d, run.steps).destination == Outcome(a, committed)
    && |Last(d, run.steps).transactions| == 1
    && (forall k :: 0 <= k < |run.steps| ==> Inv(a, committed, run.steps[k]))
    && (IsFragile(r.state) <==> Stuck(Last(d, run.steps)))
    && (forall k :: 0 <= k < |run.steps| ==> Stuck(run.steps[k]) ==> IsFragile(r.state))
  }

  lemma SwappingSettles(a: Attempt, committed: bool, d: Disk, r: Journal)
    requires Inv(a, committed, d) && IsResolved(d, r) && IsBackupState(r.state)
    requires d.transactions[0].previous.Some? && d.destination.Some?
    ensures Settles(a, committed, d, r, SwapRun(d, r))
  {
    var d2 := SetInstalledAside(RemoveRecoveryInstall(d));
    var d3 := RestorePrevious(d2);
    var d4 := RemoveRecoveryInstall(d3);
    assert SwapRun(d, r) == Run([d2, d3, d4], Recovered);
    assert Inv(a, committed, d2);
    assert Inv(a, committed, d3);
    assert Inv(a, committed, d4);
  }

  lemma ReturningSettles(a: Attempt, committed: bool, d: Disk, r: Journal)
    requires Inv(a, committed, d) && IsResolved(d, r) && IsBackupState(r.state)
    requires d.transactions[0].previous.Some? && d.destination.None?
    ensures Settles(a, committed, d, r, ReturnRun(d, r))
  {
    var d1 := RestorePrevious(d);
    assert Inv(a, committed, d1);
    assert Inv(a, committed, RemoveRecoveryInstall(d1));
  }

  /** From a settled disk that is not stuck, recovery reaches the outcome without leaving the invariant. */
  lemma SettlingSucceeds(a: Attempt, committed: bool, d: Disk, r: Journal)
    requires Inv(a, committed, d) && IsResolved(d, r) && !Stuck(d)
    ensures Settles(a, committed, d, r, SettleRun(d, r))
  {
    if IsBackupState(r.state) && d.transactions[0].previous.Some? {
      assert SettleRun(d, r) == RestoreRun(d, r);
      if d.destination.Some? {
        SwappingSettles(a, committed, d, r);
      } else {
        ReturningSettles(a, committed, d, r);
      }
    } else {
      SettlingWithoutABackup(a, committed, d, r);
    }
  }

  /** Nothing was installed yet. */
  lemma SettlingBeforeInstall(a: Attempt, committed: bool, d: Disk, r: Journal)
    requires Inv(a, committed, d) && IsResolved(d, r) && (r.state.Prepared? || r.state.NoPrevious?)
    ensures Settles(a, committed, d, r, SettleRun(d, r))
  {
  }

  lemma SettlingAFirstInstall(a: Attempt, committed: bool, d: Disk, r: Journal)
    requires Inv(a, committed, d) && IsResolved(d, r) && IsFirstInstallState(r.state) && !r.state.NoPrevious?
    ensures Settles(a, committed, d, r, SettleRun(d, r))
  {
    var vacant := d.(destination := None);
    assert SettleRun(d, r) == Run(if d.destination.Some? then [vacant] else [], Recovered);
    assert Inv(a, committed, vacant);
  }

  lemma SettlingARollback(a: Attempt, committed: bool, d: Disk, r: Journal)
    requires Inv(a, committed, d) && IsResolved(d, r) && (r.state.RollbackPending? || r.state.RolledBack?)
    requires d.transactions[0].previous.None?
    ensures Settles(a, committed, d, r, SettleRun(d, r))
  {
    assert Inv(a, committed, RemoveRecoveryInstall(d));
  }

  lemma SettlingACommit(a: Attempt, committed: bool, d: Disk, r: Journal)
    requires Inv(a, committed, d) && IsResolved(d, r) && r.state.Committed?
    ensures Settles(a, committed, d, r, SettleRun(d, r))
  {
    assert Inv(a, committed, RemovePrevious(d));
  }

  lemma SettlingWithoutABackup(a: Attempt, committed: bool, d: Disk, r: Journal)
    requires Inv(a, committed, d) && IsResolved(d, r) && !Stuck(d)
    requires !IsBackupState(r.state) || d.transactions[0].previous.None?
    ensures Settles(a, committed, d, r, SettleRun(d, r))
  {
    match r.state
    case Prepared | NoPrevious => SettlingBeforeInstall(a, committed, d, r);
    case InstallPendingNoPrevious | InstalledNoPrevious | RollbackPendingNoPrevious =>
      SettlingAFirstInstall(a, committed, d, r);
    case RollbackPending | RolledBack => SettlingARollback(a, committed, d, r);
    case Committed => SettlingACommit(a, committed, d, r);
    case PreviousSaved | InstallPending | Installed => assert false;
  }

  /** From a stuck disk, settling refuses and changes nothing. */
  lemma SettlingRefuses(a: Attempt, committed: bool, d: Disk, r: Journal)
    requires Inv(a, committed, d) && IsResolved(d, r) && Stuck(d)
    ensures SettleRun(d, r) == Run([], Refused)
  {
  }

  lemma PrivateDisksHaveNoPayload(a: Attempt, committed: bool, d: Disk)
    requires Inv(a, committed, d) && d.transactions != []
    ensures d.transactions[0].isPrivate ==> !HasPayload(d.transactions[0])
  {
  }

  /** The three parts of a recovery that has a record to act on. */
  lemma RunOfAReadyDisk(a: Attempt, committed: bool, d: Disk)
    requires Inv(a, committed, d) && d.transactions != [] && ResolveRun(d).Ready?
    ensures var Ready(steps, r) := ResolveRun(d);
      var e := Last(d, steps);
      var settle := SettleRun(e, r);
      && Inv(a, committed, e) && IsResolved(e, r) && (Stuck(e) <==> Stuck(d)) && |steps| <= 1
      && e.destination == d.destination
      && (Stuck(d) ==> RecoveryRun(d) == Run(steps, Refused))
      && (!Stuck(d) ==>
            && Settles(a, committed, e, r, settle)
            && RecoveryRun(d) ==
                 Run(steps + (settle.steps + [RemoveTransaction(Last(e, settle.steps))]), Recovered))
  {
    ResolvedInv(a, committed, d);
    var Ready(steps, r) := ResolveRun(d);
    var e := Last(d, steps);
    PrivateDisksHaveNoPayload(a, committed, e);
    if Stuck(e) {
      SettlingRefuses(a, committed, e, r);
    } else {
      SettlingSucceeds(a, committed, e, r);
    }
  }

  lemma RemovingASettledTransaction(a: Attempt, committed: bool, e: Disk)
    requires Inv(a, committed, e) && |e.transactions| == 1 && e.destination == Outcome(a, committed)
    ensures Inv(a, committed, RemoveTransaction(e))
  {
  }

  /**
   Recovery decides every disk of the invariant: it completes exactly when the
   disk is not stuck, and then the transaction is gone and the destination is
   the committed directory or the original one. It never quarantines, and a
   refusal leaves the directories untouched.
   */
  lemma RecoveryDecides(a: Attempt, committed: bool, d: Disk)
    requires Inv(a, committed, d) && d.transactions != []
    ensures var run := RecoveryRun(d);
      var e := Last(d, run.steps);
      && (run.verdict.Recovered? <==> !Stuck(d))
      && !run.verdict.Quarantine?
      && (!Stuck(d) ==> e.transactions == [] && e.destination == Outcome(a, committed))
      && (Stuck(d) ==> Stuck(e) && |run.steps| <= 1 && e.destination == a.original == d.destination)
  {
    if ResolveRun(d).Ready? {
      RunOfAReadyDisk(a, committed, d);
      InvKeepsTheAuthoritativeDirectory(a, committed, d);
    } else {
      ResolvedInv(a, committed, d);
    }
  }

  /** The effective state of the first transaction is one whose restart is refused. */
  predicate Fragile(d: Disk) {
    d.transactions != [] && Effective(d.transactions[0]).Some? && IsFragile(Effective(d.transactions[0]).value)
  }

  lemma SettlingKeepsTheRecord(a: Attempt, committed: bool, d: Disk, r: Journal)
    requires Inv(a, committed, d) && IsResolved(d, r)
    ensures var run := SettleRun(d, r);
      run.verdict.Recovered? ==>
        forall k :: 0 <= k < |run.steps| ==>
          run.steps[k].transactions != [] && Effective(run.steps[k].transactions[0]) == Some(r.state)
  {
    if IsBackupState(r.state) && d.transactions[0].previous.Some? {
      assert SettleRun(d, r) == RestoreRun(d, r);
      RestoringKeepsTheRecord(d, r);
    }
  }

  lemma RestoringKeepsTheRecord(d: Disk, r: Journal)
    requires IsResolved(d, r) && r.sequence > 0
    ensures var run := RestoreRun(d, r);
      run.verdict.Recovered? ==>
        forall k :: 0 <= k < |run.steps| ==>
          run.steps[k].transactions != [] && Effective(run.steps[k].transactions[0]) == Some(r.state)
  {
  }

  /** Indexing a run made of a journal part, a settling part and the final removal. */
  lemma StepOfAThreePartRun(a: Attempt, committed: bool, d: Disk, steps: seq<Disk>, e: Disk, settle: seq<Disk>,
                            s: TransactionState, run: seq<Disk>, k: nat)
    requires |steps| <= 1 && e == Last(d, steps) && Inv(a, committed, d) && Inv(a, committed, e)
    requires e.transactions != []
    requires forall i :: 0 <= i < |settle| ==>
      && Inv(a, committed, settle[i])
      && settle[i].transactions != []
      && Effective(settle[i].transactions[0]) == Some(s)
    requires Effective(e.transactions[0]) == Some(s)
    requires Last(e, settle).destination == Outcome(a, committed)
    requires run == steps + (settle + [RemoveTransaction(Last(e, settle))]) && k <= |run|
    ensures Inv(a, committed, At(d, run, k))
    ensures At(d, run, k) == d || At(d, run, k).transactions == []
            || Effective(At(d, run, k).transactions[0]) == Some(s)
  {
    var i := k - |steps|;
    if i > |settle| {
      assert At(d, run, k) == RemoveTransaction(Last(e, settle));
      RemovingASettledTransaction(a, committed, Last(e, settle));
    } else if i > 0 {
      assert At(d, run, k) == settle[i - 1];
    }
  }

  lemma SettlingRecoveryStaysInvariant(a: Attempt, committed: bool, d: Disk, k: nat)
    requires Inv(a, committed, d) && d.transactions != [] && ResolveRun(d).Ready? && !Stuck(d)
    requires k <= |RecoveryRun(d).steps|
    ensures var e := At(d, RecoveryRun(d).steps, k);
      && Inv(a, committed, e)
      && (e == d || e.transactions == [] || Effective(e.transactions[0]) == Some(ResolveRun(d).record.state))
  {
    RunOfAReadyDisk(a, committed, d);
    var Ready(steps, r) := ResolveRun(d);
    var e := Last(d, steps);
    SettlingKeepsTheRecord(a, committed, e, r);
    StepOfAThreePartRun(a, committed, d, steps, e, SettleRun(e, r).steps, r.state, RecoveryRun(d).steps, k);
  }

  lemma StuckRecoveryStaysInvariant(a: Attempt, committed: bool, d: Disk, k: nat)
    requires Inv(a, committed, d) && d.transactions != [] && Stuck(d) && k <= |RecoveryRun(d).steps|
    ensures Inv(a, committed, At(d, RecoveryRun(d).steps, k))
  {
    ResolvedInv(a, committed, d);
    RunOfAReadyDisk(a, committed, d);
  }

  /** Every durable state of a recovery, interrupted anywhere, stays inside the invariant. */
  lemma RecoveryStaysInvariant(a: Attempt, committed: bool, d: Disk, k: nat)
    requires Inv(a, committed, d) && d.transactions != [] && k <= |RecoveryRun(d).steps|
    ensures var e := At(d, RecoveryRun(d).steps, k);
      && Inv(a, committed, e)
      && (Fragile(e) ==> Fragile(d))
  {
    ResolvedInv(a, committed, d);
    if Stuck(d) {
      StuckRecoveryStaysInvariant(a, committed, d, k);
    } else if ResolveRun(d).Ready? {
      SettlingRecoveryStaysInvariant(a, committed, d, k);
    }
  }

  /** The last step before the transaction is removed strands a fragile record. */
  lemma FragileRunStrands(a: Attempt, committed: bool, d: Disk) returns (k: nat)
    requires Inv(a, committed, d) && d.transactions != [] && !Stuck(d) && Fragile(d)
    ensures k <= |RecoveryRun(d).steps| && Stuck(At(d, RecoveryRun(d).steps, k))
  {
    ResolvedInv(a, committed, d);
    RunOfAReadyDisk(a, committed, d);
    var Ready(steps, r) := ResolveRun(d);
    var e := Last(d, steps);
    var settle := SettleRun(e, r).steps;
    k := |steps| + |settle|;
    assert At(d, RecoveryRun(d).steps, k) == Last(e, settle);
  }

  /** The exact restart boundary: some crash point of the recovery leaves a stuck disk iff the record is fragile. */
  lemma RestartBoundary(a: Attempt, committed: bool, d: Disk)
    requires Inv(a, committed, d) && d.transactions != [] && !Stuck(d)
    ensures (exists k :: 0 <= k <= |RecoveryRun(d).steps| && Stuck(At(d, RecoveryRun(d).steps, k))) <==> Fragile(d)
  {
    if Fragile(d) {
      var k := FragileRunStrands(a, committed, d);
    } else if k :| 0 <= k <= |RecoveryRun(d).steps| && Stuck(At(d, RecoveryRun(d).steps, k)) {
      RecoveryStaysInvariant(a, committed, d, k);
    }
  }

  /** The disk after recoveries that were cut after `cuts[0]`, `cuts[1]`, ... durable steps. */
  function AfterCrashes(d: Disk, cuts: seq<nat>): Disk
    decreases |cuts|
  {
    if cuts == [] || d.transactions == [] then d
    else
      var steps := RecoveryRun(d).steps;
      AfterCrashes(At(d, steps, if cuts[0] < |steps| then cuts[0] else |steps|), cuts[1..])
  }

  /** One more uninterrupted recovery ends with no transaction and the right destination. */
  predicate Completes(a: Attempt, committed: bool, d: Disk) {
    && |d.transactions| <= 1
    && (d.transactions == [] ==> d.destination == Outcome(a, committed))
    && (d.transactions != [] ==>
          var run := RecoveryRun(d);
          var e := Last(d, run.steps);
          run.verdict.Recovered? && e.transactions == [] && e.destination == Outcome(a, committed))
  }

  lemma CompletesUnlessStuck(a: Attempt, committed: bool, d: Disk)
    requires Inv(a, committed, d)
    ensures Completes(a, committed, d) <==> !Stuck(d)
  {
    if d.transactions != [] {
      RecoveryDecides(a, committed, d);
    }
  }

  lemma {:induction false} CrashesStayInvariant(a: Attempt, committed: bool, d: Disk, cuts: seq<nat>)
    requires Inv(a, committed, d)
    ensures Inv(a, committed, AfterCrashes(d, cuts))
    ensures Fragile(AfterCrashes(d, cuts)) ==> Fragile(d)
    decreases |cuts|
  {
    if cuts != [] && d.transactions != [] {
      var steps := RecoveryRun(d).steps;
      var k := if cuts[0] < |steps| then cuts[0] else |steps|;
      RecoveryStaysInvariant(a, committed, d, k);
      CrashesStayInvariant(a, committed, At(d, steps, k), cuts[1..]);
    }
  }

  lemma OneCrash(d: Disk, k: nat)
    requires d.transactions != [] && k <= |RecoveryRun(d).steps|
    ensures AfterCrashes(d, [k]) == At(d, RecoveryRun(d).steps, k)
  {
    var e := At(d, RecoveryRun(d).steps, k);
    assert [k][1..] == [];
    assert AfterCrashes(e, []) == e;
  }

  /** A fragile record can be cut so that no recovery completes ever after. */
  lemma FragileRecordsCanBeStranded(a: Attempt, committed: bool, d: Disk) returns (cuts: seq<nat>)
    requires Inv(a, committed, d) && !Stuck(d) && Fragile(d)
    ensures !Completes(a, committed, AfterCrashes(d, cuts))
    ensures forall more :: Refuses(AfterCrashes(AfterCrashes(d, cuts), more))
  {
    RestartBoundary(a, committed, d);
    var k: nat :| k <= |RecoveryRun(d).steps| && Stuck(At(d, RecoveryRun(d).steps, k));
    cuts := [k];
    OneCrash(d, k);
    CrashesStayInvariant(a, committed, d, cuts);
    CompletesUnlessStuck(a, committed, AfterCrashes(d, cuts));
    forall more
      ensures Refuses(AfterCrashes(AfterCrashes(d, cuts), more))
    {
      StuckIsPermanent(a, committed, AfterCrashes(d, cuts), more);
    }
  }

  /**
   Convergence: recoveries crashed at any steps, any number of times, can always be completed by
   one more run exactly when the record is not fragile.
   */
  lemma RestartsConvergeIffNotFragile(a: Attempt, committed: bool, d: Disk)
    requires Inv(a, committed, d) && !Stuck(d)
    ensures (forall cuts :: Completes(a, committed, AfterCrashes(d, cuts))) <==> !Fragile(d)
  {
    if Fragile(d) {
      var cuts := FragileRecordsCanBeStranded(a, committed, d);
    } else {
      forall cuts
        ensures Completes(a, committed, AfterCrashes(d, cuts))
      {
        CrashesStayInvariant(a, committed, d, cuts);
        CompletesUnlessStuck(a, committed, AfterCrashes(d, cuts));
      }
    }
  }

  predicate Refuses(d: Disk) {
    d.transactions != [] && RecoveryRun(d).verdict.Refused?
  }

  /** Once stuck, every later recovery refuses, and the original directory stays at the destination. */
  lemma {:induction false} StuckIsPermanent(a: Attempt, committed: bool, d: Disk, cuts: seq<nat>)
    requires Inv(a, committed, d) && Stuck(d)
    ensures var e := AfterCrashes(d, cuts);
      Stuck(e) && Refuses(e) && e.destination == a.original
    decreases |cuts|
  {
    RecoveryDecides(a, committed, d);
    if cuts != [] {
      var steps := RecoveryRun(d).steps;
      var k := if cuts[0] < |steps| then cuts[0] else |steps|;
      RecoveryStaysInvariant(a, committed, d, k);
      StuckIsPermanent(a, committed, At(d, steps, k), cuts[1..]);
    }
  }

  /** The next record is being written: torn, or complete and already true of the disk. */
  lemma WritingNextStaysInvariant(a: Attempt, d: Disk, current: Journal, next: JournalFile)
    requires Inv(a, false, d) && IsResolved(d, current) && !d.transactions[0].isPrivate
    requires next.Torn? || next.Written?
    requires next.Written? ==>
      && RecordOf(a, next.record, d.transactions[0].identity) && next.record.sequence > current.sequence
      && Layout(a, next.record.state, d, d.transactions[0])
    ensures Inv(a, next.Written? && next.record.state.Committed?, WithFirst(d, d.transactions[0].(next := next)))
  {
  }

  lemma ReplacingStaysInvariant(a: Attempt, d: Disk, current: Journal, r: Journal)
    requires Inv(a, false, d) && IsResolved(d, current) && !d.transactions[0].isPrivate
    requires RecordOf(a, r, d.transactions[0].identity) && Layout(a, r.state, d, d.transactions[0])
    ensures Inv(a, r.state.Committed?, WithFirst(d, d.transactions[0].(journal := Written(r), next := Absent)))
  {
  }

  /** Writing a record that is already true of the disk is safe at each of its three stages. */
  lemma WritingStaysInvariant(a: Attempt, d: Disk, current: Journal, r: Journal, stage: nat)
    requires Inv(a, false, d) && IsResolved(d, current) && !d.transactions[0].isPrivate
    requires RecordOf(a, r, d.transactions[0].identity) && r.sequence > current.sequence
    requires Layout(a, r.state, d, d.transactions[0])
    requires !Stuck(d) && (IsFragile(r.state) ==> d.transactions[0].previous.Some?)
    ensures Inv(a, stage >= 2 && r.state.Committed?, WriteStage(d, r, stage))
    ensures !Stuck(WriteStage(d, r, stage))
  {
    if stage == 0 {
      assert WriteStage(d, r, stage) == d;
    } else if stage <= 2 {
      WritingNextStaysInvariant(a, d, current, if stage == 1 then Torn else Written(r));
    } else {
      ReplacingStaysInvariant(a, d, current, r);
    }
  }

  /** The first record, written into the still private transaction. */
  lemma WritingTheFirstRecord(a: Attempt, d: Disk, r: Journal, stage: nat)
    requires Inv(a, false, d) && |d.transactions| == 1
    requires d.transactions[0].journal.Absent? && d.transactions[0].next.Absent?
    requires RecordOf(a, r, d.transactions[0].identity) && r.state.Prepared?
    ensures Inv(a, false, WriteStage(d, r, stage))
    ensures !Stuck(WriteStage(d, r, stage))
  {
  }

  /** An installed but unverified directory 2 over the original directory 1. */
  const INTERRUPTED_INSTALL := Disk(
    Some(2), None,
    [Transaction(7, false, Written(Journal(7, Some(1), Installed, Some(1), Some(2), 4)), Absent, Some(1), None, None)],
    [])

  /** Recovery is not idempotent: cut after its second rename, it refuses its own work ever after. */
  lemma RecoveryRefusesItsOwnWork()
    ensures Completes(Attempt(Some(1), 2), false, INTERRUPTED_INSTALL)
    ensures var e := AfterCrashes(INTERRUPTED_INSTALL, [2]);
      && e.destination == Some(1)
      && forall cuts :: Refuses(AfterCrashes(e, cuts))
  {
    var a := Attempt(Some(1), 2);
    var d := INTERRUPTED_INSTALL;
    assert Inv(a, false, d) && !Stuck(d);
    CompletesUnlessStuck(a, false, d);
    var r := d.transactions[0].journal.record;
    var d2 := SetInstalledAside(RemoveRecoveryInstall(d));
    var d3 := RestorePrevious(d2);
    assert ResolveRun(d) == Ready([], r);
    assert SwapRun(d, r).steps == [d2, d3, RemoveRecoveryInstall(d3)];
    RunOfAReadyDisk(a, false, d);
    assert RecoveryRun(d).steps[1] == d3;
    OneCrash(d, 2);
    RecoveryStaysInvariant(a, false, d, 2);
    forall cuts
      ensures Refuses(AfterCrashes(d3, cuts))
    {
      StuckIsPermanent(a, false, d3, cuts);
    }
  }
}
