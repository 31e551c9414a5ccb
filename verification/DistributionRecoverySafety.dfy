/**
 What recovery does to a disk that no commit can have left: with any control files,
 torn, irregular or foreign, and any directories anywhere. Nothing here assumes the
 invariant of the commit protocol.
 */
module DistributionRecoverySafety {
  import opened Options
  import opened DistributionModel

  /** The control file holds a readable record of this very transaction. */
  predicate OwnRecord(t: Transaction, file: JournalFile) {
    file.Written? && file.record.sequence > 0 && file.record.owner == t.identity
  }

  predicate InPayload(t: Transaction, x: DirectoryId) {
    t.previous == Some(x) || t.recoveryInstall == Some(x) || t.failedInstall == Some(x)
  }

  /** The directory is at the destination, in a listed transaction or in a quarantined one. */
  predicate Kept(d: Disk, x: DirectoryId) {
    || d.destination == Some(x)
    || (exists i :: 0 <= i < |d.transactions| && InPayload(d.transactions[i], x))
    || (exists i :: 0 <= i < |d.quarantined| && InPayload(d.quarantined[i], x))
  }

  /** The record names the directory. */
  predicate Names(r: Journal, x: DirectoryId) {
    r.previous == Some(x) || r.original == Some(x) || r.installed == Some(x)
  }

  /** States whose recovery does not look for an installation set aside. */
  predicate Incurious(s: TransactionState) {
    s.Prepared? || s.NoPrevious?
  }

  // Control files that do not give a record.

  /** Without a readable record of its own, a transaction with a payload is never touched, only refused or set aside whole. */
  lemma UnreadableIsKept(d: Disk, k: nat)
    requires d.transactions != [] && k <= |RecoveryRun(d).steps|
    requires var t := d.transactions[0]; HasPayload(t) && !OwnRecord(t, t.journal) && !OwnRecord(t, t.next)
    ensures var e := At(d, RecoveryRun(d).steps, k);
      (e == d || e == QuarantineTransaction(d)) && e.destination == d.destination
    ensures !RecoveryRun(d).verdict.Recovered?
  {
  }

  /** The control files settle to a record exactly in these three cases. */
  lemma ActsExactlyOn(d: Disk)
    requires d.transactions != []
    ensures var t := d.transactions[0];
      ResolveRun(d).Ready? <==>
        || (OwnRecord(t, t.journal) && t.next.Absent?)
        || (&& OwnRecord(t, t.journal) && !t.next.Absent? && !t.next.Irregular?
            && (t.next.Written? && t.next.record.sequence > t.journal.record.sequence ==> t.next.record.owner == t.identity))
        || (t.journal.Absent? && OwnRecord(t, t.next))
  {
  }

  /** The record acted on is the newer one, and it is the transaction's own. */
  lemma ActsOnTheNewerRecord(d: Disk)
    requires d.transactions != [] && ResolveRun(d).Ready?
    ensures var t, r := d.transactions[0], ResolveRun(d).record;
      && r.owner == t.identity && r.sequence > 0
      && (t.journal == Written(r) || t.next == Written(r))
      && (t.journal.Written? ==> t.journal.record.sequence <= r.sequence)
      && (t.journal.Written? && t.next.Written? ==> t.next.record.sequence <= r.sequence || t.next.record.sequence == 0)
  {
  }

  /** A transaction is set aside exactly when its control files are damaged, or contradict what is on disk. */
  lemma QuarantinedExactly(d: Disk)
    requires d.transactions != []
    ensures var t := d.transactions[0];
      RecoveryRun(d).verdict.Quarantine? <==>
        || (!t.journal.Absent? && ReadJournal(t.journal).None?)
        || (t.journal.Absent? && t.next.Irregular?)
        || (t.journal.Absent? && ReadJournal(t.next).None? && HasPayload(t))
        || (OwnRecord(t, t.journal) && t.next.Irregular?)
        || (ResolveRun(d).Ready? && t.isPrivate && HasPayload(t))
        || (&& ResolveRun(d).Ready? && ResolveRun(d).record.state.Committed?
            && ResolveRun(d).record.installed.Some? && d.destination.None?)
  {
    if ResolveRun(d).Ready? {
      ResolvingMovesNothing(d);
      var Ready(steps, r) := ResolveRun(d);
      SettlingQuarantines(Last(d, steps), r);
    }
  }

  lemma SettlingQuarantines(d: Disk, r: Journal)
    requires d.transactions != []
    ensures SettleRun(d, r).verdict.Quarantine? <==> r.state.Committed? && r.installed.Some? && d.destination.None?
  {
    match r.state
    case Prepared | NoPrevious =>
    case PreviousSaved | InstallPending | Installed =>
    case InstallPendingNoPrevious | InstalledNoPrevious | RollbackPendingNoPrevious => FirstInstallIsSafe(d, r, 0);
    case RollbackPending | RolledBack => RollbackIsSafe(d, r, 0);
    case Committed =>
  }

  /** Only the control files of the first transaction differ. */
  predicate SameDirectories(d: Disk, e: Disk) {
    && d.transactions != [] && e.transactions != []
    && e == d.(transactions := [d.transactions[0].(journal := e.transactions[0].journal, next := e.transactions[0].next)]
                               + d.transactions[1..])
  }

  lemma ResolvingMovesNothing(d: Disk)
    requires d.transactions != [] && ResolveRun(d).Ready?
    ensures var steps := ResolveRun(d).steps;
      |steps| <= 1 && SameDirectories(d, Last(d, steps)) && forall k :: 0 <= k < |steps| ==> SameDirectories(d, steps[k])
  {
    assert [d.transactions[0]] + d.transactions[1..] == d.transactions;
  }

  // Acting on a record.

  /**
   From `d` to `e` under the record `r`: the destination changes only from absent or the installed directory, to
   absent or the backup that `r` expects; a directory leaves its place only for the destination or because `r` names it.
   */
  predicate SafeMove(d: Disk, r: Journal, e: Disk)
    requires d.transactions != []
  {
    && e.transactions != []
    && var t, u := d.transactions[0], e.transactions[0];
       && e.transactions[1..] == d.transactions[1..] && e.quarantined == d.quarantined && e.staging == d.staging
       && (e.destination != d.destination ==>
             && (d.destination.None? || d.destination == r.installed)
             && (e.destination.None? || (e.destination == t.previous && t.previous == Fallback(r.previous, r.original))))
       && (t.previous.Some? ==>
             u.previous == t.previous || e.destination == t.previous || (r.state.Committed? && r.previous == t.previous))
       && (t.recoveryInstall.Some? ==> u.recoveryInstall == t.recoveryInstall || t.recoveryInstall == r.installed)
       && u.failedInstall == t.failedInstall && u.isPrivate == t.isPrivate
  }

  lemma SwappingIsSafe(d: Disk, r: Journal, k: nat)
    requires d.transactions != [] && k <= |SwapRun(d, r).steps| && d.transactions[0].previous.Some?
    requires d.destination.Some? && d.transactions[0].previous == Fallback(r.previous, r.original)
    ensures SafeMove(d, r, At(d, SwapRun(d, r).steps, k)) && !SwapRun(d, r).verdict.Quarantine?
  {
  }

  lemma ReturningIsSafe(d: Disk, r: Journal, k: nat)
    requires d.transactions != [] && k <= |ReturnRun(d, r).steps| && d.transactions[0].previous.Some?
    requires d.destination.None? && d.transactions[0].previous == Fallback(r.previous, r.original)
    ensures SafeMove(d, r, At(d, ReturnRun(d, r).steps, k)) && !ReturnRun(d, r).verdict.Quarantine?
  {
  }

  lemma RestoringIsSafe(d: Disk, r: Journal, k: nat)
    requires d.transactions != [] && k <= |RestoreRun(d, r).steps| && d.transactions[0].previous.Some?
    ensures SafeMove(d, r, At(d, RestoreRun(d, r).steps, k)) && !RestoreRun(d, r).verdict.Quarantine?
  {
    var expected := Fallback(r.previous, r.original);
    if expected.Some? && d.transactions[0].previous == expected {
      if d.destination.Some? {
        SwappingIsSafe(d, r, k);
      } else {
        ReturningIsSafe(d, r, k);
      }
    }
  }

  lemma FirstInstallIsSafe(d: Disk, r: Journal, k: nat)
    requires d.transactions != [] && k <= |FirstInstallRun(d, r).steps|
    ensures SafeMove(d, r, At(d, FirstInstallRun(d, r).steps, k)) && !FirstInstallRun(d, r).verdict.Quarantine?
  {
  }

  lemma RollbackIsSafe(d: Disk, r: Journal, k: nat)
    requires d.transactions != [] && k <= |RollbackRun(d, r).steps|
    ensures SafeMove(d, r, At(d, RollbackRun(d, r).steps, k)) && !RollbackRun(d, r).verdict.Quarantine?
  {
    if d.transactions[0].previous.Some? {
      var restore := RestoreRun(d, r);
      RestoringIsSafe(d, r, if k <= |restore.steps| then k else |restore.steps|);
    }
  }

  lemma CommitIsSafe(d: Disk, r: Journal, k: nat)
    requires d.transactions != [] && k <= |CommittedRun(d, r).steps| && !CommittedRun(d, r).verdict.Quarantine?
    requires r.state.Committed?
    ensures SafeMove(d, r, At(d, CommittedRun(d, r).steps, k))
  {
  }

  lemma SettlingIsSafe(d: Disk, r: Journal, k: nat)
    requires d.transactions != [] && k <= |SettleRun(d, r).steps| && !SettleRun(d, r).verdict.Quarantine?
    ensures SafeMove(d, r, At(d, SettleRun(d, r).steps, k))
  {
    match r.state
    case PreviousSaved | InstallPending | Installed =>
      if d.transactions[0].previous.Some? {
        RestoringIsSafe(d, r, k);
      }
    case InstallPendingNoPrevious | InstalledNoPrevious | RollbackPendingNoPrevious => FirstInstallIsSafe(d, r, k);
    case RollbackPending | RolledBack => RollbackIsSafe(d, r, k);
    case Committed => CommitIsSafe(d, r, k);
    case Prepared | NoPrevious =>
  }

  /** Nothing is left in `previous`, and nothing set aside unless recovery did not look for it. */
  predicate Clean(d: Disk, s: TransactionState, e: Disk)
    requires d.transactions != []
  {
    && e.transactions != []
    && e.transactions[0].previous.None?
    && e.transactions[0].recoveryInstall == if Incurious(s) then d.transactions[0].recoveryInstall else None
  }

  lemma RestoredIsClean(d: Disk, r: Journal)
    requires d.transactions != [] && d.transactions[0].previous.Some? && !Incurious(r.state)
    requires RestoreRun(d, r).verdict.Recovered?
    ensures Clean(d, r.state, Last(d, RestoreRun(d, r).steps))
  {
  }

  lemma RolledBackIsClean(d: Disk, r: Journal)
    requires d.transactions != [] && !Incurious(r.state) && RollbackRun(d, r).verdict.Recovered?
    ensures Clean(d, r.state, Last(d, RollbackRun(d, r).steps))
  {
    if d.transactions[0].previous.Some? {
      RestoredIsClean(d, r);
    }
  }

  lemma FirstInstallIsClean(d: Disk, r: Journal)
    requires d.transactions != [] && !Incurious(r.state) && FirstInstallRun(d, r).verdict.Recovered?
    ensures Clean(d, r.state, Last(d, FirstInstallRun(d, r).steps))
  {
  }

  lemma CommittedIsClean(d: Disk, r: Journal)
    requires d.transactions != [] && !Incurious(r.state) && CommittedRun(d, r).verdict.Recovered?
    ensures Clean(d, r.state, Last(d, CommittedRun(d, r).steps))
  {
  }

  /** A settling that ends well has dealt with the backup, and with what was set aside unless it did not look. */
  lemma SettledIsClean(d: Disk, r: Journal)
    requires d.transactions != [] && SettleRun(d, r).verdict.Recovered?
    ensures Clean(d, r.state, Last(d, SettleRun(d, r).steps))
  {
    match r.state
    case PreviousSaved | InstallPending | Installed => RestoredIsClean(d, r);
    case InstallPendingNoPrevious | InstalledNoPrevious | RollbackPendingNoPrevious => FirstInstallIsClean(d, r);
    case RollbackPending | RolledBack => RolledBackIsClean(d, r);
    case Committed => CommittedIsClean(d, r);
    case Prepared | NoPrevious =>
  }

  // Every instant of a recovery of any disk.

  /** The record recovery acts on, if there is one. */
  function Acted(d: Disk): Option<Journal>
    requires d.transactions != []
  {
    if ResolveRun(d).Ready? then Some(ResolveRun(d).record) else None
  }

  // When recovery completes, and with what.

  /** The identity a backup must have: the one saved with it, or the original's where none was saved. */
  predicate IsExpectedBackup(t: Transaction, r: Journal) {
    t.previous.Some? && (t.previous == r.previous || (r.previous.None? && t.previous == r.original))
  }

  /** An installation may be in the way, at the destination or set aside, only if the record names it. */
  predicate OnlyTheInstalled(d: Disk, t: Transaction, r: Journal) {
    && (d.destination.None? || d.destination == r.installed)
    && (t.recoveryInstall.None? || t.recoveryInstall == r.installed)
  }

  /** The directories on which recovery from `r` completes. */
  predicate Settleable(d: Disk, t: Transaction, r: Journal) {
    match r.state
    case Prepared =>
      if t.previous.Some? then IsExpectedBackup(t, r) && d.destination.None?
      else r.original.None? || d.destination == r.original
    case NoPrevious => t.previous.None? && d.destination == r.original
    case PreviousSaved | InstallPending | Installed => IsExpectedBackup(t, r) && OnlyTheInstalled(d, t, r)
    case InstallPendingNoPrevious | InstalledNoPrevious | RollbackPendingNoPrevious =>
      t.previous.None? && OnlyTheInstalled(d, t, r)
    case RollbackPending | RolledBack =>
      if t.previous.Some? then IsExpectedBackup(t, r) && OnlyTheInstalled(d, t, r)
      else
        && r.original.Some? && d.destination == r.original
        && (t.recoveryInstall.None? || t.recoveryInstall == r.installed)
    case Committed =>
      && d.destination.Some? && OnlyTheInstalled(d, t, r)
      && (t.previous.None? || t.previous == r.previous)
  }

  /** Where it completes: a commit keeps its installation, anything else gets the backup back or loses its installation. */
  function SettledDestination(d: Disk, t: Transaction, r: Journal): Option<DirectoryId> {
    if r.state.Committed? then d.destination
    else if t.previous.Some? then t.previous
    else if r.state in {InstallPendingNoPrevious, InstalledNoPrevious, RollbackPendingNoPrevious} then None
    else d.destination
  }

  /** `run` ends well exactly if `holds`; once the transaction is removed, only the destination is then different. */
  predicate EndsAt(d: Disk, run: Run, holds: bool, destination: Option<DirectoryId>)
    requires d.transactions != []
  {
    && (run.verdict.Recovered? <==> holds)
    && (holds ==>
          var e := Last(d, run.steps);
          && e.transactions != [] && RemoveTransaction(e) == RemoveTransaction(d).(destination := destination))
  }

  lemma SwapEnds(d: Disk, r: Journal)
    requires d.transactions != [] && d.destination.Some? && d.transactions[0].previous.Some?
    ensures EndsAt(d, SwapRun(d, r), OnlyTheInstalled(d, d.transactions[0], r), d.transactions[0].previous)
    ensures SwapRun(d, r).verdict.Recovered? ==> Last(d, SwapRun(d, r).steps).transactions[0].recoveryInstall.None?
  {
  }

  lemma ReturnEnds(d: Disk, r: Journal)
    requires d.transactions != [] && d.destination.None? && d.transactions[0].previous.Some?
    ensures EndsAt(d, ReturnRun(d, r), OnlyTheInstalled(d, d.transactions[0], r), d.transactions[0].previous)
    ensures ReturnRun(d, r).verdict.Recovered? ==> Last(d, ReturnRun(d, r).steps).transactions[0].recoveryInstall.None?
  {
  }

  lemma RestoreEnds(d: Disk, r: Journal)
    requires d.transactions != [] && d.transactions[0].previous.Some?
    ensures var t := d.transactions[0];
      EndsAt(d, RestoreRun(d, r), IsExpectedBackup(t, r) && OnlyTheInstalled(d, t, r), t.previous)
    ensures RestoreRun(d, r).verdict.Recovered? ==> Last(d, RestoreRun(d, r).steps).transactions[0].recoveryInstall.None?
  {
    if d.destination.Some? {
      SwapEnds(d, r);
    } else {
      ReturnEnds(d, r);
    }
  }

  lemma FirstInstallEnds(d: Disk, r: Journal)
    requires d.transactions != []
    ensures var t := d.transactions[0];
      EndsAt(d, FirstInstallRun(d, r), t.previous.None? && OnlyTheInstalled(d, t, r), None)
  {
  }

  lemma RollbackEnds(d: Disk, r: Journal)
    requires d.transactions != [] && (r.state.RollbackPending? || r.state.RolledBack?)
    ensures var t := d.transactions[0]; EndsAt(d, RollbackRun(d, r), Settleable(d, t, r), SettledDestination(d, t, r))
  {
    if d.transactions[0].previous.Some? {
      RestoreEnds(d, r);
    }
  }

  lemma CommitEnds(d: Disk, r: Journal)
    requires d.transactions != [] && r.state.Committed?
    ensures var t := d.transactions[0]; EndsAt(d, CommittedRun(d, r), Settleable(d, t, r), d.destination)
  {
  }

  lemma SettlesExactly(d: Disk, r: Journal)
    requires d.transactions != []
    ensures var t := d.transactions[0]; EndsAt(d, SettleRun(d, r), Settleable(d, t, r), SettledDestination(d, t, r))
  {
    match r.state
    case PreviousSaved | InstallPending | Installed =>
      if d.transactions[0].previous.Some? {
        RestoreEnds(d, r);
      }
    case InstallPendingNoPrevious | InstalledNoPrevious | RollbackPendingNoPrevious => FirstInstallEnds(d, r);
    case RollbackPending | RolledBack => RollbackEnds(d, r);
    case Committed => CommitEnds(d, r);
    case Prepared | NoPrevious =>
  }

  /** A transaction without any record, and with nothing in it, is cleared away. */
  predicate Disposable(t: Transaction) {
    t.journal.Absent? && !t.next.Irregular? && ReadJournal(t.next).None? && !HasPayload(t)
  }

  /**
   Recovery of any disk completes exactly for a disposable transaction, or one whose record fits the directories;
   then the transaction is gone, the destination is the one the record calls for, and nothing else is different.
   */
  lemma RecoveredExactly(d: Disk)
    requires d.transactions != []
    ensures var t := d.transactions[0];
      RecoveryRun(d).verdict.Recovered? <==>
        || Disposable(t)
        || (Acted(d).Some? && !(t.isPrivate && HasPayload(t)) && Settleable(d, t, Acted(d).value))
    ensures RecoveryRun(d).verdict.Recovered? ==>
      var t := d.transactions[0];
      var settled := if Acted(d).Some? then SettledDestination(d, t, Acted(d).value) else d.destination;
      Last(d, RecoveryRun(d).steps) == d.(destination := settled, transactions := d.transactions[1..])
  {
    if ResolveRun(d).Ready? {
      ResolvingMovesNothing(d);
      var Ready(steps, r) := ResolveRun(d);
      SettlesExactly(Last(d, steps), r);
    }
  }

  /** The transaction is there with its directories, or was set aside with them. */
  ghost predicate Intact(d: Disk, e: Disk)
    requires d.transactions != []
  {
    || SameDirectories(d, e)
    || (exists m :: SameDirectories(d, m) && e == QuarantineTransaction(m))
  }

  /** Directories have been moved as the record allows, and in the end the transaction has perhaps been removed. */
  ghost predicate Handled(d: Disk, r: Journal, verdict: Verdict, e: Disk)
    requires d.transactions != []
  {
    exists m ::
      && SafeMove(d, r, m)
      && (e == m || (Clean(d, r.state, m) && verdict.Recovered? && e == RemoveTransaction(m)))
  }

  ghost predicate Allowed(d: Disk, r: Journal, verdict: Verdict, e: Disk)
    requires d.transactions != []
  {
    Intact(d, e) || Handled(d, r, verdict, e)
  }

  /** Every instant of every recovery: intact, handled as a record allows, or removed because it held nothing. */
  lemma EveryInstant(d: Disk, k: nat)
    requires d.transactions != [] && k <= |RecoveryRun(d).steps|
    ensures var e := At(d, RecoveryRun(d).steps, k);
      || Intact(d, e)
      || (Acted(d).Some? && Handled(d, Acted(d).value, RecoveryRun(d).verdict, e))
      || (!HasPayload(d.transactions[0]) && e == RemoveTransaction(d))
  {
    if ResolveRun(d).Ready? {
      ReadyInstant(d, k);
    } else {
      SettledInstant(d, k);
    }
  }

  lemma SettledInstant(d: Disk, k: nat)
    requires d.transactions != [] && ResolveRun(d).Settled? && k <= |RecoveryRun(d).steps|
    ensures var e := At(d, RecoveryRun(d).steps, k);
      Intact(d, e) || (!HasPayload(d.transactions[0]) && e == RemoveTransaction(d))
  {
    assert [d.transactions[0]] + d.transactions[1..] == d.transactions;
    assert SameDirectories(d, d);
    assert SameDirectories(d, DiscardNext(d));
  }

  lemma SafeFrom(d: Disk, m: Disk, r: Journal, e: Disk)
    requires SameDirectories(d, m) && SafeMove(m, r, e)
    ensures SafeMove(d, r, e)
  {
  }

  lemma CleanFrom(d: Disk, m: Disk, s: TransactionState, e: Disk)
    requires SameDirectories(d, m) && Clean(m, s, e)
    ensures Clean(d, s, e)
  {
  }

  /** A run whose every instant is a safe move, followed by the removal of what it has cleaned. */
  lemma RemovalInstant(d: Disk, m: Disk, r: Journal, settle: Run, k: nat)
    requires d.transactions != [] && m.transactions != []
    requires forall i :: 0 <= i <= |settle.steps| ==> SafeMove(d, r, At(m, settle.steps, i))
    requires settle.verdict.Recovered? ==> Clean(d, r.state, Last(m, settle.steps))
    requires k <= |ThenRemoveTransaction(m, settle).steps|
    ensures Allowed(d, r, settle.verdict, At(m, ThenRemoveTransaction(m, settle).steps, k))
  {
    if k <= |settle.steps| {
      assert SafeMove(d, r, At(m, settle.steps, k));
      assert At(m, ThenRemoveTransaction(m, settle).steps, k) == At(m, settle.steps, k);
    } else {
      assert SafeMove(d, r, Last(m, settle.steps));
    }
  }

  lemma SettlingInstant(d: Disk, m: Disk, r: Journal, k: nat)
    requires SameDirectories(d, m) && !SettleRun(m, r).verdict.Quarantine?
    requires k <= |ThenRemoveTransaction(m, SettleRun(m, r)).steps|
    ensures Allowed(d, r, SettleRun(m, r).verdict, At(m, ThenRemoveTransaction(m, SettleRun(m, r)).steps, k))
  {
    var settle := SettleRun(m, r);
    forall i | 0 <= i <= |settle.steps|
      ensures SafeMove(d, r, At(m, settle.steps, i))
    {
      SettlingIsSafe(m, r, i);
      SafeFrom(d, m, r, At(m, settle.steps, i));
    }
    if settle.verdict.Recovered? {
      SettledIsClean(m, r);
      CleanFrom(d, m, r.state, Last(m, settle.steps));
    }
    RemovalInstant(d, m, r, settle, k);
  }

  lemma QuarantineInstant(d: Disk, m: Disk, r: Journal, k: nat)
    requires SameDirectories(d, m) && FinishRun(m, r) == Quarantined(m) && k <= 1
    ensures Allowed(d, r, Quarantine, At(m, FinishRun(m, r).steps, k))
  {
    assert At(m, FinishRun(m, r).steps, k) == m || At(m, FinishRun(m, r).steps, k) == QuarantineTransaction(m);
  }

  /** One instant of settling and removing, after the control files have been settled. */
  lemma FinishingInstant(d: Disk, m: Disk, r: Journal, k: nat)
    requires SameDirectories(d, m) && k <= |FinishRun(m, r).steps|
    ensures Allowed(d, r, FinishRun(m, r).verdict, At(m, FinishRun(m, r).steps, k))
  {
    var t := m.transactions[0];
    if t.isPrivate && HasPayload(t) {
      QuarantineInstant(d, m, r, k);
    } else if SettleRun(m, r).verdict.Quarantine? {
      SettlingQuarantines(m, r);
      QuarantineInstant(d, m, r, k);
    } else {
      SettlingInstant(d, m, r, k);
    }
  }

  /** Two parts of a run, each allowed at every instant. */
  lemma AllowedInTwoParts(d: Disk, steps: seq<Disk>, r: Journal, run: Run, k: nat)
    requires d.transactions != [] && SameDirectories(d, d) && k <= |steps| + |run.steps|
    requires forall i :: 0 <= i < |steps| ==> SameDirectories(d, steps[i])
    requires forall i :: 0 <= i <= |run.steps| ==> Allowed(d, r, run.verdict, At(Last(d, steps), run.steps, i))
    ensures Allowed(d, r, run.verdict, At(d, Prepend(steps, run).steps, k))
  {
    if k >= |steps| {
      SecondPart(d, steps, run, k);
    }
  }

  lemma PartsOfTheRun(d: Disk) returns (steps: seq<Disk>, r: Journal, m: Disk)
    requires d.transactions != [] && ResolveRun(d).Ready?
    ensures Acted(d) == Some(r) && m == Last(d, steps) && SameDirectories(d, d) && SameDirectories(d, m)
    ensures RecoveryRun(d) == Prepend(steps, FinishRun(m, r))
    ensures forall k :: 0 <= k < |steps| ==> SameDirectories(d, steps[k])
  {
    steps, r := ResolveRun(d).steps, ResolveRun(d).record;
    m := Last(d, steps);
    ResolvingMovesNothing(d);
    assert [d.transactions[0]] + d.transactions[1..] == d.transactions;
  }

  lemma SecondPart(d: Disk, steps: seq<Disk>, run: Run, k: nat)
    requires |steps| <= k <= |steps| + |run.steps|
    ensures At(d, Prepend(steps, run).steps, k) == At(Last(d, steps), run.steps, k - |steps|)
  {
  }

  lemma ReadyInstant(d: Disk, k: nat)
    requires d.transactions != [] && ResolveRun(d).Ready? && k <= |RecoveryRun(d).steps|
    ensures Allowed(d, ResolveRun(d).record, RecoveryRun(d).verdict, At(d, RecoveryRun(d).steps, k))
  {
    var steps, r, m := PartsOfTheRun(d);
    var run := FinishRun(m, r);
    forall i | 0 <= i <= |run.steps|
      ensures Allowed(d, r, run.verdict, At(m, run.steps, i))
    {
      FinishingInstant(d, m, r, i);
    }
    AllowedInTwoParts(d, steps, r, run, k);
  }

  // What follows for the directories.

  /** The destination changes only from absent or the installed directory, to absent or the backup the record expects. */
  lemma DestinationIsGuarded(d: Disk, k: nat)
    requires d.transactions != [] && k <= |RecoveryRun(d).steps|
    ensures var e, r := At(d, RecoveryRun(d).steps, k), Acted(d);
      e.destination != d.destination ==>
        && r.Some? && (d.destination.None? || d.destination == r.value.installed)
        && (e.destination.None?
            || (e.destination == d.transactions[0].previous && e.destination == Fallback(r.value.previous, r.value.original)))
  {
    EveryInstant(d, k);
  }

  lemma FirstPayloadIsKept(e: Disk, x: DirectoryId)
    requires e.transactions != [] && InPayload(e.transactions[0], x)
    ensures Kept(e, x)
  {
  }

  lemma IntactKeeps(d: Disk, e: Disk, x: DirectoryId)
    requires d.transactions != [] && Intact(d, e) && InPayload(d.transactions[0], x)
    ensures Kept(e, x)
  {
    if !SameDirectories(d, e) {
      assert e.quarantined[|e.quarantined| - 1] in e.quarantined && InPayload(e.quarantined[|e.quarantined| - 1], x);
    }
  }

  /** The backup disappears only under a Committed record that names it; otherwise it is where it was or at the destination. */
  lemma BackupIsGuarded(d: Disk, k: nat, x: DirectoryId)
    requires d.transactions != [] && k <= |RecoveryRun(d).steps| && d.transactions[0].previous == Some(x)
    ensures Kept(At(d, RecoveryRun(d).steps, k), x)
      || (Acted(d).Some? && Acted(d).value.state.Committed? && Acted(d).value.previous == Some(x))
  {
    EveryInstant(d, k);
    var e := At(d, RecoveryRun(d).steps, k);
    if Intact(d, e) {
      IntactKeeps(d, e, x);
    } else {
      var r := Acted(d).value;
      var m :| SafeMove(d, r, m)
        && (e == m || (Clean(d, r.state, m) && RecoveryRun(d).verdict.Recovered? && e == RemoveTransaction(m)));
      if m.transactions[0].previous == Some(x) {
        assert e == m;
        FirstPayloadIsKept(m, x);
      }
    }
  }

  /** What was set aside disappears only if the record names it, or the record's state does not look for it. */
  lemma SetAsideIsGuarded(d: Disk, k: nat, x: DirectoryId)
    requires d.transactions != [] && k <= |RecoveryRun(d).steps| && d.transactions[0].recoveryInstall == Some(x)
    ensures Kept(At(d, RecoveryRun(d).steps, k), x)
      || (Acted(d).Some?
          && (Acted(d).value.installed == Some(x) || (Incurious(Acted(d).value.state) && RecoveryRun(d).verdict.Recovered?)))
  {
    EveryInstant(d, k);
    var e := At(d, RecoveryRun(d).steps, k);
    if Intact(d, e) {
      IntactKeeps(d, e, x);
    } else {
      var r := Acted(d).value;
      var m :| SafeMove(d, r, m)
        && (e == m || (Clean(d, r.state, m) && RecoveryRun(d).verdict.Recovered? && e == RemoveTransaction(m)));
      if m.transactions[0].recoveryInstall == Some(x) && e == m {
        FirstPayloadIsKept(m, x);
      }
    }
  }

  /** A failed installation disappears only with its transaction, at the end of a recovery that succeeds. */
  lemma FailedInstallIsGuarded(d: Disk, k: nat, x: DirectoryId)
    requires d.transactions != [] && k <= |RecoveryRun(d).steps| && d.transactions[0].failedInstall == Some(x)
    ensures Kept(At(d, RecoveryRun(d).steps, k), x) || (Acted(d).Some? && RecoveryRun(d).verdict.Recovered?)
  {
    EveryInstant(d, k);
    var e := At(d, RecoveryRun(d).steps, k);
    if Intact(d, e) {
      IntactKeeps(d, e, x);
    } else {
      var r := Acted(d).value;
      var m :| SafeMove(d, r, m)
        && (e == m || (Clean(d, r.state, m) && RecoveryRun(d).verdict.Recovered? && e == RemoveTransaction(m)));
      if e == m {
        FirstPayloadIsKept(m, x);
      }
    }
  }

  // Which payloads a recovery can destroy without having been told their names.

  lemma RemovedAtTheEnd(d: Disk) returns (m: Disk)
    requires d.transactions != [] && ResolveRun(d).Ready? && RecoveryRun(d).verdict.Recovered?
    ensures SafeMove(d, ResolveRun(d).record, m) && Last(d, RecoveryRun(d).steps) == RemoveTransaction(m)
  {
    var steps, r, start := PartsOfTheRun(d);
    var run := FinishRun(start, r);
    var settle := SettleRun(start, r);
    assert run == ThenRemoveTransaction(start, settle);
    m := Last(start, settle.steps);
    SettlingIsSafe(start, r, |settle.steps|);
    SafeFrom(d, start, r, m);
    SecondPart(d, steps, run, |steps| + |run.steps|);
  }

  /** The directory is only in the first transaction. */
  predicate OnlyThere(d: Disk, x: DirectoryId) {
    && d.transactions != [] && InPayload(d.transactions[0], x) && d.destination != Some(x)
    && (forall i :: 0 < i < |d.transactions| ==> !InPayload(d.transactions[i], x))
    && (forall i :: 0 <= i < |d.quarantined| ==> !InPayload(d.quarantined[i], x))
  }

  lemma GoneWithItsTransaction(d: Disk, r: Journal, m: Disk, x: DirectoryId)
    requires OnlyThere(d, x) && SafeMove(d, r, m) && !Names(r, x)
    ensures !Kept(RemoveTransaction(m), x)
  {
    var e := RemoveTransaction(m);
    assert e.transactions == d.transactions[1..];
    forall i | 0 <= i < |e.transactions|
      ensures !InPayload(e.transactions[i], x)
    {
      assert e.transactions[i] == d.transactions[i + 1];
    }
  }

  /**
   Not every payload that disappears was named by the record. The exact condition: a directory that lies only in the
   transaction, and that the record acted on does not name, is gone after recovery if and only if recovery succeeded and
   the directory was the failed installation, or was set aside under a record in state Prepared or NoPrevious.
   */
  lemma UnnamedPayloadIsLostIff(d: Disk, x: DirectoryId)
    requires OnlyThere(d, x) && (Acted(d).Some? ==> !Names(Acted(d).value, x))
    ensures var t := d.transactions[0];
      !Kept(Last(d, RecoveryRun(d).steps), x) <==>
        && Acted(d).Some? && RecoveryRun(d).verdict.Recovered?
        && (t.failedInstall == Some(x) || (t.recoveryInstall == Some(x) && Incurious(Acted(d).value.state)))
  {
    var t, k := d.transactions[0], |RecoveryRun(d).steps|;
    if t.failedInstall == Some(x) {
      FailedInstallIsGuarded(d, k, x);
    } else if t.recoveryInstall == Some(x) {
      SetAsideIsGuarded(d, k, x);
    } else {
      BackupIsGuarded(d, k, x);
    }
    if Acted(d).Some? && RecoveryRun(d).verdict.Recovered? {
      var m := RemovedAtTheEnd(d);
      GoneWithItsTransaction(d, Acted(d).value, m, x);
    }
  }

  /** A Prepared record of directory 1, beside which somebody set directory 9 aside. */
  const STRAY_SET_ASIDE := Disk(
    Some(1), None,
    [Transaction(7, false, Written(Journal(7, Some(1), Prepared, None, None, 1)), Absent, None, Some(9), None)],
    [])

  /** Recovery reports success and directory 9, which the record does not name, is gone. */
  lemma StrayDirectoryIsDestroyed()
    ensures RecoveryRun(STRAY_SET_ASIDE).verdict.Recovered?
    ensures !Names(STRAY_SET_ASIDE.transactions[0].journal.record, 9)
    ensures Kept(STRAY_SET_ASIDE, 9) && !Kept(Last(STRAY_SET_ASIDE, RecoveryRun(STRAY_SET_ASIDE).steps), 9)
  {
    var d := STRAY_SET_ASIDE;
    assert InPayload(d.transactions[0], 9);
    assert ResolveRun(d) == Ready([], d.transactions[0].journal.record);
    UnnamedPayloadIsLostIff(d, 9);
  }
}
