/**
 The durable vocabulary of a distribution commit: what a crash leaves on disk,
 and the exact list of durable steps that one uninterrupted recovery performs
 from any disk, well formed or not.
 */
module DistributionModel {
  import opened Options

  /** Identity of a directory; it follows the directory through renames. */
  type DirectoryId = nat

  datatype TransactionState =
    | Prepared
    | NoPrevious
    | PreviousSaved
    | InstallPending
    | InstallPendingNoPrevious
    | Installed
    | InstalledNoPrevious
    | RollbackPending
    | RollbackPendingNoPrevious
    | RolledBack
    | Committed

  /** `owner` stands for the provenance fields: transaction id and identity, parent, destination name. */
  datatype Journal = Journal(
    owner: nat,
    original: Option<DirectoryId>,
    state: TransactionState,
    previous: Option<DirectoryId>,
    installed: Option<DirectoryId>,
    sequence: nat)

  /** A control file. `Torn` is any regular file that fails to decode or whose checksum mismatches. */
  datatype JournalFile = Absent | Irregular | Torn | Written(record: Journal)

  datatype Transaction = Transaction(
    identity: nat,
    isPrivate: bool,
    journal: JournalFile,
    next: JournalFile,
    previous: Option<DirectoryId>,
    recoveryInstall: Option<DirectoryId>,
    failedInstall: Option<DirectoryId>)

  /** The parent directory: transactions appear in listing order. */
  datatype Disk = Disk(
    destination: Option<DirectoryId>,
    staging: Option<DirectoryId>,
    transactions: seq<Transaction>,
    quarantined: seq<Transaction>)

  datatype Verdict = Recovered | Refused | Quarantine

  /** The durable states after each step, oldest first, and how the run ends if nothing interrupts it. */
  datatype Run = Run(steps: seq<Disk>, verdict: Verdict)

  /** Result of settling `journal` against `journal.next`. */
  datatype Resolution = Ready(steps: seq<Disk>, record: Journal) | Settled(run: Run)

  function Fallback<T>(first: Option<T>, second: Option<T>): Option<T> {
    if first.Some? then first else second
  }

  /** A record with sequence zero was never committed and does not count as readable. */
  function ReadJournal(file: JournalFile): Option<Journal> {
    if file.Written? && file.record.sequence > 0 then Some(file.record) else None
  }

  predicate HasPayload(t: Transaction) {
    t.previous.Some? || t.recoveryInstall.Some? || t.failedInstall.Some?
  }

  // Durable steps on the first listed transaction.

  function WithFirst(d: Disk, t: Transaction): Disk
    requires d.transactions != []
  {
    d.(transactions := [t] + d.transactions[1..])
  }

  function PromoteNext(d: Disk): Disk
    requires d.transactions != []
  {
    var t := d.transactions[0];
    WithFirst(d, t.(journal := t.next, next := Absent))
  }

  function DiscardNext(d: Disk): Disk
    requires d.transactions != []
  {
    WithFirst(d, d.transactions[0].(next := Absent))
  }

  function RemoveTransaction(d: Disk): Disk
    requires d.transactions != []
  {
    d.(transactions := d.transactions[1..])
  }

  function QuarantineTransaction(d: Disk): Disk
    requires d.transactions != []
  {
    d.(transactions := d.transactions[1..], quarantined := d.quarantined + [d.transactions[0]])
  }

  function RestorePrevious(d: Disk): Disk
    requires d.transactions != []
  {
    var t := d.transactions[0];
    WithFirst(d, t.(previous := None)).(destination := t.previous)
  }

  function SetInstalledAside(d: Disk): Disk
    requires d.transactions != []
  {
    WithFirst(d, d.transactions[0].(recoveryInstall := d.destination)).(destination := None)
  }

  function RemoveRecoveryInstall(d: Disk): Disk
    requires d.transactions != []
  {
    WithFirst(d, d.transactions[0].(recoveryInstall := None))
  }

  function RemovePrevious(d: Disk): Disk
    requires d.transactions != []
  {
    WithFirst(d, d.transactions[0].(previous := None))
  }

  /** The disk after `stage` of the three durable parts of writing a record: create, complete, replace. */
  function WriteStage(d: Disk, r: Journal, stage: nat): Disk
    requires d.transactions != []
  {
    var t := d.transactions[0];
    WithFirst(d, if stage == 0 then t
                 else if stage == 1 then t.(next := Torn)
                 else if stage == 2 then t.(next := Written(r))
                 else t.(journal := Written(r), next := Absent))
  }

  // The runs of the recovery functions.

  function Quarantined(d: Disk): Run
    requires d.transactions != []
  {
    Run([QuarantineTransaction(d)], Quarantine)
  }

  /** Settles the two journal files of the first transaction into one record. */
  function ResolveRun(d: Disk): Resolution
    requires d.transactions != []
  {
    var t := d.transactions[0];
    var journal := ReadJournal(t.journal);
    var next := ReadJournal(t.next);
    if !t.journal.Absent? then
      if journal.None? then Settled(Quarantined(d))
      else if journal.value.owner != t.identity then Settled(Run([], Refused))
      else if t.next.Absent? then Ready([], journal.value)
      else if t.next.Irregular? then Settled(Quarantined(d))
      else if next.Some? && next.value.sequence > journal.value.sequence then
        if next.value.owner != t.identity then Settled(Run([], Refused))
        else Ready([PromoteNext(d)], next.value)
      else Ready([DiscardNext(d)], journal.value)
    else if t.next.Absent? then
      Settled(if HasPayload(t) then Quarantined(d) else Run([RemoveTransaction(d)], Recovered))
    else if t.next.Irregular? then Settled(Quarantined(d))
    else if next.None? then
      Settled(if HasPayload(t) then Quarantined(d)
              else Run([DiscardNext(d), RemoveTransaction(DiscardNext(d))], Recovered))
    else if next.value.owner != t.identity then Settled(Run([], Refused))
    else Ready([PromoteNext(d)], next.value)
  }

  /** The installation is present: move it aside, move `previous` back, then delete it. */
  function SwapRun(d: Disk, r: Journal): Run
    requires d.transactions != []
  {
    var aside := d.transactions[0].recoveryInstall;
    if r.installed != d.destination || (aside.Some? && aside != r.installed) then Run([], Refused)
    else
      var d1 := RemoveRecoveryInstall(d);
      var d2 := SetInstalledAside(d1);
      var d3 := RestorePrevious(d2);
      var d4 := RemoveRecoveryInstall(d3);
      Run(if aside.Some? then [d1, d2, d3, d4] else [d2, d3, d4], Recovered)
  }

  /** The destination is vacant: move `previous` back, then delete an installation set aside earlier. */
  function ReturnRun(d: Disk, r: Journal): Run
    requires d.transactions != []
  {
    var aside := d.transactions[0].recoveryInstall;
    var d1 := RestorePrevious(d);
    if aside.Some? && aside != r.installed then Run([], Refused)
    else Run(if aside.Some? then [d1, RemoveRecoveryInstall(d1)] else [d1], Recovered)
  }

  function RestoreRun(d: Disk, r: Journal): Run
    requires d.transactions != []
  {
    var expected := Fallback(r.previous, r.original);
    if expected.None? || d.transactions[0].previous != expected then Run([], Refused)
    else if d.destination.Some? then SwapRun(d, r)
    else ReturnRun(d, r)
  }

  function RemoveRecoveryRun(d: Disk, r: Journal): Run
    requires d.transactions != []
  {
    var aside := d.transactions[0].recoveryInstall;
    if aside.None? then Run([], Recovered)
    else if aside != r.installed then Run([], Refused)
    else Run([RemoveRecoveryInstall(d)], Recovered)
  }

  function RemoveInstalledRun(d: Disk, r: Journal): Run {
    if d.destination.None? then Run([], Recovered)
    else if r.installed != d.destination then Run([], Refused)
    else Run([d.(destination := None)], Recovered)
  }

  /** The disk after the first `k` steps of a run from `d`. */
  function At(d: Disk, steps: seq<Disk>, k: nat): Disk
    requires k <= |steps|
  {
    if k == 0 then d else steps[k - 1]
  }

  function Last(d: Disk, steps: seq<Disk>): Disk {
    At(d, steps, |steps|)
  }

  function Prepend(steps: seq<Disk>, run: Run): Run {
    Run(steps + run.steps, run.verdict)
  }

  function ThenRemoveRecovery(d: Disk, first: Run, r: Journal): Run
    requires d.transactions != []
    requires Last(d, first.steps).transactions != []
  {
    if first.verdict.Recovered?
    then Prepend(first.steps, RemoveRecoveryRun(Last(d, first.steps), r))
    else first
  }

  function PreparedRun(d: Disk, r: Journal): Run
    requires d.transactions != []
  {
    if d.transactions[0].previous.Some? then
      if Fallback(r.previous, r.original) != d.transactions[0].previous || d.destination.Some? then Run([], Refused)
      else Run([RestorePrevious(d)], Recovered)
    else if r.original.Some? && d.destination != r.original then Run([], Refused)
    else Run([], Recovered)
  }

  function FirstInstallRun(d: Disk, r: Journal): Run
    requires d.transactions != []
  {
    if d.transactions[0].previous.Some? then Run([], Refused)
    else ThenRemoveRecovery(d, RemoveInstalledRun(d, r), r)
  }

  function RollbackRun(d: Disk, r: Journal): Run
    requires d.transactions != []
  {
    if d.transactions[0].previous.Some? then
      var restore := RestoreRun(d, r);
      if r.state.RolledBack? then ThenRemoveRecovery(d, restore, r) else restore
    else if r.original.None? || d.destination != r.original then Run([], Refused)
    else RemoveRecoveryRun(d, r)
  }

  function CommittedRun(d: Disk, r: Journal): Run
    requires d.transactions != []
  {
    var previous := d.transactions[0].previous;
    if r.installed.None? then Run([], Refused)
    else if d.destination.None? then Quarantined(d)
    else if d.destination != r.installed then Run([], Refused)
    else if previous.None? then RemoveRecoveryRun(d, r)
    else if previous != r.previous then Run([], Refused)
    else ThenRemoveRecovery(d, Run([RemovePrevious(d)], Recovered), r)
  }

  /** The step list for each journal state, up to but excluding removal of the transaction. */
  function SettleRun(d: Disk, r: Journal): (run: Run)
    requires d.transactions != []
    ensures run.verdict.Recovered? ==> Last(d, run.steps).transactions != []
  {
    match r.state
    case Prepared => PreparedRun(d, r)
    case NoPrevious =>
      if d.transactions[0].previous.Some? || d.destination != r.original then Run([], Refused)
      else Run([], Recovered)
    case PreviousSaved | InstallPending | Installed =>
      if d.transactions[0].previous.Some? then RestoreRun(d, r) else Run([], Refused)
    case InstallPendingNoPrevious | InstalledNoPrevious | RollbackPendingNoPrevious => FirstInstallRun(d, r)
    case RollbackPending | RolledBack => RollbackRun(d, r)
    case Committed => CommittedRun(d, r)
  }

  function ThenRemoveTransaction(d: Disk, run: Run): Run
    requires d.transactions != []
    requires run.verdict.Recovered? ==> Last(d, run.steps).transactions != []
  {
    if run.verdict.Recovered?
    then Run(run.steps + [RemoveTransaction(Last(d, run.steps))], Recovered)
    else run
  }

  /** What recovery does once a single record is left. */
  function FinishRun(d: Disk, r: Journal): Run
    requires d.transactions != []
  {
    var t := d.transactions[0];
    if t.isPrivate && HasPayload(t) then Quarantined(d)
    else ThenRemoveTransaction(d, SettleRun(d, r))
  }

  /** One whole recovery of the first listed transaction. */
  function RecoveryRun(d: Disk): Run
    requires d.transactions != []
  {
    match ResolveRun(d)
    case Settled(run) => run
    case Ready(steps, record) => Prepend(steps, FinishRun(Last(d, steps), record))
  }
}
