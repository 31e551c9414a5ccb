/**
 A two-generation read domain with its two retirement queues, as an interleaving
 of any number of readers and retiring writers with the holder of the transition
 lock. Each atomic load or store, stripe update and lock is one step. An unlock is
 fused with the last access made under the lock: of a queue lock in `Recheck`,
 `Append` and `Take`, of the transition lock in `GiveUp`. Nobody else can reach
 what the lock protects in between, and `current` is loaded before the unlock.
 Waiting for a generation is one step that is enabled once the generation is
 sealed and idle; `GatedReadDomain` replaces it by a wait on a real gate.
 */
module RotatingReadDomain {
  import opened Options

  type Record = nat

  /** A reader first finds the domain open, then remembers the generation it selected until its admission succeeds or is refused. */
  datatype Reader =
    | Away
    | Calling
    | Polled
    | Chosen(generation: nat)
    | Inside(generation: nat, held: set<Record>)

  /** A writer owns a record from the moment it withdraws it from publication until it is queued. */
  datatype Writer =
    | Resting
    | Withdrawn(record: Record)
    | Picked(record: Record, generation: nat)
    | Locked(record: Record, generation: nat)
    | Confirmed(record: Record, generation: nat)

  datatype QueueLock = Free | ByWriter(writer: nat) | ByRotation

  /** Where the holder of the transition lock is; `retiring` is the generation to be drained. */
  datatype Rotation =
    | Unheld
    | Entered
    | Barrier(retiring: nat)
    | Sealing(retiring: nat, next: nat)
    | IdleSealing(retiring: nat, next: nat)
    | Undoing(retiring: nat, next: nat, end: nat)
    | Sealed(retiring: nat)
    | Publishing(retiring: nat)
    | Published(retiring: nat, next: nat)
    | Waiting(retiring: nat)
    | Drained(retiring: nat)
    | Taking(retiring: nat)
    | Taken(retiring: nat)
    | Closing(generation: nat, next: nat)
    | Closed

  datatype Domain = Domain(
    current: nat,
    closed: bool,
    open: seq<seq<bool>>,
    pending: Option<nat>,
    rotation: Rotation,
    terminal: bool,
    queues: seq<seq<Record>>,
    locks: seq<QueueLock>,
    readers: map<nat, Reader>,
    writers: map<nat, Writer>,
    linked: set<Record>,
    used: set<Record>,
    registered: set<Record>,
    delivered: seq<Record>)

  function ReaderOf(s: Domain, r: nat): Reader {
    if r in s.readers then s.readers[r] else Away
  }

  function WriterOf(s: Domain, w: nat): Writer {
    if w in s.writers then s.writers[w] else Resting
  }

  function Other(g: nat): nat
    requires g < 2
  {
    1 - g
  }

  /** Two generations of equally many stripes, two queues. */
  predicate Sized(s: Domain) {
    && s.current < 2
    && |s.open| == 2 && |s.open[0]| == |s.open[1]|
    && |s.queues| == 2 && |s.locks| == 2
  }

  predicate SealedBelow(stripes: seq<bool>, k: nat) {
    forall i :: 0 <= i < k && i < |stripes| ==> !stripes[i]
  }

  predicate FullySealed(stripes: seq<bool>) {
    SealedBelow(stripes, |stripes|)
  }

  predicate Idle(readers: map<nat, Reader>, g: nat) {
    forall r :: r in readers && readers[r].Inside? ==> readers[r].generation != g
  }

  function SetReader(s: Domain, r: nat, x: Reader): Domain {
    s.(readers := s.readers[r := x])
  }

  function SetWriter(s: Domain, w: nat, x: Writer): Domain {
    s.(writers := s.writers[w := x])
  }

  function SetStripe(s: Domain, g: nat, i: nat, admits: bool): Domain
    requires Sized(s) && g < 2 && i < |s.open[g]|
  {
    s.(open := s.open[g := s.open[g][i := admits]])
  }

  function SetLock(s: Domain, g: nat, lock: QueueLock): Domain
    requires Sized(s) && g < 2
  {
    s.(locks := s.locks[g := lock])
  }

  // Readers.

  predicate Call(s: Domain, r: nat, s': Domain) {
    ReaderOf(s, r).Away? && s' == SetReader(s, r, Calling)
  }

  /** Finds the domain not closed. */
  predicate Poll(s: Domain, r: nat, s': Domain) {
    ReaderOf(s, r).Calling? && !s.closed && s' == SetReader(s, r, Polled)
  }

  /** Finds it closed: the call returns that. */
  predicate ReturnClosed(s: Domain, r: nat, s': Domain) {
    ReaderOf(s, r).Calling? && s.closed && s' == SetReader(s, r, Away)
  }

  predicate Select(s: Domain, r: nat, s': Domain) {
    && ReaderOf(s, r).Polled?
    && s' == SetReader(s, r, Chosen(s.current))
  }

  predicate Admit(s: Domain, r: nat, i: nat, s': Domain)
    requires Sized(s)
  {
    && ReaderOf(s, r).Chosen? && ReaderOf(s, r).generation < 2
    && var g := ReaderOf(s, r).generation;
       && i < |s.open[g]| && s.open[g][i]
       && s' == SetReader(s, r, Inside(g, {}))
  }

  /** An admission refused by a sealed stripe starts over. */
  predicate Refuse(s: Domain, r: nat, i: nat, s': Domain)
    requires Sized(s)
  {
    && ReaderOf(s, r).Chosen? && ReaderOf(s, r).generation < 2
    && i < |s.open[ReaderOf(s, r).generation]| && !s.open[ReaderOf(s, r).generation][i]
    && s' == SetReader(s, r, Calling)
  }

  predicate Access(s: Domain, r: nat, x: Record, s': Domain) {
    && ReaderOf(s, r).Inside? && x in s.linked
    && s' == SetReader(s, r, ReaderOf(s, r).(held := ReaderOf(s, r).held + {x}))
  }

  predicate Exit(s: Domain, r: nat, s': Domain) {
    && ReaderOf(s, r).Inside?
    && s' == SetReader(s, r, Away)
  }

  ghost predicate ReaderStep(s: Domain, r: nat, s': Domain)
    requires Sized(s)
  {
    || Call(s, r, s') || Poll(s, r, s') || ReturnClosed(s, r, s') || Select(s, r, s') || Exit(s, r, s')
    || (exists i :: Admit(s, r, i, s'))
    || (exists i :: Refuse(s, r, i, s'))
    || (exists x :: Access(s, r, x, s'))
  }

  // Writers.

  predicate Link(s: Domain, x: Record, s': Domain) {
    && x !in s.used
    && s' == s.(linked := s.linked + {x}, used := s.used + {x})
  }

  predicate Withdraw(s: Domain, w: nat, x: Record, s': Domain) {
    && WriterOf(s, w).Resting? && x in s.linked
    && s' == SetWriter(s, w, Withdrawn(x)).(linked := s.linked - {x})
  }

  predicate Pick(s: Domain, w: nat, s': Domain) {
    && WriterOf(s, w).Withdrawn?
    && s' == SetWriter(s, w, Picked(WriterOf(s, w).record, s.current))
  }

  predicate LockQueue(s: Domain, w: nat, s': Domain)
    requires Sized(s)
  {
    && WriterOf(s, w).Picked? && WriterOf(s, w).generation < 2
    && var g := WriterOf(s, w).generation;
       && s.locks[g].Free?
       && s' == SetLock(SetWriter(s, w, Locked(WriterOf(s, w).record, g)), g, ByWriter(w))
  }

  /** The selection is checked again under the queue lock; a stale one starts over. */
  predicate Recheck(s: Domain, w: nat, s': Domain)
    requires Sized(s)
  {
    && WriterOf(s, w).Locked? && WriterOf(s, w).generation < 2
    && var x, g := WriterOf(s, w).record, WriterOf(s, w).generation;
       if s.current == g then s' == SetWriter(s, w, Confirmed(x, g))
       else s' == SetLock(SetWriter(s, w, Withdrawn(x)), g, Free)
  }

  predicate Append(s: Domain, w: nat, s': Domain)
    requires Sized(s)
  {
    && WriterOf(s, w).Confirmed? && WriterOf(s, w).generation < 2
    && var x, g := WriterOf(s, w).record, WriterOf(s, w).generation;
       s' == SetLock(SetWriter(s, w, Resting), g, Free)
               .(queues := s.queues[g := s.queues[g] + [x]], registered := s.registered + {x})
  }

  ghost predicate WriterStep(s: Domain, w: nat, s': Domain)
    requires Sized(s)
  {
    || (exists x :: Link(s, x, s'))
    || (exists x :: Withdraw(s, w, x, s'))
    || Pick(s, w, s') || LockQueue(s, w, s') || Recheck(s, w, s') || Append(s, w, s')
  }

  // The holder of the transition lock.

  predicate Enter(s: Domain, s': Domain) {
    s.rotation.Unheld? && !s.closed && s' == s.(rotation := Entered)
  }

  predicate Leave(s: Domain, s': Domain) {
    && (s.rotation.Entered? || s.rotation.Waiting? || s.rotation.Drained? || s.rotation.Closed?)
    && s' == s.(rotation := Unheld)
  }

  /** Resumes a pending rotation, or takes the old queue as publication barrier for a new one. */
  predicate Begin(s: Domain, s': Domain)
    requires Sized(s)
  {
    && s.rotation.Entered?
    && if s.pending.Some? then s' == s.(rotation := Waiting(s.pending.value))
       else s.locks[s.current].Free?
            && s' == SetLock(s.(rotation := Barrier(s.current)), s.current, ByRotation)
  }

  /** A nonblocking attempt gives up while it still only holds the barrier. */
  predicate GiveUp(s: Domain, s': Domain)
    requires Sized(s)
  {
    && ((s.rotation.Barrier? && s.rotation.retiring < 2)
        || (s.rotation.Undoing? && s.rotation.next == s.rotation.end && s.rotation.retiring < 2))
    && s' == SetLock(s.(rotation := Unheld), s.rotation.retiring, Free)
  }

  predicate BeginSeal(s: Domain, s': Domain) {
    && s.rotation.Barrier?
    && (s' == s.(rotation := Sealing(s.rotation.retiring, 0)) || s' == s.(rotation := IdleSealing(s.rotation.retiring, 0)))
  }

  predicate SealOne(s: Domain, s': Domain)
    requires Sized(s)
  {
    && s.rotation.Sealing? && s.rotation.retiring < 2 && s.rotation.next < |s.open[s.rotation.retiring]|
    && s' == SetStripe(s, s.rotation.retiring, s.rotation.next, false).(rotation := Sealing(s.rotation.retiring, s.rotation.next + 1))
  }

  predicate IdleSealOne(s: Domain, s': Domain)
    requires Sized(s)
  {
    && s.rotation.IdleSealing? && s.rotation.retiring < 2 && s.rotation.next < |s.open[s.rotation.retiring]|
    && (s' == SetStripe(s, s.rotation.retiring, s.rotation.next, false)
                .(rotation := IdleSealing(s.rotation.retiring, s.rotation.next + 1))
        || s' == s.(rotation := Undoing(s.rotation.retiring, 0, s.rotation.next)))
  }

  predicate UndoOne(s: Domain, s': Domain)
    requires Sized(s)
  {
    && s.rotation.Undoing? && s.rotation.retiring < 2 && s.rotation.next < s.rotation.end <= |s.open[s.rotation.retiring]|
    && s' == SetStripe(s, s.rotation.retiring, s.rotation.next, true).(rotation := Undoing(s.rotation.retiring, s.rotation.next + 1, s.rotation.end))
  }

  predicate FinishSeal(s: Domain, s': Domain)
    requires Sized(s)
  {
    && (s.rotation.Sealing? || s.rotation.IdleSealing?)
    && s.rotation.retiring < 2 && s.rotation.next == |s.open[s.rotation.retiring]|
    && s' == s.(rotation := Sealed(s.rotation.retiring))
  }

  predicate RecordPending(s: Domain, s': Domain) {
    && s.rotation.Sealed?
    && s' == s.(pending := Some(s.rotation.retiring), rotation := Publishing(s.rotation.retiring))
  }

  predicate Publish(s: Domain, s': Domain) {
    && s.rotation.Publishing? && s.rotation.retiring < 2
    && s' == s.(current := Other(s.rotation.retiring), rotation := Published(s.rotation.retiring, 0))
  }

  predicate ReopenOne(s: Domain, s': Domain)
    requires Sized(s)
  {
    && s.rotation.Published? && s.rotation.retiring < 2 && s.rotation.next < |s.open[Other(s.rotation.retiring)]|
    && s' == SetStripe(s, Other(s.rotation.retiring), s.rotation.next, true)
               .(rotation := Published(s.rotation.retiring, s.rotation.next + 1))
  }

  predicate ReleaseBarrier(s: Domain, s': Domain)
    requires Sized(s)
  {
    && s.rotation.Published? && s.rotation.retiring < 2 && s.rotation.next == |s.open[Other(s.rotation.retiring)]|
    && s' == SetLock(s.(rotation := Waiting(s.rotation.retiring)), s.rotation.retiring, Free)
  }

  /** The wait on the old generation returns. */
  predicate ObserveDrain(s: Domain, s': Domain)
    requires Sized(s)
  {
    && s.rotation.Waiting? && s.rotation.retiring < 2
    && FullySealed(s.open[s.rotation.retiring]) && Idle(s.readers, s.rotation.retiring)
    && s' == s.(rotation := Drained(s.rotation.retiring))
  }

  predicate LockToTake(s: Domain, s': Domain)
    requires Sized(s)
  {
    && s.rotation.Drained? && s.rotation.retiring < 2 && s.locks[s.rotation.retiring].Free?
    && s' == SetLock(s.(rotation := Taking(s.rotation.retiring)), s.rotation.retiring, ByRotation)
  }

  function Deliver(s: Domain, g: nat): Domain
    requires Sized(s) && g < 2
  {
    s.(queues := s.queues[g := []], delivered := s.delivered + s.queues[g])
  }

  predicate Take(s: Domain, s': Domain)
    requires Sized(s)
  {
    && s.rotation.Taking? && s.rotation.retiring < 2
    && s' == SetLock(Deliver(s, s.rotation.retiring).(rotation := Taken(s.rotation.retiring)), s.rotation.retiring, Free)
  }

  /** Clearing `pending` comes last: only then may the generation be reused. */
  predicate ClearPending(s: Domain, s': Domain) {
    && s.rotation.Taken?
    && s' == s.(pending := None, rotation := Entered)
  }

  predicate BeginClose(s: Domain, s': Domain) {
    && s.rotation.Unheld?
    && s' == s.(closed := true, rotation := Closing(0, 0))
  }

  predicate CloseOne(s: Domain, s': Domain)
    requires Sized(s)
  {
    && s.rotation.Closing? && s.rotation.generation < 2 && s.rotation.next < |s.open[s.rotation.generation]|
    && s' == SetStripe(s, s.rotation.generation, s.rotation.next, false)
               .(rotation := Closing(s.rotation.generation, s.rotation.next + 1))
  }

  predicate FinishClose(s: Domain, s': Domain)
    requires Sized(s)
  {
    && s.rotation.Closing? && s.rotation.generation < 2
    && s.rotation.next == |s.open[s.rotation.generation]|
    && Idle(s.readers, s.rotation.generation)
    && s' == (if s.rotation.generation == 0 then s.(rotation := Closing(1, 0))
              else s.(rotation := Closed, terminal := true))
  }

  /** After closure the queues may be taken without the transition lock, any number of times. */
  predicate TakeAfterClose(s: Domain, g: nat, s': Domain)
    requires Sized(s)
  {
    && s.terminal && g < 2 && s.locks[g].Free?
    && s' == Deliver(s, g)
  }

  ghost predicate RotationStep(s: Domain, s': Domain)
    requires Sized(s)
  {
    || Enter(s, s') || Leave(s, s') || Begin(s, s') || GiveUp(s, s') || BeginSeal(s, s')
    || SealOne(s, s') || IdleSealOne(s, s') || UndoOne(s, s') || FinishSeal(s, s') || RecordPending(s, s')
    || Publish(s, s') || ReopenOne(s, s') || ReleaseBarrier(s, s')
  }

  ghost predicate ReclaimStep(s: Domain, s': Domain)
    requires Sized(s)
  {
    || ObserveDrain(s, s') || LockToTake(s, s') || Take(s, s') || ClearPending(s, s')
    || BeginClose(s, s') || CloseOne(s, s') || FinishClose(s, s')
    || (exists g :: TakeAfterClose(s, g, s'))
  }

  /** One step, or none: what stands still may be moving in a gate. */
  ghost predicate Step(s: Domain, s': Domain) {
    && Sized(s)
    && (s' == s || (exists r :: ReaderStep(s, r, s')) || (exists w :: WriterStep(s, w, s'))
        || RotationStep(s, s') || ReclaimStep(s, s'))
  }
}
