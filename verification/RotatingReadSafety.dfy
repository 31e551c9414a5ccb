/**
 What every interleaving of the rotating read domain keeps: at most the current
 generation admits readers, a delivered record is held by nobody, and every
 registered record is queued or delivered exactly once.
 */
module RotatingReadSafety {
  import opened Options
  import opened RotatingReadDomain

  predicate InProgress(rotation: Rotation) {
    !rotation.Unheld? && !rotation.Entered? && !rotation.Closing? && !rotation.Closed?
  }

  /** The holder of the transition lock also holds the queue of the generation it retires. */
  predicate HasQueue(rotation: Rotation) {
    BeforePublication(rotation) || rotation.Published? || rotation.Taking?
  }

  predicate BeforePublication(rotation: Rotation) {
    || rotation.Barrier? || rotation.Sealing? || rotation.IdleSealing? || rotation.Undoing? || rotation.Sealed?
    || rotation.Publishing?
  }

  predicate AfterDrain(rotation: Rotation) {
    rotation.Drained? || rotation.Taking? || rotation.Taken?
  }

  /** The generation being retired, its stripes and the pending mark. */
  predicate Retiring(current: nat, closed: bool, open: seq<seq<bool>>, pending: Option<nat>, q: Rotation)
    requires current < 2 && |open| == 2 && InProgress(q)
  {
    && q.retiring < 2
    && !closed
    && (BeforePublication(q) <==> q.retiring == current)
    && (if BeforePublication(q) && !q.Publishing? then pending.None? else pending == Some(q.retiring))
    && (q.Sealing? || q.IdleSealing? ==>
          q.next <= |open[q.retiring]| && SealedBelow(open[q.retiring], q.next))
    && (q.Sealed? || q.Publishing? ==> FullySealed(open[q.retiring]))
    && (q.Published? ==> q.next <= |open[1 - q.retiring]|)
  }

  /** Admission: only the current generation admits, and closure is permanent. */
  predicate Phases(current: nat, closed: bool, open: seq<seq<bool>>, pending: Option<nat>, q: Rotation, terminal: bool)
    requires current < 2 && |open| == 2
  {
    && FullySealed(open[1 - current])
    && (InProgress(q) ==> Retiring(current, closed, open, pending, q))
    && (pending.Some? && !q.Publishing? ==> pending == Some(1 - current))
    && (q.Entered? ==> !closed)
    && (q.Closing? || q.Closed? || terminal ==> closed)
    && (q.Closing? ==>
          && q.generation < 2 && q.next <= |open[q.generation]|
          && SealedBelow(open[q.generation], q.next)
          && (q.generation == 1 ==> FullySealed(open[0])))
    && (terminal ==> FullySealed(open[0]) && FullySealed(open[1]))
  }

  /** Which generations are known to have no reader inside. */
  predicate Quiet(readers: map<nat, Reader>, current: nat, pending: Option<nat>, q: Rotation, terminal: bool)
    requires current < 2
  {
    && (pending.None? || q.Publishing? ==> Idle(readers, 1 - current))
    && (AfterDrain(q) ==> Idle(readers, q.retiring))
    && (q.Closing? && q.generation == 1 ==> Idle(readers, 0))
    && (terminal ==> Idle(readers, 0) && Idle(readers, 1))
  }

  /** Queue locks belong to whoever claims them; a confirmed writer pins the current generation. */
  predicate Locking(locks: seq<QueueLock>, q: Rotation, writers: map<nat, Writer>, current: nat)
    requires |locks| == 2
  {
    && (forall g :: 0 <= g < 2 ==> (locks[g].ByRotation? <==> HasQueue(q) && q.retiring == g))
    && (forall w :: w in writers && (writers[w].Picked? || writers[w].Locked? || writers[w].Confirmed?) ==>
          writers[w].generation < 2)
    && (forall w :: w in writers && (writers[w].Locked? || writers[w].Confirmed?) ==>
          locks[writers[w].generation] == ByWriter(w))
    && (forall w :: w in writers && writers[w].Confirmed? ==> writers[w].generation == current)
  }

  predicate InRange(readers: map<nat, Reader>) {
    forall r :: r in readers && (readers[r].Chosen? || readers[r].Inside?) ==> readers[r].generation < 2
  }

  /** No reader still holds a delivered record; one still queued in the noncurrent generation `g` is held only there. */
  predicate Grace(readers: map<nat, Reader>, queue: seq<Record>, g: nat, delivered: seq<Record>) {
    forall r, x :: r in readers && readers[r].Inside? && x in readers[r].held ==>
      x !in delivered && (x in queue ==> readers[r].generation == g)
  }

  /** Registered records are exactly the queued and the delivered ones, each once. */
  predicate Conserved(queues: seq<seq<Record>>, delivered: seq<Record>, registered: set<Record>)
    requires |queues| == 2
  {
    multiset(queues[0]) + multiset(queues[1]) + multiset(delivered) == multiset(registered)
  }

  /** A record is linked, or with one writer, or registered. */
  predicate Owned(linked: set<Record>, used: set<Record>, registered: set<Record>, writers: map<nat, Writer>) {
    && linked <= used && registered <= used && linked !! registered
    && (forall w :: w in writers && !writers[w].Resting? ==> writers[w].record in used - linked - registered)
    && (forall v, w :: v in writers && w in writers && v != w && !writers[v].Resting? && !writers[w].Resting? ==>
          writers[v].record != writers[w].record)
  }

  /** Admission, waits and locks. */
  predicate Orderly(s: Domain) {
    && Sized(s)
    && Phases(s.current, s.closed, s.open, s.pending, s.rotation, s.terminal)
    && Quiet(s.readers, s.current, s.pending, s.rotation, s.terminal)
    && Locking(s.locks, s.rotation, s.writers, s.current)
    && InRange(s.readers)
  }

  /** Where the records are, and who may hold them. */
  predicate Accounted(s: Domain) {
    && Sized(s)
    && Grace(s.readers, s.queues[1 - s.current], 1 - s.current, s.delivered)
    && Conserved(s.queues, s.delivered, s.registered)
    && Owned(s.linked, s.used, s.registered, s.writers)
  }

  predicate Inv(s: Domain) {
    Orderly(s) && Accounted(s)
  }

  /** The step moves no record. */
  predicate SameRecords(s: Domain, s': Domain) {
    && s'.readers == s.readers && s'.writers == s.writers && s'.current == s.current
    && s'.queues == s.queues && s'.delivered == s.delivered && s'.registered == s.registered
    && s'.linked == s.linked && s'.used == s.used
  }

  lemma SameRecordsStayAccounted(s: Domain, s': Domain)
    requires Accounted(s) && SameRecords(s, s') && Sized(s')
    ensures Accounted(s')
  {
  }

  lemma RegisteredPlaces(s: Domain, x: Record)
    requires Sized(s) && Conserved(s.queues, s.delivered, s.registered)
    ensures x in s.queues[0] || x in s.queues[1] || x in s.delivered <==> x in s.registered
  {
    var all := multiset(s.queues[0]) + multiset(s.queues[1]) + multiset(s.delivered);
    assert x in all <==> x in multiset(s.registered);
  }

  // Readers.

  /** An open stripe belongs to the current generation, and to none that is known to be quiet. */
  lemma AdmittingKeepsQuiet(s: Domain, r: nat, i: nat, s': Domain)
    requires Inv(s) && Admit(s, r, i, s')
    ensures Quiet(s'.readers, s'.current, s'.pending, s'.rotation, s'.terminal)
  {
    var g := ReaderOf(s, r).generation;
    assert !FullySealed(s.open[g]) by {
      assert s.open[g][i];
    }
    assert g == s.current;
  }

  lemma AdmitKeepsInv(s: Domain, r: nat, i: nat, s': Domain)
    requires Inv(s) && Admit(s, r, i, s')
    ensures Inv(s')
  {
    AdmittingKeepsQuiet(s, r, i, s');
  }

  /** A linked record is neither queued nor delivered, so taking hold of it threatens nothing. */
  lemma AccessKeepsInv(s: Domain, r: nat, x: Record, s': Domain)
    requires Inv(s) && Access(s, r, x, s')
    ensures Inv(s')
  {
    RegisteredPlaces(s, x);
    assert x !in s.registered;
    var y := s.readers[r];
    assert forall z :: z in s'.readers[r].held ==> z == x || z in y.held;
    assert Grace(s'.readers, s'.queues[1 - s'.current], 1 - s'.current, s'.delivered);
  }

  /** A reader that is not inside afterwards spoils no idleness and no grace. */
  lemma OutsideReader(readers: map<nat, Reader>, r: nat, x: Reader, queue: seq<Record>, g: nat, delivered: seq<Record>)
    requires !x.Inside? && Grace(readers, queue, g, delivered)
    ensures Grace(readers[r := x], queue, g, delivered)
    ensures forall h :: Idle(readers, h) ==> Idle(readers[r := x], h)
  {
  }

  lemma LeavingKeepsInv(s: Domain, r: nat, s': Domain)
    requires Inv(s)
    requires || Call(s, r, s') || Poll(s, r, s') || ReturnClosed(s, r, s') || Select(s, r, s') || Exit(s, r, s')
             || (exists i :: Refuse(s, r, i, s'))
    ensures Inv(s')
  {
    OutsideReader(s.readers, r, s'.readers[r], s.queues[1 - s.current], 1 - s.current, s.delivered);
  }

  lemma ReaderStepKeepsInv(s: Domain, r: nat, s': Domain)
    requires Inv(s) && ReaderStep(s, r, s')
    ensures Inv(s')
  {
    if i :| Admit(s, r, i, s') {
      AdmitKeepsInv(s, r, i, s');
    } else if x :| Access(s, r, x, s') {
      AccessKeepsInv(s, r, x, s');
    } else {
      LeavingKeepsInv(s, r, s');
    }
  }

  // Writers.

  lemma LinkKeepsInv(s: Domain, x: Record, s': Domain)
    requires Inv(s) && Link(s, x, s')
    ensures Inv(s')
  {
    assert Owned(s'.linked, s'.used, s'.registered, s'.writers);
  }

  lemma WithdrawKeepsInv(s: Domain, w: nat, x: Record, s': Domain)
    requires Inv(s) && Withdraw(s, w, x, s')
    ensures Inv(s')
  {
    assert Owned(s'.linked, s'.used, s'.registered, s'.writers);
    assert Locking(s'.locks, s'.rotation, s'.writers, s'.current);
  }

  /** A writer that goes on with the same record. */
  lemma HandingOnKeepsOwned(linked: set<Record>, used: set<Record>, registered: set<Record>, writers: map<nat, Writer>,
                            w: nat, x: Writer)
    requires Owned(linked, used, registered, writers) && w in writers && !writers[w].Resting?
    requires !x.Resting? && x.record == writers[w].record
    ensures Owned(linked, used, registered, writers[w := x])
  {
  }

  lemma PickKeepsInv(s: Domain, w: nat, s': Domain)
    requires Inv(s) && Pick(s, w, s')
    ensures Inv(s')
  {
    HandingOnKeepsOwned(s.linked, s.used, s.registered, s.writers, w, s'.writers[w]);
    assert Locking(s'.locks, s'.rotation, s'.writers, s'.current);
  }

  lemma LockQueueKeepsInv(s: Domain, w: nat, s': Domain)
    requires Inv(s) && LockQueue(s, w, s')
    ensures Inv(s')
  {
    HandingOnKeepsOwned(s.linked, s.used, s.registered, s.writers, w, s'.writers[w]);
    assert Locking(s'.locks, s'.rotation, s'.writers, s'.current);
  }

  lemma RecheckKeepsLocking(s: Domain, w: nat, s': Domain)
    requires Sized(s) && Locking(s.locks, s.rotation, s.writers, s.current) && Recheck(s, w, s')
    ensures Locking(s'.locks, s'.rotation, s'.writers, s'.current)
  {
    assert s.locks[s.writers[w].generation] == ByWriter(w);
  }

  lemma RecheckKeepsInv(s: Domain, w: nat, s': Domain)
    requires Inv(s) && Recheck(s, w, s')
    ensures Inv(s')
  {
    RecheckKeepsLocking(s, w, s');
    HandingOnKeepsOwned(s.linked, s.used, s.registered, s.writers, w, s'.writers[w]);
  }

  lemma AppendKeepsLocking(s: Domain, w: nat, s': Domain)
    requires Sized(s) && Locking(s.locks, s.rotation, s.writers, s.current) && Append(s, w, s')
    ensures |s'.locks| == 2 && Locking(s'.locks, s'.rotation, s'.writers, s'.current)
    ensures WriterOf(s, w).generation == s.current
  {
  }

  /** The queue lock pins the selection, so a record only ever enters the current generation's queue. */
  lemma AppendStaysAccounted(s: Domain, w: nat, s': Domain)
    requires Accounted(s) && Append(s, w, s') && WriterOf(s, w).generation == s.current
    ensures Accounted(s')
  {
    var x := WriterOf(s, w).record;
    assert multiset(s'.queues[s.current]) == multiset(s.queues[s.current]) + multiset{x};
    assert multiset(s'.registered) == multiset(s.registered) + multiset{x};
    assert Owned(s'.linked, s'.used, s'.registered, s'.writers);
  }

  lemma AppendKeepsInv(s: Domain, w: nat, s': Domain)
    requires Inv(s) && Append(s, w, s')
    ensures Inv(s')
  {
    AppendKeepsLocking(s, w, s');
    AppendStaysAccounted(s, w, s');
  }

  lemma WriterStepKeepsInv(s: Domain, w: nat, s': Domain)
    requires Inv(s) && WriterStep(s, w, s')
    ensures Inv(s')
  {
    if x :| Link(s, x, s') {
      LinkKeepsInv(s, x, s');
    } else if x :| Withdraw(s, w, x, s') {
      WithdrawKeepsInv(s, w, x, s');
    } else if Pick(s, w, s') {
      PickKeepsInv(s, w, s');
    } else if LockQueue(s, w, s') {
      LockQueueKeepsInv(s, w, s');
    } else if Recheck(s, w, s') {
      RecheckKeepsInv(s, w, s');
    } else {
      AppendKeepsInv(s, w, s');
    }
  }

  // The holder of the transition lock.

  lemma SealOneStaysOrderly(s: Domain, s': Domain)
    requires Orderly(s) && SealOne(s, s')
    ensures Orderly(s') && SameRecords(s, s')
  {
  }

  lemma IdleSealOneStaysOrderly(s: Domain, s': Domain)
    requires Orderly(s) && IdleSealOne(s, s')
    ensures Orderly(s') && SameRecords(s, s')
  {
  }

  lemma SealedStaysOrderly(s: Domain, s': Domain)
    requires Orderly(s) && (FinishSeal(s, s') || RecordPending(s, s'))
    ensures Orderly(s') && SameRecords(s, s')
  {
  }

  lemma UndoOneStaysOrderly(s: Domain, s': Domain)
    requires Orderly(s) && UndoOne(s, s')
    ensures Orderly(s') && SameRecords(s, s')
  {
  }

  lemma GiveUpStaysOrderly(s: Domain, s': Domain)
    requires Orderly(s) && GiveUp(s, s')
    ensures Orderly(s') && SameRecords(s, s')
  {
    assert Phases(s'.current, s'.closed, s'.open, s'.pending, s'.rotation, s'.terminal);
    assert Locking(s'.locks, s'.rotation, s'.writers, s'.current);
  }

  lemma BeginSealStaysOrderly(s: Domain, s': Domain)
    requires Orderly(s) && BeginSeal(s, s')
    ensures Orderly(s') && SameRecords(s, s')
  {
    assert Phases(s'.current, s'.closed, s'.open, s'.pending, s'.rotation, s'.terminal);
  }

  lemma EnterStaysOrderly(s: Domain, s': Domain)
    requires Orderly(s) && (Enter(s, s') || Leave(s, s'))
    ensures Orderly(s') && SameRecords(s, s')
  {
    assert Phases(s'.current, s'.closed, s'.open, s'.pending, s'.rotation, s'.terminal);
  }

  lemma BeginKeepsLocking(s: Domain, s': Domain)
    requires Sized(s) && Begin(s, s') && Locking(s.locks, s.rotation, s.writers, s.current)
    ensures Locking(s'.locks, s'.rotation, s'.writers, s'.current)
  {
  }

  lemma BeginStaysOrderly(s: Domain, s': Domain)
    requires Orderly(s) && Begin(s, s')
    ensures Orderly(s') && SameRecords(s, s')
  {
    BeginKeepsLocking(s, s');
    assert Phases(s'.current, s'.closed, s'.open, s'.pending, s'.rotation, s'.terminal);
  }

  /**
   The next generation has no reader when it is published, so whoever still holds a
   record queued under the retired generation is inside that generation.
   */
  lemma PublishKeepsInv(s: Domain, s': Domain)
    requires Inv(s) && Publish(s, s')
    ensures Inv(s')
  {
    var g := s.rotation.retiring;
    assert Idle(s.readers, 1 - g);
    assert Grace(s'.readers, s'.queues[g], g, s'.delivered);
    assert s.locks[g].ByRotation?;
    assert Locking(s'.locks, s'.rotation, s'.writers, s'.current);
  }

  lemma ReopeningStaysOrderly(s: Domain, s': Domain)
    requires Orderly(s) && (ReopenOne(s, s') || ReleaseBarrier(s, s'))
    ensures Orderly(s') && SameRecords(s, s')
  {
  }

  lemma RotationStaysOrderly(s: Domain, s': Domain)
    requires Orderly(s) && RotationStep(s, s') && !Publish(s, s')
    ensures Orderly(s') && SameRecords(s, s')
  {
    if ReopenOne(s, s') || ReleaseBarrier(s, s') {
      ReopeningStaysOrderly(s, s');
    } else if Enter(s, s') || Leave(s, s') {
      EnterStaysOrderly(s, s');
    } else if Begin(s, s') {
      BeginStaysOrderly(s, s');
    } else if UndoOne(s, s') {
      UndoOneStaysOrderly(s, s');
    } else if GiveUp(s, s') {
      GiveUpStaysOrderly(s, s');
    } else if BeginSeal(s, s') {
      BeginSealStaysOrderly(s, s');
    } else if SealOne(s, s') {
      SealOneStaysOrderly(s, s');
    } else if IdleSealOne(s, s') {
      IdleSealOneStaysOrderly(s, s');
    } else {
      SealedStaysOrderly(s, s');
    }
  }

  lemma RotationStepKeepsInv(s: Domain, s': Domain)
    requires Inv(s) && RotationStep(s, s')
    ensures Inv(s')
  {
    if Publish(s, s') {
      PublishKeepsInv(s, s');
    } else {
      RotationStaysOrderly(s, s');
      SameRecordsStayAccounted(s, s');
    }
  }

  // Reclamation and closure.

  /** Delivering a queue is safe once its generation has no reader. */
  lemma DeliveryKeepsInv(s: Domain, g: nat)
    requires Inv(s) && g < 2 && Idle(s.readers, g)
    requires g == 1 - s.current || Idle(s.readers, 1 - s.current)
    ensures var t := Deliver(s, g);
            && Grace(t.readers, t.queues[1 - t.current], 1 - t.current, t.delivered)
            && Conserved(t.queues, t.delivered, t.registered)
  {
    var t := Deliver(s, g);
    assert t.queues[g] == [] && t.queues[1 - g] == s.queues[1 - g];
    assert multiset(t.delivered) == multiset(s.delivered) + multiset(s.queues[g]);
  }

  lemma TakeKeepsInv(s: Domain, s': Domain)
    requires Inv(s) && Take(s, s')
    ensures Inv(s')
  {
    DeliveryKeepsInv(s, s.rotation.retiring);
    assert Locking(s'.locks, s'.rotation, s'.writers, s'.current);
  }

  lemma TakeAfterCloseKeepsInv(s: Domain, g: nat, s': Domain)
    requires Inv(s) && TakeAfterClose(s, g, s')
    ensures Inv(s')
  {
    DeliveryKeepsInv(s, g);
  }

  lemma ClosingKeepsPhases(s: Domain, s': Domain)
    requires Sized(s) && Phases(s.current, s.closed, s.open, s.pending, s.rotation, s.terminal)
    requires BeginClose(s, s') || CloseOne(s, s') || FinishClose(s, s')
    ensures Sized(s') && Phases(s'.current, s'.closed, s'.open, s'.pending, s'.rotation, s'.terminal)
  {
  }

  lemma ClosingKeepsQuiet(s: Domain, s': Domain)
    requires Sized(s) && Quiet(s.readers, s.current, s.pending, s.rotation, s.terminal)
    requires BeginClose(s, s') || CloseOne(s, s') || FinishClose(s, s')
    ensures s'.current < 2 && Quiet(s'.readers, s'.current, s'.pending, s'.rotation, s'.terminal)
  {
    ClosingTouchesNoQueue(s, s');
    if FinishClose(s, s') {
      assert Idle(s'.readers, s.rotation.generation);
    }
  }

  lemma ClosingTouchesNoQueue(s: Domain, s': Domain)
    requires Sized(s) && (BeginClose(s, s') || CloseOne(s, s') || FinishClose(s, s'))
    ensures SameRecords(s, s') && s'.locks == s.locks && !HasQueue(s.rotation) && !HasQueue(s'.rotation)
  {
  }

  lemma WithoutQueuesLockingStays(locks: seq<QueueLock>, q: Rotation, q': Rotation, writers: map<nat, Writer>, current: nat)
    requires |locks| == 2 && Locking(locks, q, writers, current) && !HasQueue(q) && !HasQueue(q')
    ensures Locking(locks, q', writers, current)
  {
  }

  lemma ClosingStaysOrderly(s: Domain, s': Domain)
    requires Orderly(s) && (BeginClose(s, s') || CloseOne(s, s') || FinishClose(s, s'))
    ensures Orderly(s') && SameRecords(s, s')
  {
    ClosingKeepsPhases(s, s');
    ClosingKeepsQuiet(s, s');
    ClosingTouchesNoQueue(s, s');
    WithoutQueuesLockingStays(s.locks, s.rotation, s'.rotation, s.writers, s.current);
  }

  lemma ObserveDrainStaysOrderly(s: Domain, s': Domain)
    requires Orderly(s) && (ObserveDrain(s, s') || LockToTake(s, s'))
    ensures Orderly(s') && SameRecords(s, s')
  {
    assert Locking(s'.locks, s'.rotation, s'.writers, s'.current);
  }

  lemma ClearPendingStaysOrderly(s: Domain, s': Domain)
    requires Orderly(s) && ClearPending(s, s')
    ensures Orderly(s') && SameRecords(s, s')
  {
  }

  lemma ReclaimStaysOrderly(s: Domain, s': Domain)
    requires Orderly(s) && ReclaimStep(s, s') && !Take(s, s') && !(exists g :: TakeAfterClose(s, g, s'))
    ensures Orderly(s') && SameRecords(s, s')
  {
    if BeginClose(s, s') || CloseOne(s, s') || FinishClose(s, s') {
      ClosingStaysOrderly(s, s');
    } else if ClearPending(s, s') {
      ClearPendingStaysOrderly(s, s');
    } else {
      ObserveDrainStaysOrderly(s, s');
    }
  }

  lemma ReclaimStepKeepsInv(s: Domain, s': Domain)
    requires Inv(s) && ReclaimStep(s, s')
    ensures Inv(s')
  {
    if g :| TakeAfterClose(s, g, s') {
      TakeAfterCloseKeepsInv(s, g, s');
    } else if Take(s, s') {
      TakeKeepsInv(s, s');
    } else {
      ReclaimStaysOrderly(s, s');
      SameRecordsStayAccounted(s, s');
    }
  }

  // Whole runs.

  lemma StepKeepsInv(s: Domain, s': Domain)
    requires Inv(s) && Step(s, s')
    ensures Inv(s')
  {
    if r :| ReaderStep(s, r, s') {
      ReaderStepKeepsInv(s, r, s');
    } else if w :| WriterStep(s, w, s') {
      WriterStepKeepsInv(s, w, s');
    } else if RotationStep(s, s') {
      RotationStepKeepsInv(s, s');
    } else if ReclaimStep(s, s') {
      ReclaimStepKeepsInv(s, s');
    }
  }

  predicate OpenExcept(stripes: seq<bool>, from: nat, to: nat) {
    forall i :: 0 <= i < |stripes| && !(from <= i < to) ==> stripes[i]
  }

  predicate Init(s: Domain) {
    && Sized(s) && s.current == 0 && !s.closed && !s.terminal
    && OpenExcept(s.open[0], 0, 0) && FullySealed(s.open[1])
    && s.pending.None? && s.rotation.Unheld?
    && s.queues == [[], []] && s.locks == [Free, Free]
    && s.readers == map[] && s.writers == map[]
    && s.linked == {} && s.used == {} && s.registered == {} && s.delivered == []
  }

  ghost predicate StepsTo(run: seq<Domain>, n: nat)
    requires 0 < n < |run|
  {
    Step(run[n - 1], run[n])
  }

  ghost predicate IsRun(run: seq<Domain>) {
    && run != [] && Init(run[0])
    && (forall n: nat :: 0 < n < |run| ==> StepsTo(run, n))
  }

  lemma InitKeepsInv(s: Domain)
    requires Init(s)
    ensures Inv(s)
  {
  }

  lemma StepOfRunKeepsInv(run: seq<Domain>, n: nat)
    requires IsRun(run) && 0 < n < |run| && Inv(run[n - 1])
    ensures Inv(run[n])
  {
    assert Step(run[n - 1], run[n]) by {
      assert StepsTo(run, n);
    }
    StepKeepsInv(run[n - 1], run[n]);
  }

  lemma {:induction false} RunsKeepInv(run: seq<Domain>, n: nat)
    requires IsRun(run) && n < |run|
    ensures Inv(run[n])
  {
    if n == 0 {
      InitKeepsInv(run[0]);
    } else {
      RunsKeepInv(run, n - 1);
      StepOfRunKeepsInv(run, n);
    }
  }

  /**
   Safe reclamation: whatever the interleaving, a record that was taken from a queue is held by no admitted
   reader, and none can reach it again.
   */
  lemma SafeReclamation(run: seq<Domain>, n: nat, x: Record)
    requires IsRun(run) && n < |run| && x in run[n].delivered
    ensures forall r :: r in run[n].readers && run[n].readers[r].Inside? ==> x !in run[n].readers[r].held
    ensures x !in run[n].linked && x in run[n].used
  {
    RunsKeepInv(run, n);
    RegisteredPlaces(run[n], x);
  }

  /** A stripe that admits belongs to the published generation, so a reader whose selection is stale is refused. */
  lemma OnlyTheCurrentGenerationAdmits(run: seq<Domain>, n: nat, g: nat, i: nat)
    requires IsRun(run) && n < |run|
    ensures Sized(run[n])
    ensures g < 2 && i < |run[n].open[g]| && run[n].open[g][i] ==> g == run[n].current && !run[n].terminal
    ensures forall r, s' :: Admit(run[n], r, i, s') ==> run[n].readers[r].generation == run[n].current
  {
    RunsKeepInv(run, n);
    var s := run[n];
    assert FullySealed(s.open[1 - s.current]);
    if g < 2 && i < |s.open[g]| && s.open[g][i] {
      assert !FullySealed(s.open[g]);
    }
    forall r, s' | Admit(s, r, i, s')
      ensures s.readers[r].generation == s.current
    {
      assert !FullySealed(s.open[s.readers[r].generation]) by {
        assert s.open[s.readers[r].generation][i];
      }
    }
  }

  function Count(queue: seq<Record>, x: Record): nat {
    multiset(queue)[x]
  }

  /** Every registered record is in exactly one queue or was delivered in exactly one batch; no other record is anywhere. */
  lemma RegisteredExactlyOnce(run: seq<Domain>, n: nat, x: Record)
    requires IsRun(run) && n < |run|
    ensures |run[n].queues| == 2
    ensures Count(run[n].queues[0], x) + Count(run[n].queues[1], x) + Count(run[n].delivered, x)
         == if x in run[n].registered then 1 else 0
  {
    RunsKeepInv(run, n);
    var s := run[n];
    var all := multiset(s.queues[0]) + multiset(s.queues[1]) + multiset(s.delivered);
    assert all[x] == multiset(s.registered)[x];
  }

  /**
   The replacement generation is sealed and idle whenever a rotation is about to reuse it, and the retired one is
   sealed and idle while its queue is taken.
   */
  lemma GenerationsAreDrainedWhenUsed(run: seq<Domain>, n: nat)
    requires IsRun(run) && n < |run|
    ensures Sized(run[n])
    ensures var s := run[n];
      && (BeforePublication(s.rotation) ==>
            var g := s.rotation.retiring;
            g < 2 && g == s.current && FullySealed(s.open[1 - g]) && Idle(s.readers, 1 - g))
      && (AfterDrain(s.rotation) ==>
            var g := s.rotation.retiring;
            g < 2 && g != s.current && FullySealed(s.open[g]) && Idle(s.readers, g))
      && (s.terminal ==> forall g :: 0 <= g < 2 ==> FullySealed(s.open[g]) && Idle(s.readers, g))
  {
    RunsKeepInv(run, n);
  }

  // Closure.

  predicate NothingReopened(a: seq<seq<bool>>, b: seq<seq<bool>>) {
    && |a| == |b|
    && (forall g :: 0 <= g < |a| ==> |a[g]| == |b[g]|)
    && (forall g, i :: 0 <= g < |a| && 0 <= i < |a[g]| && i < |b[g]| && b[g][i] ==> a[g][i])
  }

  lemma StillNothingReopened(a: seq<seq<bool>>, b: seq<seq<bool>>, c: seq<seq<bool>>)
    requires NothingReopened(a, b) && NothingReopened(b, c)
    ensures NothingReopened(a, c)
  {
  }

  /** Readers and writers leave the gates and the transition alone. */
  predicate SameAdmission(s: Domain, s': Domain) {
    && s'.open == s.open && s'.current == s.current && s'.closed == s.closed && s'.terminal == s.terminal
    && s'.rotation == s.rotation && Sized(s')
  }

  lemma MovingAReaderLeavesAdmission(s: Domain, r: nat, x: Reader)
    requires Sized(s)
    ensures SameAdmission(s, SetReader(s, r, x))
  {
  }

  lemma ReadersMove(s: Domain, r: nat, s': Domain)
    requires Sized(s) && ReaderStep(s, r, s')
    ensures r in s'.readers && s' == SetReader(s, r, s'.readers[r])
  {
  }

  lemma ReadersLeaveAdmission(s: Domain, r: nat, s': Domain)
    requires Sized(s) && ReaderStep(s, r, s')
    ensures SameAdmission(s, s')
  {
    ReadersMove(s, r, s');
    MovingAReaderLeavesAdmission(s, r, s'.readers[r]);
  }

  lemma QueueingLeavesAdmission(s: Domain, w: nat, s': Domain)
    requires Sized(s) && (LockQueue(s, w, s') || Recheck(s, w, s') || Append(s, w, s'))
    ensures SameAdmission(s, s')
  {
  }

  lemma LinkingLeavesAdmission(s: Domain, x: Record, s': Domain)
    requires Sized(s) && Link(s, x, s')
    ensures SameAdmission(s, s')
  {
  }

  lemma WithdrawingLeavesAdmission(s: Domain, w: nat, x: Record, s': Domain)
    requires Sized(s) && Withdraw(s, w, x, s')
    ensures SameAdmission(s, s')
  {
  }

  lemma WritersLeaveAdmission(s: Domain, w: nat, s': Domain)
    requires Sized(s) && WriterStep(s, w, s')
    ensures SameAdmission(s, s')
  {
    if x :| Link(s, x, s') {
      LinkingLeavesAdmission(s, x, s');
    } else if x :| Withdraw(s, w, x, s') {
      WithdrawingLeavesAdmission(s, w, x, s');
    } else if !Pick(s, w, s') {
      QueueingLeavesAdmission(s, w, s');
    }
  }

  lemma WhoChangesAdmission(s: Domain, s': Domain)
    requires Step(s, s')
    ensures SameAdmission(s, s') || RotationStep(s, s') || ReclaimStep(s, s')
  {
    if r :| ReaderStep(s, r, s') {
      ReadersLeaveAdmission(s, r, s');
    } else if w :| WriterStep(s, w, s') {
      WritersLeaveAdmission(s, w, s');
    }
  }

  lemma RotatingNeedsAnOpenDomain(s: Domain, s': Domain)
    requires Inv(s) && RotationStep(s, s') && s.closed
    ensures SameAdmission(s, s'.(rotation := s.rotation))
  {
    assert !InProgress(s.rotation);
    assert !s.rotation.Entered?;
    assert Leave(s, s');
  }

  lemma ReclaimingReopensNothing(s: Domain, s': Domain)
    requires Inv(s) && ReclaimStep(s, s') && s.closed
    ensures s'.closed && (s.terminal ==> s'.terminal) && NothingReopened(s.open, s'.open)
  {
    if CloseOne(s, s') {
      assert NothingReopened(s.open, s'.open);
    } else {
      assert s'.open == s.open;
    }
  }

  lemma ClosedStepReopensNothing(s: Domain, s': Domain)
    requires Inv(s) && Step(s, s') && s.closed
    ensures s'.closed && (s.terminal ==> s'.terminal) && NothingReopened(s.open, s'.open)
  {
    WhoChangesAdmission(s, s');
    if RotationStep(s, s') {
      RotatingNeedsAnOpenDomain(s, s');
    } else if ReclaimStep(s, s') {
      ReclaimingReopensNothing(s, s');
    }
  }

  lemma ClosedStepOfRun(run: seq<Domain>, n: nat)
    requires IsRun(run) && 0 < n < |run| && run[n - 1].closed
    ensures run[n].closed && (run[n - 1].terminal ==> run[n].terminal)
    ensures NothingReopened(run[n - 1].open, run[n].open)
  {
    var s, s' := run[n - 1], run[n];
    assert Inv(s) by {
      RunsKeepInv(run, n - 1);
    }
    assert Step(s, s') by {
      assert StepsTo(run, n);
    }
    ClosedStepReopensNothing(s, s');
  }

  lemma {:induction false} ClosedNeverReopens(run: seq<Domain>, n: nat, m: nat)
    requires IsRun(run) && n <= m < |run| && run[n].closed
    ensures run[m].closed && (run[n].terminal ==> run[m].terminal)
    ensures NothingReopened(run[n].open, run[m].open)
  {
    if n < m {
      ClosedNeverReopens(run, n, m - 1);
      ClosedStepOfRun(run, m);
      StillNothingReopened(run[n].open, run[m - 1].open, run[m].open);
    }
  }

  // Availability.

  /** How much of the current generation admits, given where the rotation is. */
  predicate Admitting(current: nat, closed: bool, open: seq<seq<bool>>, q: Rotation)
    requires current < 2 && |open| == 2
  {
    !closed ==>
      match q
      case Sealing(_, next) => OpenExcept(open[current], 0, next)
      case IdleSealing(_, next) => OpenExcept(open[current], 0, next)
      case Undoing(_, next, end) => OpenExcept(open[current], next, end)
      case Sealed(_) => true
      case Publishing(_) => true
      case Published(_, next) => OpenExcept(open[current], next, |open[current]|)
      case _ => OpenExcept(open[current], 0, 0)
  }

  ghost predicate Available(s: Domain) {
    Sized(s) && Admitting(s.current, s.closed, s.open, s.rotation)
  }

  predicate Phased(s: Domain) {
    Sized(s) && Phases(s.current, s.closed, s.open, s.pending, s.rotation, s.terminal)
  }

  lemma SealingKeepsAvailable(s: Domain, s': Domain)
    requires Available(s) && Phased(s)
    requires BeginSeal(s, s') || SealOne(s, s') || IdleSealOne(s, s') || FinishSeal(s, s') || RecordPending(s, s')
    ensures Available(s')
  {
  }

  lemma UndoingKeepsAvailable(s: Domain, s': Domain)
    requires Available(s) && Phased(s) && (UndoOne(s, s') || GiveUp(s, s'))
    ensures Available(s')
  {
  }

  lemma PublishingKeepsAvailable(s: Domain, s': Domain)
    requires Available(s) && Phased(s) && (Publish(s, s') || ReopenOne(s, s') || ReleaseBarrier(s, s'))
    ensures Available(s')
  {
  }

  lemma RotationKeepsAvailable(s: Domain, s': Domain)
    requires Available(s) && Phased(s) && RotationStep(s, s')
    ensures Available(s')
  {
    if Enter(s, s') || Leave(s, s') || Begin(s, s') {
      assert s'.open == s.open;
    } else if UndoOne(s, s') || GiveUp(s, s') {
      UndoingKeepsAvailable(s, s');
    } else if Publish(s, s') || ReopenOne(s, s') || ReleaseBarrier(s, s') {
      PublishingKeepsAvailable(s, s');
    } else {
      SealingKeepsAvailable(s, s');
    }
  }

  lemma TakingKeepsAvailable(s: Domain, s': Domain)
    requires Available(s) && Phased(s)
    requires ObserveDrain(s, s') || LockToTake(s, s') || Take(s, s') || ClearPending(s, s')
    ensures Available(s')
  {
  }

  lemma ReclaimKeepsAvailable(s: Domain, s': Domain)
    requires Available(s) && Phased(s) && ReclaimStep(s, s')
    ensures Available(s')
  {
    if ObserveDrain(s, s') || LockToTake(s, s') || Take(s, s') || ClearPending(s, s') {
      TakingKeepsAvailable(s, s');
    }
  }

  lemma StepKeepsAvailable(s: Domain, s': Domain)
    requires Inv(s) && Available(s) && Step(s, s')
    ensures Available(s')
  {
    WhoChangesAdmission(s, s');
    if RotationStep(s, s') {
      RotationKeepsAvailable(s, s');
    } else if ReclaimStep(s, s') {
      ReclaimKeepsAvailable(s, s');
    }
  }

  lemma AvailableStepOfRun(run: seq<Domain>, n: nat)
    requires IsRun(run) && 0 < n < |run| && Available(run[n - 1])
    ensures Available(run[n])
  {
    var s, s' := run[n - 1], run[n];
    assert Inv(s) by {
      RunsKeepInv(run, n - 1);
    }
    assert Step(s, s') by {
      assert StepsTo(run, n);
    }
    StepKeepsAvailable(s, s');
  }

  lemma {:induction false} RunsKeepAvailable(run: seq<Domain>, n: nat)
    requires IsRun(run) && n < |run|
    ensures Available(run[n])
  {
    if n > 0 {
      RunsKeepAvailable(run, n - 1);
      AvailableStepOfRun(run, n);
    }
  }

  /** Between transitions an open domain admits on every stripe of exactly one generation, after a failed idle seal too. */
  lemma OneGenerationIsOpenBetweenTransitions(run: seq<Domain>, n: nat)
    requires IsRun(run) && n < |run| && !run[n].closed && run[n].rotation.Unheld?
    ensures Sized(run[n])
    ensures forall i :: 0 <= i < |run[n].open[run[n].current]| ==> run[n].open[run[n].current][i]
    ensures FullySealed(run[n].open[1 - run[n].current])
  {
    RunsKeepInv(run, n);
    RunsKeepAvailable(run, n);
  }

  // Calls and closure.

  lemma OwnLeavingIsClosed(s: Domain, r: nat, s': Domain)
    requires Sized(s) && ReaderStep(s, r, s')
    requires !ReaderOf(s, r).Away? && !ReaderOf(s, r).Inside? && ReaderOf(s', r).Away?
    ensures s.closed && ReaderOf(s, r).Calling?
  {
  }

  lemma LeavingClosed(s: Domain, s': Domain, r: nat)
    requires Inv(s) && Step(s, s') && !ReaderOf(s, r).Away? && !ReaderOf(s, r).Inside? && ReaderOf(s', r).Away?
    ensures s.closed && ReaderOf(s, r).Calling?
  {
    OthersKeepReaders(s, s', r);
    OwnLeavingIsClosed(s, r, s');
  }

  /** Whoever's place changed took a step of its own. */
  lemma OthersKeepReaders(s: Domain, s': Domain, r: nat)
    requires Inv(s) && Step(s, s')
    ensures ReaderOf(s', r) == ReaderOf(s, r) || ReaderStep(s, r, s')
  {
    if q :| ReaderStep(s, q, s') {
      ReadersMove(s, q, s');
    } else if w :| WriterStep(s, w, s') {
      WritersLeaveReaders(s, w, s');
    } else if s' != s {
      HolderLeavesReaders(s, s');
    }
  }

  lemma WritersLeaveReaders(s: Domain, w: nat, s': Domain)
    requires Sized(s) && WriterStep(s, w, s')
    ensures s'.readers == s.readers
  {
  }

  lemma HolderLeavesReaders(s: Domain, s': Domain)
    requires Orderly(s) && (RotationStep(s, s') || ReclaimStep(s, s'))
    ensures s'.readers == s.readers
  {
    if RotationStep(s, s') {
      if !Publish(s, s') {
        RotationStaysOrderly(s, s');
      }
    } else if !Take(s, s') && !(exists g :: TakeAfterClose(s, g, s')) {
      ReclaimStaysOrderly(s, s');
    }
  }

  /** A call that ends without an admission found the domain closed at an instant of its own. */
  lemma ClosureIsReportedOnlyWhenClosed(run: seq<Domain>, n: nat, r: nat)
    requires IsRun(run) && 0 < n < |run|
    requires !ReaderOf(run[n - 1], r).Away? && !ReaderOf(run[n - 1], r).Inside? && ReaderOf(run[n], r).Away?
    ensures run[n - 1].closed && ReaderOf(run[n - 1], r).Calling?
  {
    var s, s' := run[n - 1], run[n];
    assert Inv(s) by {
      RunsKeepInv(run, n - 1);
    }
    assert Step(s, s') by {
      assert StepsTo(run, n);
    }
    LeavingClosed(s, s', r);
  }

  predicate Unadmitted(x: Reader) {
    x.Away? || x.Calling?
  }

  lemma ClosedStepAdmitsNoNewCall(s: Domain, s': Domain, r: nat)
    requires Inv(s) && Step(s, s') && s.closed && Unadmitted(ReaderOf(s, r))
    ensures Unadmitted(ReaderOf(s', r))
  {
    OthersKeepReaders(s, s', r);
  }

  /** After closure no call that had not yet found the domain open is ever admitted. */
  lemma {:induction false} ClosedAdmitsNoNewCall(run: seq<Domain>, a: nat, b: nat, r: nat)
    requires IsRun(run) && a <= b < |run| && run[a].closed && Unadmitted(ReaderOf(run[a], r))
    ensures Unadmitted(ReaderOf(run[b], r))
  {
    if a < b {
      ClosedAdmitsNoNewCall(run, a, b - 1, r);
      ClosedNeverReopens(run, a, b - 1);
      var s, s' := run[b - 1], run[b];
      assert Inv(s) by {
        RunsKeepInv(run, b - 1);
      }
      assert Step(s, s') by {
        assert StepsTo(run, b);
      }
      ClosedStepAdmitsNoNewCall(s, s', r);
    }
  }

  predicate SomeStripeSealed(stripes: seq<bool>) {
    exists i :: 0 <= i < |stripes| && !stripes[i]
  }

  lemma OwnRefusalIsSealed(s: Domain, r: nat, s': Domain)
    requires Sized(s) && ReaderStep(s, r, s') && ReaderOf(s, r).Chosen? && ReaderOf(s', r).Calling?
    ensures ReaderOf(s, r).generation < 2 && SomeStripeSealed(s.open[ReaderOf(s, r).generation])
  {
  }

  /** A call starts over only because a stripe of the generation it had selected was sealed. */
  lemma RefusedOnlyByASealedStripe(run: seq<Domain>, n: nat, r: nat)
    requires IsRun(run) && 0 < n < |run| && ReaderOf(run[n - 1], r).Chosen? && ReaderOf(run[n], r).Calling?
    ensures var s, g := run[n - 1], ReaderOf(run[n - 1], r).generation; Sized(s) && g < 2 && SomeStripeSealed(s.open[g])
  {
    var s, s' := run[n - 1], run[n];
    assert Inv(s) by {
      RunsKeepInv(run, n - 1);
    }
    assert Step(s, s') by {
      assert StepsTo(run, n);
    }
    OthersKeepReaders(s, s', r);
    OwnRefusalIsSealed(s, r, s');
  }

  // No record is lost between its withdrawal and its queue.

  predicate InHand(writers: map<nat, Writer>, w: nat, x: Record) {
    w in writers && !writers[w].Resting? && writers[w].record == x
  }

  /** A record that was ever used is reachable, registered, or in the hands of a writer. */
  ghost predicate Covered(used: set<Record>, linked: set<Record>, registered: set<Record>, writers: map<nat, Writer>) {
    forall x :: x in used ==> x in linked || x in registered || exists w :: InHand(writers, w, x)
  }

  /** A writer loses nothing: what it takes from the reachable records it has in hand, what leaves its hand is registered. */
  predicate LosesNothing(s: Domain, w: nat, x: Record, s': Domain) {
    && (x in s'.used ==> x in s.used || x in s'.linked)
    && (x in s.linked ==> x in s'.linked || InHand(s'.writers, w, x))
    && (x in s.registered ==> x in s'.registered)
    && (InHand(s.writers, w, x) ==> InHand(s'.writers, w, x) || x in s'.registered)
  }

  lemma WriterLosesNothing(s: Domain, w: nat, x: Record, s': Domain)
    requires Sized(s) && WriterStep(s, w, s')
    ensures LosesNothing(s, w, x, s')
  {
  }

  lemma OtherWritersStay(s: Domain, w: nat, s': Domain, v: nat, x: Record)
    requires Sized(s) && WriterStep(s, w, s') && v != w
    ensures InHand(s.writers, v, x) ==> InHand(s'.writers, v, x)
  {
  }

  lemma WriterKeepsCovered(s: Domain, w: nat, s': Domain)
    requires Sized(s) && WriterStep(s, w, s') && Covered(s.used, s.linked, s.registered, s.writers)
    ensures Covered(s'.used, s'.linked, s'.registered, s'.writers)
  {
    forall x | x in s'.used && x !in s'.linked && x !in s'.registered
      ensures exists v :: InHand(s'.writers, v, x)
    {
      CoveredAfter(s, w, s', x);
    }
  }

  lemma CoveredAfter(s: Domain, w: nat, s': Domain, x: Record)
    requires Sized(s) && WriterStep(s, w, s') && Covered(s.used, s.linked, s.registered, s.writers)
    requires x in s'.used && x !in s'.linked && x !in s'.registered
    ensures exists v :: InHand(s'.writers, v, x)
  {
    WriterLosesNothing(s, w, x, s');
    if !InHand(s'.writers, w, x) {
      var v :| InHand(s.writers, v, x);
      OtherWritersStay(s, w, s', v, x);
    }
  }

  lemma HolderLeavesRecordsInHand(s: Domain, s': Domain)
    requires Orderly(s) && (RotationStep(s, s') || ReclaimStep(s, s'))
    ensures s'.writers == s.writers && s'.used == s.used && s'.linked == s.linked && s'.registered == s.registered
  {
    if RotationStep(s, s') {
      if !Publish(s, s') {
        RotationStaysOrderly(s, s');
      }
    } else if !Take(s, s') && !(exists g :: TakeAfterClose(s, g, s')) {
      ReclaimStaysOrderly(s, s');
    }
  }

  lemma StepKeepsCovered(s: Domain, s': Domain)
    requires Inv(s) && Step(s, s') && Covered(s.used, s.linked, s.registered, s.writers)
    ensures Covered(s'.used, s'.linked, s'.registered, s'.writers)
  {
    if r :| ReaderStep(s, r, s') {
      ReadersMove(s, r, s');
    } else if w :| WriterStep(s, w, s') {
      WriterKeepsCovered(s, w, s');
    } else if s' != s {
      HolderLeavesRecordsInHand(s, s');
    }
  }

  /** In every run, each record that was ever used is reachable, registered, or in the hands of a writer: none is lost. */
  lemma {:induction false} NoRecordIsLost(run: seq<Domain>, n: nat)
    requires IsRun(run) && n < |run|
    ensures Covered(run[n].used, run[n].linked, run[n].registered, run[n].writers)
  {
    if n > 0 {
      NoRecordIsLost(run, n - 1);
      assert Inv(run[n - 1]) by {
        RunsKeepInv(run, n - 1);
      }
      assert Step(run[n - 1], run[n]) by {
        assert StepsTo(run, n);
      }
      StepKeepsCovered(run[n - 1], run[n]);
    }
  }
}
