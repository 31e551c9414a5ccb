/**
 The drain gate as an interleaving of any number of threads, with any number of
 stripes; the unstriped gate is the case of one. Every atomic update of a stripe,
 every lock, unlock, park and notify is one step.
 */
module DrainGate {
  import opened Options

  /** The abstract value of one sealable counter. */
  datatype Stripe = Stripe(sealed: bool, waiting: bool, active: nat)

  /** What the holder of the control claim knows about admission. */
  datatype Phase = Unknown | Sealed | Drained

  /** A wait runs under the control claim, or free of it. */
  datatype Mode = Free | Under(phase: Phase)

  datatype Pc =
    | Outside
      // readers
    | Holding(stripe: nat)
    | Retained(stripe: nat)   // the fast release was refused; the count is still owned
    | Releasing(stripe: nat)  // owns the idle lock and still the count
    | Notifying               // owns the idle lock; the last count of a stripe was just given up
    | Leaving                 // owns the idle lock
      // waits
    | Queued(mode: Mode)
    | Scanning(mode: Mode, next: nat, idle: bool)
    | Parked(mode: Mode, notified: bool)
      // administration
    | Claimed(phase: Phase)
    | WantsSeal
    | Sealing(next: nat)
    | WantsReopen
    | Checking(next: nat)
    | Reopening(next: nat)
    | IdleSealing(next: nat)
    | Exchanging(next: nat, seen: Stripe)  // an open idle stripe was loaded and is about to be exchanged
    | Undoing(next: nat, end: nat)

  datatype Gate = Gate(
    stripes: seq<Stripe>,
    lock: Option<nat>,
    control: Option<nat>,
    pcs: map<nat, Pc>)

  function PcOf(s: Gate, t: nat): Pc {
    if t in s.pcs then s.pcs[t] else Outside
  }

  predicate Owns(pc: Pc, i: nat) {
    (pc.Holding? || pc.Retained? || pc.Releasing?) && pc.stripe == i
  }

  predicate HasLock(pc: Pc) {
    || pc.Releasing? || pc.Notifying? || pc.Leaving? || pc.Scanning?
    || pc.Sealing? || pc.Checking? || pc.Reopening?
  }

  predicate HasControl(pc: Pc) {
    || pc.Claimed? || pc.WantsSeal? || pc.Sealing? || pc.WantsReopen? || pc.Checking? || pc.Reopening?
    || pc.IdleSealing? || pc.Exchanging? || pc.Undoing?
    || ((pc.Queued? || pc.Scanning? || pc.Parked?) && pc.mode.Under?)
  }

  // Steps. `t` is the thread that moves.

  function Move(s: Gate, t: nat, pc: Pc): Gate {
    s.(pcs := s.pcs[t := pc])
  }

  function Put(s: Gate, i: nat, x: Stripe): Gate
    requires i < |s.stripes|
  {
    s.(stripes := s.stripes[i := x])
  }

  predicate Enter(s: Gate, t: nat, i: nat, s': Gate) {
    && PcOf(s, t).Outside? && i < |s.stripes| && !s.stripes[i].sealed
    && s' == Move(Put(s, i, s.stripes[i].(active := s.stripes[i].active + 1)), t, Holding(i))
  }

  /** The fast release keeps the last count while a waiter is registered. */
  predicate FastRelease(s: Gate, t: nat, s': Gate) {
    && PcOf(s, t).Holding?
    && var i := PcOf(s, t).stripe;
       && i < |s.stripes| && s.stripes[i].active > 0
       && if s.stripes[i].waiting && s.stripes[i].active == 1 then s' == Move(s, t, Retained(i))
          else s' == Move(Put(s, i, s.stripes[i].(active := s.stripes[i].active - 1)), t, Outside)
  }

  predicate LockToRelease(s: Gate, t: nat, s': Gate) {
    && PcOf(s, t).Retained? && s.lock.None?
    && s' == Move(s, t, Releasing(PcOf(s, t).stripe)).(lock := Some(t))
  }

  predicate SlowRelease(s: Gate, t: nat, s': Gate) {
    && PcOf(s, t).Releasing?
    && var i := PcOf(s, t).stripe;
       && i < |s.stripes| && s.stripes[i].active > 0
       && s' == Move(Put(s, i, s.stripes[i].(active := s.stripes[i].active - 1)), t,
                     if s.stripes[i].active == 1 then Notifying else Leaving)
  }

  predicate NotifyAll(s: Gate, t: nat, s': Gate) {
    && PcOf(s, t).Notifying?
    && s' == s.(pcs := map u | u in s.pcs ::
                  if u == t then Leaving
                  else if s.pcs[u].Parked? then s.pcs[u].(notified := true)
                  else s.pcs[u])
  }

  predicate Unlock(s: Gate, t: nat, s': Gate) {
    && PcOf(s, t).Leaving?
    && s' == Move(s, t, Outside).(lock := None)
  }

  predicate BeginWait(s: Gate, t: nat, s': Gate) {
    || (PcOf(s, t).Outside? && s' == Move(s, t, Queued(Free)))
    || (PcOf(s, t).Claimed? && s' == Move(s, t, Queued(Under(PcOf(s, t).phase))))
  }

  predicate LockToScan(s: Gate, t: nat, s': Gate) {
    && PcOf(s, t).Queued? && s.lock.None?
    && s' == Move(s, t, Scanning(PcOf(s, t).mode, 0, true)).(lock := Some(t))
  }

  /** Registers the waiter on one stripe and looks at its count, in one atomic update. */
  predicate Scan(s: Gate, t: nat, s': Gate) {
    && PcOf(s, t).Scanning? && PcOf(s, t).next < |s.stripes|
    && var pc := PcOf(s, t);
       var x := s.stripes[pc.next];
       s' == Move(Put(s, pc.next, x.(waiting := true)), t,
                  pc.(next := pc.next + 1, idle := pc.idle && x.active == 0))
  }

  /** Unlocking and parking are one step. */
  predicate Park(s: Gate, t: nat, s': Gate) {
    && PcOf(s, t).Scanning? && PcOf(s, t).next == |s.stripes| && !PcOf(s, t).idle
    && s' == Move(s, t, Parked(PcOf(s, t).mode, false)).(lock := None)
  }

  predicate Wake(s: Gate, t: nat, s': Gate) {
    && PcOf(s, t).Parked? && PcOf(s, t).notified
    && s' == Move(s, t, Queued(PcOf(s, t).mode))
  }

  function AfterWait(mode: Mode, idle: bool): Pc {
    match mode
    case Free => Outside
    case Under(phase) => Claimed(if idle && phase.Sealed? then Drained else phase)
  }

  /** The wait returns; an attempt that must not block may also return without success. */
  predicate FinishWait(s: Gate, t: nat, s': Gate) {
    && PcOf(s, t).Scanning? && PcOf(s, t).next == |s.stripes|
    && s' == Move(s, t, AfterWait(PcOf(s, t).mode, PcOf(s, t).idle)).(lock := None)
  }

  /** An attempt that must not block finds the lock busy and returns without success. */
  predicate LockBusy(s: Gate, t: nat, s': Gate) {
    && PcOf(s, t).Queued? && s.lock.Some?
    && s' == Move(s, t, AfterWait(PcOf(s, t).mode, false))
  }

  predicate Claim(s: Gate, t: nat, s': Gate) {
    && PcOf(s, t).Outside? && s.control.None?
    && s' == Move(s, t, Claimed(Unknown)).(control := Some(t))
  }

  predicate Unclaim(s: Gate, t: nat, s': Gate) {
    && PcOf(s, t).Claimed?
    && s' == Move(s, t, Outside).(control := None)
  }

  predicate Uniform(stripes: seq<Stripe>, lo: nat, hi: nat, sealed: bool) {
    forall i :: lo <= i < hi && i < |stripes| ==> stripes[i].sealed == sealed
  }

  predicate IdleBelow(stripes: seq<Stripe>, hi: nat) {
    forall i :: 0 <= i < hi && i < |stripes| ==> stripes[i].active == 0
  }

  /** The claim holder observes that admission is sealed. */
  predicate Recognize(s: Gate, t: nat, s': Gate) {
    && PcOf(s, t) == Claimed(Unknown) && Uniform(s.stripes, 0, |s.stripes|, true)
    && s' == Move(s, t, Claimed(Sealed))
  }

  predicate BeginSeal(s: Gate, t: nat, s': Gate) {
    && PcOf(s, t).Claimed? && s' == Move(s, t, WantsSeal)
  }

  predicate LockToSeal(s: Gate, t: nat, s': Gate) {
    && PcOf(s, t).WantsSeal? && s.lock.None?
    && s' == Move(s, t, Sealing(0)).(lock := Some(t))
  }

  predicate SealOne(s: Gate, t: nat, s': Gate) {
    && PcOf(s, t).Sealing? && PcOf(s, t).next < |s.stripes|
    && var k := PcOf(s, t).next;
       s' == Move(Put(s, k, s.stripes[k].(sealed := true)), t, Sealing(k + 1))
  }

  predicate FinishSeal(s: Gate, t: nat, s': Gate) {
    && PcOf(s, t).Sealing? && PcOf(s, t).next == |s.stripes|
    && s' == Move(s, t, Claimed(Sealed)).(lock := None)
  }

  /** A gate with a single counter is sealed by one update, without the idle lock. */
  predicate SealAlone(s: Gate, t: nat, s': Gate) {
    && PcOf(s, t).Claimed? && |s.stripes| == 1
    && s' == Move(Put(s, 0, s.stripes[0].(sealed := true)), t, Claimed(Sealed))
  }

  predicate BeginReopen(s: Gate, t: nat, s': Gate) {
    && PcOf(s, t) == Claimed(Drained) && s' == Move(s, t, WantsReopen)
  }

  predicate LockToReopen(s: Gate, t: nat, s': Gate) {
    && PcOf(s, t).WantsReopen? && s.lock.None?
    && s' == Move(s, t, Checking(0)).(lock := Some(t))
  }

  predicate CheckOne(s: Gate, t: nat, s': Gate) {
    && PcOf(s, t).Checking? && PcOf(s, t).next < |s.stripes|
    && var k := PcOf(s, t).next;
       && s.stripes[k].sealed && s.stripes[k].active == 0
       && s' == Move(s, t, Checking(k + 1))
  }

  predicate FinishCheck(s: Gate, t: nat, s': Gate) {
    && PcOf(s, t).Checking? && PcOf(s, t).next == |s.stripes|
    && s' == Move(s, t, Reopening(0))
  }

  predicate ReopenOne(s: Gate, t: nat, s': Gate) {
    && PcOf(s, t).Reopening? && PcOf(s, t).next < |s.stripes|
    && var k := PcOf(s, t).next;
       && s.stripes[k].sealed && s.stripes[k].active == 0
       && s' == Move(Put(s, k, Stripe(false, false, 0)), t, Reopening(k + 1))
  }

  predicate FinishReopen(s: Gate, t: nat, s': Gate) {
    && PcOf(s, t).Reopening? && PcOf(s, t).next == |s.stripes|
    && s' == Move(s, t, Claimed(Unknown)).(lock := None)
  }

  predicate BeginIdleSeal(s: Gate, t: nat, s': Gate) {
    && PcOf(s, t) == Claimed(Unknown) && s' == Move(s, t, IdleSealing(0))
  }

  /** Loads one stripe; a busy or sealed one ends the attempt. */
  predicate IdleSealLoad(s: Gate, t: nat, s': Gate) {
    && PcOf(s, t).IdleSealing? && PcOf(s, t).next < |s.stripes|
    && var k := PcOf(s, t).next;
       s' == Move(s, t, if !s.stripes[k].sealed && s.stripes[k].active == 0 then Exchanging(k, s.stripes[k])
                        else Undoing(0, k))
  }

  /** Seals the loaded stripe, keeping its waiting bit, if it is still as it was loaded. */
  predicate IdleSealOne(s: Gate, t: nat, s': Gate) {
    && PcOf(s, t).Exchanging? && PcOf(s, t).next < |s.stripes|
    && var k := PcOf(s, t).next;
       && s.stripes[k] == PcOf(s, t).seen
       && s' == Move(Put(s, k, s.stripes[k].(sealed := true)), t, IdleSealing(k + 1))
  }

  /** The stripe changed between the load and the exchange. */
  predicate IdleSealLost(s: Gate, t: nat, s': Gate) {
    && PcOf(s, t).Exchanging? && PcOf(s, t).next < |s.stripes|
    && s.stripes[PcOf(s, t).next] != PcOf(s, t).seen
    && s' == Move(s, t, Undoing(0, PcOf(s, t).next))
  }

  predicate FinishIdleSeal(s: Gate, t: nat, s': Gate) {
    && PcOf(s, t).IdleSealing? && PcOf(s, t).next == |s.stripes|
    && s' == Move(s, t, Claimed(Sealed))
  }

  predicate UndoOne(s: Gate, t: nat, s': Gate) {
    && PcOf(s, t).Undoing? && PcOf(s, t).next < PcOf(s, t).end <= |s.stripes|
    && var k := PcOf(s, t).next;
       && s.stripes[k].sealed && s.stripes[k].active == 0
       && s' == Move(Put(s, k, s.stripes[k].(sealed := false)), t, PcOf(s, t).(next := k + 1))
  }

  predicate FinishUndo(s: Gate, t: nat, s': Gate) {
    && PcOf(s, t).Undoing? && PcOf(s, t).next == PcOf(s, t).end
    && s' == Move(s, t, Claimed(Unknown))
  }

  ghost predicate ReaderStep(s: Gate, t: nat, s': Gate) {
    || (exists i :: Enter(s, t, i, s'))
    || FastRelease(s, t, s') || LockToRelease(s, t, s') || SlowRelease(s, t, s')
    || NotifyAll(s, t, s') || Unlock(s, t, s')
  }

  ghost predicate WaitStep(s: Gate, t: nat, s': Gate) {
    || BeginWait(s, t, s') || LockToScan(s, t, s') || Scan(s, t, s') || Park(s, t, s')
    || Wake(s, t, s') || FinishWait(s, t, s') || LockBusy(s, t, s')
  }

  ghost predicate ControlStep(s: Gate, t: nat, s': Gate) {
    || Claim(s, t, s') || Unclaim(s, t, s') || Recognize(s, t, s')
    || BeginSeal(s, t, s') || LockToSeal(s, t, s') || SealOne(s, t, s') || FinishSeal(s, t, s') || SealAlone(s, t, s')
    || BeginReopen(s, t, s') || LockToReopen(s, t, s') || CheckOne(s, t, s') || FinishCheck(s, t, s')
    || ReopenOne(s, t, s') || FinishReopen(s, t, s')
  }

  ghost predicate IdleSealStep(s: Gate, t: nat, s': Gate) {
    || BeginIdleSeal(s, t, s') || IdleSealLoad(s, t, s') || IdleSealOne(s, t, s') || IdleSealLost(s, t, s')
    || FinishIdleSeal(s, t, s') || UndoOne(s, t, s') || FinishUndo(s, t, s')
  }

  ghost predicate Step(s: Gate, s': Gate) {
    exists t :: ReaderStep(s, t, s') || WaitStep(s, t, s') || ControlStep(s, t, s') || IdleSealStep(s, t, s')
  }
}
