/**
 What every interleaving of the drain gate keeps: counts are exactly the
 outstanding permits, a drained gate is idle and untouched, and no parked
 waiter is forgotten.
 */
module DrainGateSafety {
  import opened Options
  import opened DrainGate

  function Owners(pcs: map<nat, Pc>, i: nat): set<nat> {
    set t | t in pcs && Owns(pcs[t], i)
  }

  /** Each count is the number of permits that threads still own. */
  ghost predicate Counted(s: Gate) {
    forall i :: 0 <= i < |s.stripes| ==> s.stripes[i].active == |Owners(s.pcs, i)|
  }

  ghost predicate Exclusive(s: Gate) {
    && (forall t: nat :: HasLock(PcOf(s, t)) <==> s.lock == Some(t))
    && (forall t: nat :: HasControl(PcOf(s, t)) <==> s.control == Some(t))
  }

  predicate AllSealed(stripes: seq<Stripe>) {
    Uniform(stripes, 0, |stripes|, true)
  }

  predicate AllOpen(stripes: seq<Stripe>) {
    Uniform(stripes, 0, |stripes|, false)
  }

  predicate AllIdle(stripes: seq<Stripe>) {
    IdleBelow(stripes, |stripes|)
  }

  predicate Known(stripes: seq<Stripe>, phase: Phase) {
    match phase
    case Unknown => AllSealed(stripes) || AllOpen(stripes)
    case Sealed => AllSealed(stripes)
    case Drained => AllSealed(stripes) && AllIdle(stripes)
  }

  predicate ModeKnown(stripes: seq<Stripe>, mode: Mode) {
    mode.Under? ==> Known(stripes, mode.phase)
  }

  /** Some stripe below `k` must still be released by a thread that will notify. */
  predicate Owed(stripes: seq<Stripe>, k: nat) {
    exists i :: 0 <= i < k && i < |stripes| && stripes[i].waiting && stripes[i].active > 0
  }

  /** What one thread's position says about the stripes. */
  predicate Shape(stripes: seq<Stripe>, pc: Pc) {
    match pc
    case Holding(i) => i < |stripes|
    case Retained(i) => i < |stripes|
    case Releasing(i) => i < |stripes|
    case Queued(mode) => ModeKnown(stripes, mode)
    case Parked(mode, _) => ModeKnown(stripes, mode)
    case Scanning(mode, k, idle) =>
      && k <= |stripes| && ModeKnown(stripes, mode)
      && (!idle ==> Owed(stripes, k))
      && (idle && mode == Under(Sealed) ==> IdleBelow(stripes, k))
    case Claimed(phase) => Known(stripes, phase)
    case WantsSeal => Known(stripes, Unknown)
    case Sealing(k) => k <= |stripes| && Uniform(stripes, 0, k, true)
    case WantsReopen => Known(stripes, Drained)
    case Checking(k) => k <= |stripes| && Known(stripes, Drained)
    case Reopening(k) =>
      && k <= |stripes| && Uniform(stripes, 0, k, false) && Uniform(stripes, k, |stripes|, true)
      && (forall i :: k <= i < |stripes| ==> stripes[i].active == 0)
    case IdleSealing(k) =>
      && k <= |stripes| && Uniform(stripes, 0, k, true) && IdleBelow(stripes, k)
      && (Uniform(stripes, k, |stripes|, false) || (k == 0 && AllSealed(stripes)))
    case Exchanging(k, seen) =>
      && k < |stripes| && Uniform(stripes, 0, k, true) && IdleBelow(stripes, k)
      && (Uniform(stripes, k, |stripes|, false) || (k == 0 && AllSealed(stripes)))
      && !seen.sealed && seen.active == 0
    case Undoing(r, e) =>
      && r <= e < |stripes| && Uniform(stripes, 0, r, false) && Uniform(stripes, r, e, true)
      && (forall i :: r <= i < e ==> stripes[i].active == 0)
      && (Uniform(stripes, e, |stripes|, false) || (e == 0 && AllSealed(stripes)))
    case _ => true
  }

  ghost predicate Shaped(s: Gate) {
    && (forall t: nat :: Shape(s.stripes, PcOf(s, t)))
    && (s.control.None? ==> Known(s.stripes, Unknown))
  }

  predicate IsTail(pc: Pc) {
    pc.Notifying? || pc.Leaving?
  }

  predicate KnowsDrained(pc: Pc) {
    || pc == Claimed(Drained) || pc.WantsReopen? || pc.Checking?
    || ((pc.Queued? || pc.Scanning? || pc.Parked?) && pc.mode == Under(Drained))
  }

  /** Once someone knows the gate drained, no release is still in its notification tail. */
  ghost predicate TailFree(s: Gate) {
    forall t: nat, u: nat :: KnowsDrained(PcOf(s, t)) ==> !IsTail(PcOf(s, u))
  }

  /** A registered stripe is still busy, or a release holds the lock and is about to notify. */
  ghost predicate SomeoneWillNotify(s: Gate) {
    Owed(s.stripes, |s.stripes|) || (s.lock.Some? && PcOf(s, s.lock.value).Notifying?)
  }

  /** A forgotten waiter would be parked, not notified, with nobody left to notify it. */
  ghost predicate Awaited(s: Gate) {
    forall t: nat :: PcOf(s, t).Parked? && !PcOf(s, t).notified ==> SomeoneWillNotify(s)
  }

  ghost predicate Inv(s: Gate) {
    Counted(s) && Exclusive(s) && Shaped(s) && TailFree(s) && Awaited(s)
  }

  lemma OwnersAfter(pcs: map<nat, Pc>, t: nat, pc: Pc, i: nat)
    ensures Owners(pcs[t := pc], i) == if Owns(pc, i) then Owners(pcs, i) + {t} else Owners(pcs, i) - {t}
  {
  }

  lemma OwnersOfMove(pcs: map<nat, Pc>, t: nat, pc: Pc, i: nat)
    ensures var after := Owners(pcs[t := pc], i);
      && after == (if Owns(pc, i) then Owners(pcs, i) + {t} else Owners(pcs, i) - {t})
      && (t in Owners(pcs, i) <==> t in pcs && Owns(pcs[t], i))
      && |after| == |Owners(pcs, i)| - (if t in Owners(pcs, i) then 1 else 0) + (if Owns(pc, i) then 1 else 0)
  {
    var before, after := Owners(pcs, i), Owners(pcs[t := pc], i);
    OwnersAfter(pcs, t, pc, i);
    assert before - {t} + {t} == before + {t};
  }

  /** Any step that moves one thread keeps the counts if it changes them exactly as ownership changes. */
  lemma MovingKeepsCounts(s: Gate, t: nat, s': Gate)
    requires Counted(s)
    requires t in s'.pcs && s'.pcs == s.pcs[t := s'.pcs[t]] && |s'.stripes| == |s.stripes|
    requires forall i :: 0 <= i < |s.stripes| ==>
      s'.stripes[i].active == s.stripes[i].active
        - (if Owns(PcOf(s, t), i) then 1 else 0) + (if Owns(s'.pcs[t], i) then 1 else 0)
    ensures Counted(s')
  {
    forall i | 0 <= i < |s'.stripes|
      ensures s'.stripes[i].active == |Owners(s'.pcs, i)|
    {
      OwnersOfMove(s.pcs, t, s'.pcs[t], i);
    }
  }

  lemma OwnedStripeIsActive(s: Gate, t: nat, i: nat)
    requires Counted(s) && i < |s.stripes| && Owns(PcOf(s, t), i)
    ensures s.stripes[i].active > 0
  {
    assert t in Owners(s.pcs, i);
  }

  lemma ReaderStepKeepsCounts(s: Gate, t: nat, s': Gate)
    requires Inv(s) && ReaderStep(s, t, s')
    ensures Counted(s')
  {
    if NotifyAll(s, t, s') {
      forall i | 0 <= i < |s.stripes|
        ensures Owners(s'.pcs, i) == Owners(s.pcs, i)
      {
      }
    } else {
      MovingKeepsCounts(s, t, s');
    }
  }

  lemma WaitStepKeepsCounts(s: Gate, t: nat, s': Gate)
    requires Inv(s) && WaitStep(s, t, s')
    ensures Counted(s')
  {
    MovingKeepsCounts(s, t, s');
  }

  lemma ControlStepKeepsCounts(s: Gate, t: nat, s': Gate)
    requires Counted(s) && ControlStep(s, t, s')
    ensures Counted(s')
  {
    MovingKeepsCounts(s, t, s');
  }

  lemma IdleSealStepKeepsCounts(s: Gate, t: nat, s': Gate)
    requires Counted(s) && IdleSealStep(s, t, s')
    ensures Counted(s')
  {
    MovingKeepsCounts(s, t, s');
  }

  // What the other threads see of a step.

  ghost predicate AnyStep(s: Gate, t: nat, s': Gate) {
    ReaderStep(s, t, s') || WaitStep(s, t, s') || ControlStep(s, t, s') || IdleSealStep(s, t, s')
  }

  lemma WhoMoved(s: Gate, s': Gate) returns (u: nat)
    requires Step(s, s')
    ensures AnyStep(s, u, s')
  {
    u :| ReaderStep(s, u, s') || WaitStep(s, u, s') || ControlStep(s, u, s') || IdleSealStep(s, u, s');
  }

  /** Without the claim nobody changes a seal or admits into a sealed stripe; without the lock nobody settles a debt. */
  predicate StripeFrame(a: Stripe, b: Stripe, lock: bool, control: bool) {
    && (!control ==> b.sealed == a.sealed && (a.sealed ==> b.active <= a.active))
    && (!lock && a.waiting && a.active > 0 ==> b.waiting && b.active > 0)
  }

  predicate Frame(a: seq<Stripe>, b: seq<Stripe>, lock: bool, control: bool) {
    && |a| == |b|
    && forall i :: 0 <= i < |a| ==> StripeFrame(a[i], b[i], lock, control)
  }

  predicate PcFrame(a: Pc, b: Pc) {
    a == b || (a.Parked? && b == a.(notified := true))
  }

  lemma StepFrames(s: Gate, t: nat, s': Gate)
    requires AnyStep(s, t, s')
    ensures Frame(s.stripes, s'.stripes, HasLock(PcOf(s, t)), HasControl(PcOf(s, t)))
  {
  }

  lemma OthersKeepTheirPlace(s: Gate, t: nat, s': Gate, u: nat)
    requires AnyStep(s, t, s') && u != t
    ensures PcFrame(PcOf(s, u), PcOf(s', u))
  {
  }

  /** Another thread's knowledge survives a step of a thread that has neither of its locks. */
  lemma ShapeSurvives(a: seq<Stripe>, b: seq<Stripe>, pc: Pc, lock: bool, control: bool)
    requires Frame(a, b, lock, control) && Shape(a, pc)
    requires HasLock(pc) ==> !lock
    requires HasControl(pc) ==> !control
    ensures Shape(b, pc)
  {
    if pc.Scanning? && !pc.idle {
      var i :| 0 <= i < pc.next && i < |a| && a[i].waiting && a[i].active > 0;
      assert StripeFrame(a[i], b[i], lock, control);
      assert b[i].waiting && b[i].active > 0;
    }
  }

  lemma ReaderKnowsItsPlace(s: Gate, t: nat, s': Gate)
    requires Inv(s) && ReaderStep(s, t, s')
    ensures Shape(s'.stripes, PcOf(s', t))
  {
    assert Shape(s.stripes, PcOf(s, t));
  }

  lemma WaiterKnowsItsPlace(s: Gate, t: nat, s': Gate)
    requires Inv(s) && WaitStep(s, t, s')
    ensures Shape(s'.stripes, PcOf(s', t))
  {
    var pc := PcOf(s, t);
    assert Shape(s.stripes, pc);
    if Scan(s, t, s') {
      if !pc.idle {
        var i :| 0 <= i < pc.next && i < |s.stripes| && s.stripes[i].waiting && s.stripes[i].active > 0;
        assert s'.stripes[i] == s.stripes[i];
      } else if s.stripes[pc.next].active > 0 {
        assert s'.stripes[pc.next].waiting && s'.stripes[pc.next].active > 0;
      }
    }
  }

  lemma ControllerKnowsItsPlace(s: Gate, t: nat, s': Gate)
    requires Inv(s) && ControlStep(s, t, s')
    ensures Shape(s'.stripes, PcOf(s', t))
  {
    assert Shape(s.stripes, PcOf(s, t));
  }

  lemma IdleSealerKnowsItsPlace(s: Gate, t: nat, s': Gate)
    requires Inv(s) && IdleSealStep(s, t, s')
    ensures Shape(s'.stripes, PcOf(s', t))
  {
    assert Shape(s.stripes, PcOf(s, t));
  }

  lemma MoverKnowsItsPlace(s: Gate, t: nat, s': Gate)
    requires Inv(s) && AnyStep(s, t, s')
    ensures Shape(s'.stripes, PcOf(s', t))
  {
    if ReaderStep(s, t, s') {
      ReaderKnowsItsPlace(s, t, s');
    } else if WaitStep(s, t, s') {
      WaiterKnowsItsPlace(s, t, s');
    } else if ControlStep(s, t, s') {
      ControllerKnowsItsPlace(s, t, s');
    } else {
      IdleSealerKnowsItsPlace(s, t, s');
    }
  }

  /** Only the mover gains or loses a lock, and it takes one only while nobody has it. */
  predicate Passed(a: Option<nat>, b: Option<nat>, t: nat, before: bool, after: bool) {
    && (before <==> a == Some(t))
    && (after <==> b == Some(t))
    && (a == b || (a.None? && after) || (before && b.None?))
  }

  ghost predicate LocksPassed(s: Gate, t: nat, s': Gate) {
    && Passed(s.lock, s'.lock, t, HasLock(PcOf(s, t)), HasLock(PcOf(s', t)))
    && Passed(s.control, s'.control, t, HasControl(PcOf(s, t)), HasControl(PcOf(s', t)))
  }

  lemma ReaderPassesLocks(s: Gate, t: nat, s': Gate)
    requires Exclusive(s) && ReaderStep(s, t, s')
    ensures LocksPassed(s, t, s')
  {
  }

  lemma WaiterPassesLocks(s: Gate, t: nat, s': Gate)
    requires Exclusive(s) && WaitStep(s, t, s')
    ensures LocksPassed(s, t, s')
  {
  }

  lemma ControllerPassesLocks(s: Gate, t: nat, s': Gate)
    requires Exclusive(s) && ControlStep(s, t, s')
    ensures LocksPassed(s, t, s')
  {
  }

  lemma MoverChangesLocks(s: Gate, t: nat, s': Gate)
    requires Exclusive(s) && AnyStep(s, t, s')
    ensures LocksPassed(s, t, s')
  {
    if ReaderStep(s, t, s') {
      ReaderPassesLocks(s, t, s');
    } else if WaitStep(s, t, s') {
      WaiterPassesLocks(s, t, s');
    } else if ControlStep(s, t, s') {
      ControllerPassesLocks(s, t, s');
    }
  }

  lemma StepKeepsExclusive(s: Gate, t: nat, s': Gate)
    requires Inv(s) && AnyStep(s, t, s')
    ensures Exclusive(s')
  {
    MoverChangesLocks(s, t, s');
    forall u: nat
      ensures HasLock(PcOf(s', u)) <==> s'.lock == Some(u)
      ensures HasControl(PcOf(s', u)) <==> s'.control == Some(u)
    {
      if u != t {
        OthersKeepTheirPlace(s, t, s', u);
        assert HasLock(PcOf(s, u)) <==> s.lock == Some(u);
        assert HasControl(PcOf(s, u)) <==> s.control == Some(u);
      }
    }
  }

  lemma StepKeepsShaped(s: Gate, t: nat, s': Gate)
    requires Inv(s) && AnyStep(s, t, s')
    ensures Shaped(s')
  {
    StepFrames(s, t, s');
    MoverKnowsItsPlace(s, t, s');
    MoverChangesLocks(s, t, s');
    var lock, control := HasLock(PcOf(s, t)), HasControl(PcOf(s, t));
    forall u: nat
      ensures Shape(s'.stripes, PcOf(s', u))
    {
      if u != t {
        OthersKeepTheirPlace(s, t, s', u);
        assert Shape(s.stripes, PcOf(s, u));
        assert HasLock(PcOf(s, u)) <==> s.lock == Some(u);
        assert HasControl(PcOf(s, u)) <==> s.control == Some(u);
        ShapeSurvives(s.stripes, s'.stripes, PcOf(s, u), lock, control);
      }
    }
    if s'.control.None? {
      if s.control.None? {
        ShapeSurvives(s.stripes, s'.stripes, Claimed(Unknown), lock, control);
      } else {
        UnclaimingKnowsUniformity(s, t, s');
      }
    }
  }

  lemma UnclaimingKnowsUniformity(s: Gate, t: nat, s': Gate)
    requires Inv(s) && AnyStep(s, t, s') && s.control == Some(t) && s'.control.None?
    ensures Known(s'.stripes, Unknown)
  {
    assert Unclaim(s, t, s');
    assert Shape(s.stripes, PcOf(s, t));
  }

  /** A debt to a registered waiter is settled only by the slow release, which then notifies. */
  lemma DebtsSurvive(s: Gate, t: nat, s': Gate)
    requires AnyStep(s, t, s') && Owed(s.stripes, |s.stripes|)
    ensures Owed(s'.stripes, |s'.stripes|) || (s'.lock == s.lock && PcOf(s', t).Notifying?)
  {
    var i :| 0 <= i < |s.stripes| && s.stripes[i].waiting && s.stripes[i].active > 0;
    if !SlowRelease(s, t, s') {
      assert s'.stripes[i].waiting && s'.stripes[i].active > 0;
    } else if i != PcOf(s, t).stripe || s.stripes[i].active > 1 {
      assert s'.stripes[i].waiting && s'.stripes[i].active > 0;
    }
  }

  lemma NotificationSurvives(s: Gate, t: nat, s': Gate, u: nat)
    requires Inv(s) && AnyStep(s, t, s') && u != t && Exclusive(s')
    requires PcOf(s', u).Parked? && !PcOf(s', u).notified
    ensures SomeoneWillNotify(s')
  {
    OthersKeepTheirPlace(s, t, s', u);
    assert SomeoneWillNotify(s);
    if Owed(s.stripes, |s.stripes|) {
      DebtsSurvive(s, t, s');
      assert HasLock(PcOf(s', t)) <==> s'.lock == Some(t);
    } else {
      var n := s.lock.value;
      NotifierStaysUntilItNotifies(s, t, s', n, u);
    }
  }

  lemma NotifierStaysUntilItNotifies(s: Gate, t: nat, s': Gate, n: nat, u: nat)
    requires Inv(s) && AnyStep(s, t, s') && s.lock == Some(n) && PcOf(s, n).Notifying?
    requires PcOf(s', u).Parked? && !PcOf(s', u).notified
    ensures t != n && s'.lock == Some(n) && PcOf(s', n).Notifying?
  {
    if t != n {
      OthersKeepTheirPlace(s, t, s', n);
      MoverChangesLocks(s, t, s');
      assert HasLock(PcOf(s, t)) <==> s.lock == Some(t);
    }
  }

  lemma StepKeepsAwaited(s: Gate, t: nat, s': Gate)
    requires Inv(s) && AnyStep(s, t, s') && Exclusive(s')
    ensures Awaited(s')
  {
    forall u: nat | PcOf(s', u).Parked? && !PcOf(s', u).notified
      ensures SomeoneWillNotify(s')
    {
      if u == t {
        ParkingLeavesADebt(s, t, s');
      } else {
        NotificationSurvives(s, t, s', u);
      }
    }
  }

  lemma OnlyParkingParks(s: Gate, t: nat, s': Gate)
    requires AnyStep(s, t, s') && PcOf(s', t).Parked? && !PcOf(s', t).notified
    ensures Park(s, t, s')
  {
  }

  lemma ParkingLeavesADebt(s: Gate, t: nat, s': Gate)
    requires Shaped(s) && AnyStep(s, t, s') && PcOf(s', t).Parked? && !PcOf(s', t).notified
    ensures Owed(s'.stripes, |s'.stripes|)
  {
    OnlyParkingParks(s, t, s');
    assert Shape(s.stripes, PcOf(s, t));
  }

  lemma DrainedSeesNoTail(s: Gate, t: nat, s': Gate, d: nat, u: nat)
    requires Inv(s) && AnyStep(s, t, s') && KnowsDrained(PcOf(s', d))
    ensures !IsTail(PcOf(s', u))
  {
    if u == t {
      TailBeginsBusy(s, t, s');
      if d != t {
        OthersKeepTheirPlace(s, t, s', d);
        assert Shape(s.stripes, PcOf(s, d));
        assert !IsTail(PcOf(s, t));
      }
    } else {
      OthersKeepTheirPlace(s, t, s', u);
      assert HasLock(PcOf(s, u)) <==> s.lock == Some(u);
      if d == t {
        DrainEndsWithTheLock(s, t, s');
        assert HasLock(PcOf(s, t)) <==> s.lock == Some(t);
      } else {
        OthersKeepTheirPlace(s, t, s', d);
      }
    }
  }

  lemma StepKeepsTailFree(s: Gate, t: nat, s': Gate)
    requires Inv(s) && AnyStep(s, t, s')
    ensures TailFree(s')
  {
    forall d: nat, u: nat | KnowsDrained(PcOf(s', d))
      ensures !IsTail(PcOf(s', u))
    {
      DrainedSeesNoTail(s, t, s', d, u);
    }
  }

  lemma TailBeginsBusy(s: Gate, t: nat, s': Gate)
    requires Inv(s) && AnyStep(s, t, s')
    ensures IsTail(PcOf(s', t)) ==> IsTail(PcOf(s, t)) || !AllIdle(s.stripes)
  {
    if PcOf(s, t).Releasing? {
      assert Shape(s.stripes, PcOf(s, t));
      OwnedStripeIsActive(s, t, PcOf(s, t).stripe);
    }
  }

  lemma DrainEndsWithTheLock(s: Gate, t: nat, s': Gate)
    requires AnyStep(s, t, s') && KnowsDrained(PcOf(s', t))
    ensures KnowsDrained(PcOf(s, t)) || HasLock(PcOf(s, t))
  {
  }

  lemma StepKeepsInv(s: Gate, s': Gate)
    requires Inv(s) && Step(s, s')
    ensures Inv(s')
  {
    var t :| ReaderStep(s, t, s') || WaitStep(s, t, s') || ControlStep(s, t, s') || IdleSealStep(s, t, s');
    if ReaderStep(s, t, s') {
      ReaderStepKeepsCounts(s, t, s');
    } else if WaitStep(s, t, s') {
      WaitStepKeepsCounts(s, t, s');
    } else if ControlStep(s, t, s') {
      ControlStepKeepsCounts(s, t, s');
    } else {
      IdleSealStepKeepsCounts(s, t, s');
    }
    StepKeepsExclusive(s, t, s');
    StepKeepsShaped(s, t, s');
    StepKeepsAwaited(s, t, s');
    StepKeepsTailFree(s, t, s');
  }

  // Whole runs.

  ghost predicate Init(s: Gate) {
    && s.lock.None? && s.control.None? && s.pcs == map[]
    && (AllSealed(s.stripes) || AllOpen(s.stripes))
    && (forall i :: 0 <= i < |s.stripes| ==> s.stripes[i].active == 0)
  }

  ghost predicate StepsTo(run: seq<Gate>, n: nat)
    requires 0 < n < |run|
  {
    Step(run[n - 1], run[n])
  }

  ghost predicate IsRun(run: seq<Gate>) {
    && run != [] && Init(run[0])
    && (forall n: nat :: 0 < n < |run| ==> StepsTo(run, n))
  }

  lemma {:induction false} RunsKeepInv(run: seq<Gate>, n: nat)
    requires IsRun(run) && n < |run|
    ensures Inv(run[n])
  {
    if n == 0 {
      forall i | 0 <= i < |run[0].stripes|
        ensures Owners(run[0].pcs, i) == {}
      {
      }
    } else {
      RunsKeepInv(run, n - 1);
      assert StepsTo(run, n);
      StepKeepsInv(run[n - 1], run[n]);
    }
  }

  ghost predicate Reopens(s: Gate, s': Gate) {
    exists t :: ReopenOne(s, t, s')
  }

  lemma DrainedStepStaysDrained(s: Gate, s': Gate)
    requires Inv(s) && Step(s, s') && AllSealed(s.stripes) && AllIdle(s.stripes) && !Reopens(s, s')
    ensures AllSealed(s'.stripes) && AllIdle(s'.stripes)
  {
    var t :| ReaderStep(s, t, s') || WaitStep(s, t, s') || ControlStep(s, t, s') || IdleSealStep(s, t, s');
    assert !ReopenOne(s, t, s');
    NothingToUndo(s, t, s');
    ForwardStepStaysDrained(s, t, s');
  }

  /** The only steps that could end a drain are a reopen and an undo. */
  lemma ForwardStepStaysDrained(s: Gate, t: nat, s': Gate)
    requires AnyStep(s, t, s') && !ReopenOne(s, t, s') && !UndoOne(s, t, s')
    requires AllSealed(s.stripes) && AllIdle(s.stripes)
    ensures AllSealed(s'.stripes) && AllIdle(s'.stripes)
  {
  }

  /** An attempt that lost a stripe left at least that stripe open. */
  lemma NothingToUndo(s: Gate, t: nat, s': Gate)
    requires Inv(s) && AllSealed(s.stripes)
    ensures !UndoOne(s, t, s')
  {
    assert Shape(s.stripes, PcOf(s, t));
    if PcOf(s, t).Undoing? {
      SealedStripesAreNotOpen(s.stripes, PcOf(s, t).end);
    }
  }

  lemma SealedStripesAreNotOpen(stripes: seq<Stripe>, k: nat)
    requires AllSealed(stripes) && k < |stripes|
    ensures !Uniform(stripes, k, |stripes|, false)
  {
    assert stripes[k].sealed;
  }

  /** A drained gate stays sealed and idle until a reopen. */
  lemma {:induction false} DrainedUntilReopened(run: seq<Gate>, n: nat, m: nat)
    requires IsRun(run) && n <= m < |run|
    requires AllSealed(run[n].stripes) && AllIdle(run[n].stripes)
    requires forall i :: n < i <= m ==> !Reopens(run[i - 1], run[i])
    ensures AllSealed(run[m].stripes) && AllIdle(run[m].stripes)
  {
    if n < m {
      DrainedUntilReopened(run, n, m - 1);
      RunsKeepInv(run, m - 1);
      assert StepsTo(run, m);
      DrainedStepStaysDrained(run[m - 1], run[m]);
    }
  }

  /** Sealed and idle, with no release still in its notification tail: nobody but the administration uses the gate. */
  ghost predicate Deserted(s: Gate) {
    AllSealed(s.stripes) && AllIdle(s.stripes) && forall u: nat :: !IsTail(PcOf(s, u))
  }

  /** A claim that knows the gate drained has a deserted gate. */
  lemma DrainedIsDeserted(s: Gate, t: nat)
    requires Inv(s) && KnowsDrained(PcOf(s, t))
    ensures Deserted(s)
  {
    assert Shape(s.stripes, PcOf(s, t));
  }

  lemma NobodyOwnsAnIdleStripe(s: Gate, u: nat, i: nat)
    requires Inv(s) && AllIdle(s.stripes)
    ensures !Owns(PcOf(s, u), i)
  {
    if Owns(PcOf(s, u), i) {
      assert Shape(s.stripes, PcOf(s, u));
      OwnedStripeIsActive(s, u, i);
    }
  }

  lemma NoTailBegins(s: Gate, t: nat, s': Gate, u: nat)
    requires Inv(s) && AnyStep(s, t, s') && Deserted(s)
    ensures !IsTail(PcOf(s', u))
  {
    if u == t {
      TailBeginsBusy(s, t, s');
    } else {
      OthersKeepTheirPlace(s, t, s', u);
    }
  }

  lemma DesertedStepStaysDeserted(s: Gate, s': Gate)
    requires Inv(s) && Step(s, s') && Deserted(s) && !Reopens(s, s')
    ensures Deserted(s')
  {
    DrainedStepStaysDrained(s, s');
    var t := WhoMoved(s, s');
    forall u: nat
      ensures !IsTail(PcOf(s', u))
    {
      NoTailBegins(s, t, s', u);
    }
  }

  lemma {:induction false} DesertedUntilReopened(run: seq<Gate>, n: nat, m: nat)
    requires IsRun(run) && n <= m < |run| && Deserted(run[n])
    requires forall i :: n < i <= m ==> !Reopens(run[i - 1], run[i])
    ensures Deserted(run[m])
  {
    if n < m {
      DesertedUntilReopened(run, n, m - 1);
      var s, s' := run[m - 1], run[m];
      assert Inv(s) by {
        RunsKeepInv(run, m - 1);
      }
      assert Step(s, s') by {
        assert StepsTo(run, m);
      }
      DesertedStepStaysDeserted(s, s');
    }
  }

  /**
   From a deserted instant on and until a reopen, nobody owns a permit and no release touches the lock or the
   condition variable, whether or not a claim is held; so the owner may be freed, and a lock that is busy is busy
   with a wait or an administrator.
   */
  lemma FreeUntilReopened(run: seq<Gate>, n: nat, m: nat)
    requires IsRun(run) && n <= m < |run| && Deserted(run[n])
    requires forall i :: n < i <= m ==> !Reopens(run[i - 1], run[i])
    ensures AllSealed(run[m].stripes) && AllIdle(run[m].stripes)
    ensures forall u: nat :: !IsTail(PcOf(run[m], u))
    ensures forall u: nat, i: nat :: !Owns(PcOf(run[m], u), i)
    ensures run[m].lock.Some? ==>
      && HasLock(PcOf(run[m], run[m].lock.value))
      && !PcOf(run[m], run[m].lock.value).Releasing? && !IsTail(PcOf(run[m], run[m].lock.value))
  {
    DesertedUntilReopened(run, n, m);
    var s := run[m];
    RunsKeepInv(run, m);
    forall u: nat, i: nat
      ensures !Owns(PcOf(s, u), i)
    {
      NobodyOwnsAnIdleStripe(s, u, i);
    }
    if s.lock.Some? {
      var u := s.lock.value;
      assert HasLock(PcOf(s, u)) <==> s.lock == Some(u);
      assert PcOf(s, u).Releasing? ==> Owns(PcOf(s, u), PcOf(s, u).stripe);
    }
  }

  /**
   When the claim holder's wait on a sealed gate has returned, every stripe is sealed and idle at this one
   instant, no thread owns a permit, and no release touches the lock or the condition variable; and all of it
   stays so until a reopen.
   */
  lemma DrainedGateIsUntouched(run: seq<Gate>, n: nat, m: nat, t: nat)
    requires IsRun(run) && n <= m < |run| && PcOf(run[n], t) == Claimed(Drained)
    requires forall i :: n < i <= m ==> !Reopens(run[i - 1], run[i])
    ensures AllSealed(run[m].stripes) && AllIdle(run[m].stripes)
    ensures forall u: nat :: !IsTail(PcOf(run[m], u))
    ensures forall u: nat, i: nat :: !Owns(PcOf(run[m], u), i)
  {
    assert Deserted(run[n]) by {
      RunsKeepInv(run, n);
      DrainedIsDeserted(run[n], t);
    }
    FreeUntilReopened(run, n, m);
  }

  /** A gate created sealed is deserted from the start. */
  lemma CreatedSealedIsDeserted(run: seq<Gate>)
    requires IsRun(run) && AllSealed(run[0].stripes)
    ensures Deserted(run[0])
  {
  }

  /**
   No lost wakeup: while a waiter is parked without a notification, a release that must take the lock is still
   to come, or one holds the lock and is about to notify. The last owner of the owed stripe cannot leave by the
   fast path.
   */
  lemma NoLostWakeup(run: seq<Gate>, n: nat, u: nat)
    requires IsRun(run) && n < |run|
    requires PcOf(run[n], u).Parked? && !PcOf(run[n], u).notified
    ensures var s := run[n];
      || (s.lock.Some? && PcOf(s, s.lock.value).Notifying?)
      || exists i, v :: 0 <= i < |s.stripes| && s.stripes[i].waiting && s.stripes[i].active > 0 && Owns(PcOf(s, v), i)
  {
    var s := run[n];
    RunsKeepInv(run, n);
    assert SomeoneWillNotify(s);
    if Owed(s.stripes, |s.stripes|) {
      var i: nat :| i < |s.stripes| && s.stripes[i].waiting && s.stripes[i].active > 0;
      assert |Owners(s.pcs, i)| > 0;
      var v :| v in Owners(s.pcs, i);
      assert Owns(PcOf(s, v), i);
    }
  }

  /** Idle-sealing takes every stripe at once or none: partial progress is always undone. */
  lemma IdleSealIsAllOrNothing(run: seq<Gate>, n: nat, t: nat, s': Gate)
    requires IsRun(run) && n < |run|
    ensures FinishIdleSeal(run[n], t, s') ==> AllSealed(s'.stripes) && AllIdle(s'.stripes)
    ensures FinishUndo(run[n], t, s') ==> AllOpen(s'.stripes) || AllSealed(s'.stripes)
    ensures IdleSealStep(run[n], t, s') ==> forall i :: 0 <= i < |s'.stripes| ==>
      && s'.stripes[i].waiting == run[n].stripes[i].waiting
      && s'.stripes[i].active == run[n].stripes[i].active
  {
    RunsKeepInv(run, n);
    assert Shape(run[n].stripes, PcOf(run[n], t));
  }

  predicate Attempting(pc: Pc) {
    pc.IdleSealing? || pc.Exchanging? || pc.Undoing?
  }

  /** The stripes an idle-seal attempt has not reached are as the attempt found them. */
  predicate FoundSealed(stripes: seq<Stripe>, pc: Pc, sealed: bool)
    requires Attempting(pc)
  {
    var reached := if pc.Undoing? then pc.end else pc.next;
    Uniform(stripes, reached, |stripes|, sealed) && (sealed ==> reached == 0)
  }

  lemma AttemptStep(s: Gate, u: nat, s': Gate, t: nat, sealed: bool)
    requires Inv(s) && AnyStep(s, u, s') && Attempting(PcOf(s, t)) && Attempting(PcOf(s', t))
    requires FoundSealed(s.stripes, PcOf(s, t), sealed)
    ensures FoundSealed(s'.stripes, PcOf(s', t), sealed)
  {
    if u != t {
      assert HasControl(PcOf(s, t)) && !HasControl(PcOf(s, u));
      OthersKeepTheirPlace(s, u, s', t);
      StepFrames(s, u, s');
    } else {
      assert IdleSealStep(s, t, s');
    }
  }

  lemma StepDuringAttempt(s: Gate, s': Gate, t: nat, sealed: bool)
    requires Inv(s) && Step(s, s') && Attempting(PcOf(s, t)) && Attempting(PcOf(s', t))
    requires FoundSealed(s.stripes, PcOf(s, t), sealed)
    ensures FoundSealed(s'.stripes, PcOf(s', t), sealed)
  {
    var u := WhoMoved(s, s');
    AttemptStep(s, u, s', t, sealed);
  }

  lemma AttemptStepOfRun(run: seq<Gate>, n: nat, t: nat, sealed: bool)
    requires IsRun(run) && 0 < n < |run| && Attempting(PcOf(run[n - 1], t)) && Attempting(PcOf(run[n], t))
    requires FoundSealed(run[n - 1].stripes, PcOf(run[n - 1], t), sealed)
    ensures FoundSealed(run[n].stripes, PcOf(run[n], t), sealed)
  {
    var s, s' := run[n - 1], run[n];
    assert Inv(s) by {
      RunsKeepInv(run, n - 1);
    }
    assert Step(s, s') by {
      assert StepsTo(run, n);
    }
    StepDuringAttempt(s, s', t, sealed);
  }

  lemma {:induction false} AttemptKeepsWhatItFound(run: seq<Gate>, a: nat, b: nat, t: nat, sealed: bool)
    requires IsRun(run) && a < b < |run| && BeginIdleSeal(run[a], t, run[a + 1])
    requires forall m :: a < m <= b ==> Attempting(PcOf(run[m], t))
    requires Uniform(run[a].stripes, 0, |run[a].stripes|, sealed)
    ensures FoundSealed(run[b].stripes, PcOf(run[b], t), sealed)
  {
    if a + 1 < b {
      AttemptKeepsWhatItFound(run, a, b - 1, t, sealed);
      AttemptStepOfRun(run, b, t, sealed);
    }
  }

  /** A failed idle seal, raced by anything, ends with every stripe open or every stripe sealed exactly as it began. */
  lemma FailedIdleSealRestores(run: seq<Gate>, a: nat, b: nat, t: nat, sealed: bool)
    requires IsRun(run) && a < b < |run| - 1
    requires BeginIdleSeal(run[a], t, run[a + 1]) && FinishUndo(run[b], t, run[b + 1])
    requires forall m :: a < m <= b ==> Attempting(PcOf(run[m], t))
    requires Uniform(run[a].stripes, 0, |run[a].stripes|, sealed)
    ensures Uniform(run[b + 1].stripes, 0, |run[b + 1].stripes|, sealed)
  {
    AttemptKeepsWhatItFound(run, a, b, t, sealed);
    RunsKeepInv(run, b);
    assert Shape(run[b].stripes, PcOf(run[b], t));
  }

  /** None of the gate's fail-stops is reachable: every update that may not be refused is enabled. */
  lemma FailStopsAreUnreachable(run: seq<Gate>, n: nat, t: nat)
    requires IsRun(run) && n < |run|
    ensures var s := run[n]; var pc := PcOf(s, t);
      && (pc.Holding? || pc.Retained? || pc.Releasing? ==>
            pc.stripe < |s.stripes| && s.stripes[pc.stripe].active > 0)
      && (pc.Checking? && pc.next < |s.stripes| ==> s.stripes[pc.next].sealed && s.stripes[pc.next].active == 0)
      && (pc.Reopening? && pc.next < |s.stripes| ==> s.stripes[pc.next].sealed && s.stripes[pc.next].active == 0)
      && (pc.Undoing? && pc.next < pc.end ==>
            pc.end <= |s.stripes| && s.stripes[pc.next].sealed && s.stripes[pc.next].active == 0)
  {
    var s := run[n];
    RunsKeepInv(run, n);
    assert Shape(s.stripes, PcOf(s, t));
    if PcOf(s, t).Holding? || PcOf(s, t).Retained? || PcOf(s, t).Releasing? {
      OwnedStripeIsActive(s, t, PcOf(s, t).stripe);
    }
  }
}
