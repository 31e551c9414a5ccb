/**
 What a thread of the gate achieves when it runs alone, and what can keep it from it:
 a wait on a sealed idle gate yields a drained claim, a drained claim reopens every
 stripe, an idle seal fails only because a stripe was sealed, busy or changed.
 */
module DrainGateProgress {
  import opened Options
  import opened Paths
  import opened DrainGate
  import opened DrainGateSafety

  ghost function Alone(t: nat): (Gate, Gate) -> bool {
    (a: Gate, b: Gate) => AnyStep(a, t, b)
  }

  // A finished wait.

  /** A scan that found every stripe idle under a sealed claim, and gives the lock up, leaves a drained claim. */
  lemma FinishedWaitIsDrained(run: seq<Gate>, n: nat, t: nat)
    requires IsRun(run) && 0 < n < |run| && AnyStep(run[n - 1], t, run[n])
    requires PcOf(run[n - 1], t) == Scanning(Under(Sealed), |run[n - 1].stripes|, true)
    requires run[n].lock != Some(t)
    ensures PcOf(run[n], t) == Claimed(Drained) && run[n].lock.None?
    ensures AllSealed(run[n].stripes) && AllIdle(run[n].stripes)
  {
    RunsKeepInv(run, n - 1);
    RunsKeepInv(run, n);
    assert HasLock(PcOf(run[n - 1], t)) <==> run[n - 1].lock == Some(t);
    assert Shape(run[n].stripes, PcOf(run[n], t));
  }

  // Waiting and reopening alone.

  function Registered(stripes: seq<Stripe>, k: nat): (r: seq<Stripe>)
    requires k <= |stripes|
    ensures |r| == |stripes|
    ensures forall i :: 0 <= i < |stripes| ==> r[i] == if i < k then stripes[i].(waiting := true) else stripes[i]
  {
    if k == 0 then stripes
    else var r := Registered(stripes, k - 1); r[k - 1 := stripes[k - 1].(waiting := true)]
  }

  function Reopened(stripes: seq<Stripe>, k: nat): (r: seq<Stripe>)
    requires k <= |stripes|
    ensures |r| == |stripes|
    ensures forall i :: 0 <= i < |stripes| ==> r[i] == if i < k then Stripe(false, false, 0) else stripes[i]
  {
    if k == 0 then stripes else var r := Reopened(stripes, k - 1); r[k - 1 := Stripe(false, false, 0)]
  }

  /** The gate with `t` at `pc`, these stripes and this lock. */
  function With(s: Gate, t: nat, pc: Pc, stripes: seq<Stripe>, lock: Option<nat>): Gate {
    s.(pcs := s.pcs[t := pc], stripes := stripes, lock := lock)
  }

  lemma WithTwice(s: Gate, t: nat, x: Pc, a: seq<Stripe>, l: Option<nat>, y: Pc, b: seq<Stripe>, m: Option<nat>)
    ensures With(With(s, t, x, a, l), t, y, b, m) == With(s, t, y, b, m)
  {
    assert s.pcs[t := x][t := y] == s.pcs[t := y];
  }

  lemma {:induction false} ScansAlone(s: Gate, t: nat, mode: Mode, k: nat)
    requires k <= |s.stripes| && AllIdle(s.stripes)
    ensures Leads(Alone(t), With(s, t, Scanning(mode, 0, true), s.stripes, Some(t)),
                  With(s, t, Scanning(mode, k, true), Registered(s.stripes, k), Some(t)))
  {
    var first := With(s, t, Scanning(mode, 0, true), s.stripes, Some(t));
    if k == 0 {
      NoStep(Alone(t), first);
    } else {
      ScansAlone(s, t, mode, k - 1);
      var stripes := Registered(s.stripes, k - 1);
      var a := With(s, t, Scanning(mode, k - 1, true), stripes, Some(t));
      var b := With(s, t, Scanning(mode, k, true), Registered(s.stripes, k), Some(t));
      assert stripes[k - 1] == s.stripes[k - 1];
      WithTwice(s, t, Scanning(mode, k - 1, true), stripes, Some(t), Scanning(mode, k, true), Registered(s.stripes, k), Some(t));
      assert Registered(s.stripes, k) == stripes[k - 1 := s.stripes[k - 1].(waiting := true)];
      assert Scan(a, t, b);
      OnwardStep(Alone(t), first, a, b);
    }
  }

  /** Where a successful wait returns to: a sealed claim has become a drained one. */
  function Returned(mode: Mode): Pc {
    if mode.Free? then Outside else if mode.phase.Sealed? then Claimed(Drained) else Claimed(mode.phase)
  }

  /** Alone on an idle gate with the lock free, a queued waiter returns successfully. */
  lemma QueuedAloneReturns(s: Gate, t: nat, mode: Mode)
    requires PcOf(s, t) == Queued(mode) && s.lock.None? && AllIdle(s.stripes)
    ensures Leads(Alone(t), s, With(s, t, Returned(mode), Registered(s.stripes, |s.stripes|), None))
  {
    var n := |s.stripes|;
    var b := With(s, t, Scanning(mode, 0, true), s.stripes, Some(t));
    assert LockToScan(s, t, b);
    OneStep(Alone(t), s, b);
    ScansAlone(s, t, mode, n);
    var c := With(s, t, Scanning(mode, n, true), Registered(s.stripes, n), Some(t));
    Onward(Alone(t), s, b, c);
    var d := With(s, t, Returned(mode), Registered(s.stripes, n), None);
    WithTwice(s, t, Scanning(mode, n, true), Registered(s.stripes, n), Some(t), Returned(mode), Registered(s.stripes, n), None);
    assert FinishWait(c, t, d);
    OnwardStep(Alone(t), s, c, d);
  }

  /** So does one that has just been notified. */
  lemma NotifiedAloneReturns(s: Gate, t: nat, mode: Mode)
    requires PcOf(s, t) == Parked(mode, true) && s.lock.None? && AllIdle(s.stripes)
    ensures Leads(Alone(t), s, With(s, t, Returned(mode), Registered(s.stripes, |s.stripes|), None))
  {
    WaitingAloneReturns(s, t, mode);
  }

  lemma WaitingAloneReturns(s: Gate, t: nat, mode: Mode)
    requires s.lock.None? && AllIdle(s.stripes) && AnyStep(s, t, Move(s, t, Queued(mode)))
    ensures Leads(Alone(t), s, With(s, t, Returned(mode), Registered(s.stripes, |s.stripes|), None))
  {
    var a := Move(s, t, Queued(mode));
    OneStep(Alone(t), s, a);
    QueuedAloneReturns(a, t, mode);
    WithTwice(s, t, Queued(mode), s.stripes, None, Returned(mode), Registered(s.stripes, |s.stripes|), None);
    Onward(Alone(t), s, a, With(s, t, Returned(mode), Registered(s.stripes, |s.stripes|), None));
  }

  /** Alone on a sealed idle gate with the lock free, a wait returns a drained claim. */
  lemma WaitAloneDrains(s: Gate, t: nat)
    requires PcOf(s, t) == Claimed(Sealed) && s.lock.None? && AllIdle(s.stripes)
    ensures Leads(Alone(t), s, With(s, t, Claimed(Drained), Registered(s.stripes, |s.stripes|), None))
  {
    assert BeginWait(s, t, Move(s, t, Queued(Under(Sealed))));
    WaitingAloneReturns(s, t, Under(Sealed));
  }

  /** A wait without a claim returns too, and leaves nothing but waiting bits. */
  lemma FreeWaitAloneReturns(s: Gate, t: nat)
    requires PcOf(s, t).Outside? && s.lock.None? && AllIdle(s.stripes)
    ensures Leads(Alone(t), s, With(s, t, Outside, Registered(s.stripes, |s.stripes|), None))
  {
    assert BeginWait(s, t, Move(s, t, Queued(Free)));
    WaitingAloneReturns(s, t, Free);
  }

  lemma {:induction false} ChecksAlone(s: Gate, t: nat, k: nat)
    requires k <= |s.stripes| && AllIdle(s.stripes) && AllSealed(s.stripes)
    ensures Leads(Alone(t), With(s, t, Checking(0), s.stripes, Some(t)), With(s, t, Checking(k), s.stripes, Some(t)))
  {
    var first := With(s, t, Checking(0), s.stripes, Some(t));
    if k == 0 {
      NoStep(Alone(t), first);
    } else {
      ChecksAlone(s, t, k - 1);
      var a, b := With(s, t, Checking(k - 1), s.stripes, Some(t)), With(s, t, Checking(k), s.stripes, Some(t));
      WithTwice(s, t, Checking(k - 1), s.stripes, Some(t), Checking(k), s.stripes, Some(t));
      assert CheckOne(a, t, b);
      OnwardStep(Alone(t), first, a, b);
    }
  }

  lemma {:induction false} ReopensAlone(s: Gate, t: nat, k: nat)
    requires k <= |s.stripes| && AllIdle(s.stripes) && AllSealed(s.stripes)
    ensures Leads(Alone(t), With(s, t, Reopening(0), s.stripes, Some(t)),
                  With(s, t, Reopening(k), Reopened(s.stripes, k), Some(t)))
  {
    var first := With(s, t, Reopening(0), s.stripes, Some(t));
    if k == 0 {
      NoStep(Alone(t), first);
    } else {
      ReopensAlone(s, t, k - 1);
      var stripes := Reopened(s.stripes, k - 1);
      var a := With(s, t, Reopening(k - 1), stripes, Some(t));
      var b := With(s, t, Reopening(k), Reopened(s.stripes, k), Some(t));
      WithTwice(s, t, Reopening(k - 1), stripes, Some(t), Reopening(k), Reopened(s.stripes, k), Some(t));
      assert stripes[k - 1] == s.stripes[k - 1];
      assert ReopenOne(a, t, b);
      OnwardStep(Alone(t), first, a, b);
    }
  }

  /** Alone, a drained claim opens every stripe. */
  lemma DrainedAloneReopens(s: Gate, t: nat)
    requires PcOf(s, t) == Claimed(Drained) && s.lock.None? && AllIdle(s.stripes) && AllSealed(s.stripes)
    ensures Leads(Alone(t), s, With(s, t, Claimed(Unknown), Reopened(s.stripes, |s.stripes|), None))
  {
    var n, stripes := |s.stripes|, s.stripes;
    var a := With(s, t, WantsReopen, stripes, None);
    assert BeginReopen(s, t, a);
    OneStep(Alone(t), s, a);
    var b := With(s, t, Checking(0), stripes, Some(t));
    WithTwice(s, t, WantsReopen, stripes, None, Checking(0), stripes, Some(t));
    assert LockToReopen(a, t, b);
    OnwardStep(Alone(t), s, a, b);
    ChecksAlone(s, t, n);
    var c := With(s, t, Checking(n), stripes, Some(t));
    Onward(Alone(t), s, b, c);
    var d := With(s, t, Reopening(0), stripes, Some(t));
    WithTwice(s, t, Checking(n), stripes, Some(t), Reopening(0), stripes, Some(t));
    assert FinishCheck(c, t, d);
    OnwardStep(Alone(t), s, c, d);
    ReopensAlone(s, t, n);
    var e := With(s, t, Reopening(n), Reopened(stripes, n), Some(t));
    Onward(Alone(t), s, d, e);
    var f := With(s, t, Claimed(Unknown), Reopened(stripes, n), None);
    WithTwice(s, t, Reopening(n), Reopened(stripes, n), Some(t), Claimed(Unknown), Reopened(stripes, n), None);
    assert FinishReopen(e, t, f);
    OnwardStep(Alone(t), s, e, f);
  }

  /** From every reachable state with a sealed claim, a free lock and idle stripes, the claim alone can open the gate. */
  lemma SealedIdleGateCanReopen(run: seq<Gate>, n: nat, t: nat) returns (s': Gate)
    requires IsRun(run) && n < |run|
    requires PcOf(run[n], t) == Claimed(Sealed) && run[n].lock.None? && AllIdle(run[n].stripes)
    ensures Leads(Alone(t), run[n], s')
    ensures |s'.stripes| == |run[n].stripes| && AllOpen(s'.stripes) && AllIdle(s'.stripes) && PcOf(s', t).Claimed?
  {
    var s := run[n];
    assert AllSealed(s.stripes) by {
      RunsKeepInv(run, n);
      assert Shape(s.stripes, PcOf(s, t));
    }
    var m := With(s, t, Claimed(Drained), Registered(s.stripes, |s.stripes|), None);
    WaitAloneDrains(s, t);
    DrainedAloneReopens(m, t);
    s' := With(m, t, Claimed(Unknown), Reopened(m.stripes, |m.stripes|), None);
    Onward(Alone(t), s, m, s');
  }

  // Sealing alone.

  lemma {:induction false} SealsAlone(s: Gate, t: nat, k: nat)
    requires k <= |s.stripes|
    ensures Leads(Alone(t), With(s, t, Sealing(0), s.stripes, Some(t)), With(s, t, Sealing(k), Shut(s.stripes, k), Some(t)))
  {
    var first := With(s, t, Sealing(0), s.stripes, Some(t));
    if k == 0 {
      NoStep(Alone(t), first);
    } else {
      SealsAlone(s, t, k - 1);
      var stripes := Shut(s.stripes, k - 1);
      var a := With(s, t, Sealing(k - 1), stripes, Some(t));
      var b := With(s, t, Sealing(k), Shut(s.stripes, k), Some(t));
      WithTwice(s, t, Sealing(k - 1), stripes, Some(t), Sealing(k), Shut(s.stripes, k), Some(t));
      assert stripes[k - 1] == s.stripes[k - 1];
      assert SealOne(a, t, b);
      OnwardStep(Alone(t), first, a, b);
    }
  }

  /** Alone with the lock free, a claim seals every stripe, busy or not, and keeps every count. */
  lemma ClaimAloneSeals(s: Gate, t: nat)
    requires PcOf(s, t).Claimed? && s.lock.None?
    ensures Leads(Alone(t), s, With(s, t, Claimed(Sealed), Shut(s.stripes, |s.stripes|), None))
  {
    var n := |s.stripes|;
    var a := With(s, t, WantsSeal, s.stripes, None);
    assert BeginSeal(s, t, a);
    OneStep(Alone(t), s, a);
    var b := With(s, t, Sealing(0), s.stripes, Some(t));
    WithTwice(s, t, WantsSeal, s.stripes, None, Sealing(0), s.stripes, Some(t));
    assert LockToSeal(a, t, b);
    OnwardStep(Alone(t), s, a, b);
    SealsAlone(s, t, n);
    var c := With(s, t, Sealing(n), Shut(s.stripes, n), Some(t));
    Onward(Alone(t), s, b, c);
    var d := With(s, t, Claimed(Sealed), Shut(s.stripes, n), None);
    WithTwice(s, t, Sealing(n), Shut(s.stripes, n), Some(t), Claimed(Sealed), Shut(s.stripes, n), None);
    assert FinishSeal(c, t, d);
    OnwardStep(Alone(t), s, c, d);
  }

  /** Where no claim is out, a thread can take one, learn that the gate is sealed if it is, and give the claim back. */
  lemma ClaimsAreTakenAndGivenBack(s: Gate, t: nat)
    requires PcOf(s, t).Outside? && s.control.None?
    ensures var c := Move(s, t, Claimed(Unknown)).(control := Some(t));
      && Leads(Alone(t), s, c) && Leads(Alone(t), c, Move(s, t, Outside))
      && (AllSealed(s.stripes) ==> Leads(Alone(t), c, Move(c, t, Claimed(Sealed))))
  {
    var c := Move(s, t, Claimed(Unknown)).(control := Some(t));
    assert Claim(s, t, c);
    OneStep(Alone(t), s, c);
    assert s.pcs[t := Claimed(Unknown)][t := Outside] == s.pcs[t := Outside];
    assert Unclaim(c, t, Move(s, t, Outside));
    OneStep(Alone(t), c, Move(s, t, Outside));
    if AllSealed(s.stripes) {
      assert Recognize(c, t, Move(c, t, Claimed(Sealed)));
      OneStep(Alone(t), c, Move(c, t, Claimed(Sealed)));
    }
  }

  // Idle seals.

  function Shut(stripes: seq<Stripe>, k: nat): (r: seq<Stripe>)
    requires k <= |stripes|
    ensures |r| == |stripes|
    ensures forall i :: 0 <= i < |stripes| ==> r[i] == if i < k then stripes[i].(sealed := true) else stripes[i]
  {
    if k == 0 then stripes else var r := Shut(stripes, k - 1); r[k - 1 := stripes[k - 1].(sealed := true)]
  }

  /** The attempt of t has sealed the first `k` stripes. */
  function Attempted(s: Gate, t: nat, k: nat): Gate
    requires k <= |s.stripes|
  {
    With(s, t, IdleSealing(k), Shut(s.stripes, k), s.lock)
  }

  lemma IdleSealsOneAlone(s: Gate, t: nat, k: nat)
    requires k < |s.stripes| && AllIdle(s.stripes) && AllOpen(s.stripes)
    ensures Leads(Alone(t), Attempted(s, t, k), Attempted(s, t, k + 1))
  {
    var x, stripes, l := s.stripes[k], Shut(s.stripes, k), s.lock;
    var a := With(s, t, IdleSealing(k), stripes, l);
    var b := With(s, t, Exchanging(k, x), stripes, l);
    var c := With(s, t, IdleSealing(k + 1), Shut(s.stripes, k + 1), l);
    assert stripes[k] == x;
    WithTwice(s, t, IdleSealing(k), stripes, l, Exchanging(k, x), stripes, l);
    assert IdleSealLoad(a, t, b);
    WithTwice(s, t, Exchanging(k, x), stripes, l, IdleSealing(k + 1), Shut(s.stripes, k + 1), l);
    assert IdleSealOne(b, t, c);
    OneStep(Alone(t), a, b);
    OnwardStep(Alone(t), a, b, c);
  }

  lemma {:induction false} IdleSealsAlone(s: Gate, t: nat, k: nat)
    requires k <= |s.stripes| && AllIdle(s.stripes) && AllOpen(s.stripes)
    ensures Leads(Alone(t), Attempted(s, t, 0), Attempted(s, t, k))
  {
    if k == 0 {
      NoStep(Alone(t), Attempted(s, t, 0));
    } else {
      IdleSealsAlone(s, t, k - 1);
      IdleSealsOneAlone(s, t, k - 1);
      Onward(Alone(t), Attempted(s, t, 0), Attempted(s, t, k - 1), Attempted(s, t, k));
    }
  }

  /** Alone on an open idle gate, an idle seal seals every stripe and touches nothing else. */
  lemma IdleSealAloneSucceeds(s: Gate, t: nat)
    requires PcOf(s, t) == Claimed(Unknown) && AllIdle(s.stripes) && AllOpen(s.stripes)
    ensures Leads(Alone(t), s, With(s, t, Claimed(Sealed), Shut(s.stripes, |s.stripes|), s.lock))
  {
    var n := |s.stripes|;
    var a := With(s, t, IdleSealing(0), s.stripes, s.lock);
    assert BeginIdleSeal(s, t, a);
    OneStep(Alone(t), s, a);
    IdleSealsAlone(s, t, n);
    var b, c := With(s, t, IdleSealing(n), Shut(s.stripes, n), s.lock), With(s, t, Claimed(Sealed), Shut(s.stripes, n), s.lock);
    Onward(Alone(t), s, a, b);
    WithTwice(s, t, IdleSealing(n), Shut(s.stripes, n), s.lock, Claimed(Sealed), Shut(s.stripes, n), s.lock);
    assert FinishIdleSeal(b, t, c);
    OnwardStep(Alone(t), s, b, c);
  }

  /** What the attempt has not reached is as it was when the attempt began. */
  predicate Untouched(stripes: seq<Stripe>, now: seq<Stripe>, pc: Pc) {
    && |now| == |stripes| && !pc.Undoing?
    && (pc.IdleSealing? ==> forall i :: pc.next <= i < |stripes| ==> now[i] == stripes[i])
    && (pc.Exchanging? ==>
          && (forall i :: pc.next <= i < |stripes| ==> now[i] == stripes[i])
          && pc.next < |stripes| && pc.seen == stripes[pc.next])
  }

  lemma OwnStepStaysUntouched(s: Gate, t: nat, s': Gate, stripes: seq<Stripe>)
    requires AllIdle(stripes) && AllOpen(stripes) && AnyStep(s, t, s')
    requires Attempting(PcOf(s, t)) && Attempting(PcOf(s', t)) && Untouched(stripes, s.stripes, PcOf(s, t))
    ensures Untouched(stripes, s'.stripes, PcOf(s', t))
  {
    assert IdleSealStep(s, t, s');
  }

  /** An attempt on an open idle gate during which nobody else moves does not fail. */
  lemma {:induction false} UndisturbedIdleSealDoesNotFail(run: seq<Gate>, a: nat, b: nat, t: nat)
    requires IsRun(run) && a < b < |run| && BeginIdleSeal(run[a], t, run[a + 1])
    requires AllIdle(run[a].stripes) && AllOpen(run[a].stripes)
    requires forall m :: a < m < b ==> AnyStep(run[m], t, run[m + 1])
    requires forall m :: a < m <= b ==> Attempting(PcOf(run[m], t))
    ensures Untouched(run[a].stripes, run[b].stripes, PcOf(run[b], t))
  {
    if a + 1 < b {
      UndisturbedIdleSealDoesNotFail(run, a, b - 1, t);
      assert AnyStep(run[b - 1], t, run[b]);
      OwnStepStaysUntouched(run[b - 1], t, run[b], run[a].stripes);
    }
  }

  lemma GivesUpAtAStripe(s: Gate, t: nat, s': Gate)
    requires AnyStep(s, t, s') && Shape(s.stripes, PcOf(s, t)) && !PcOf(s, t).Undoing? && PcOf(s', t).Undoing?
    ensures GivenUp(s.stripes, PcOf(s, t))
  {
  }

  /** The stripe that ends an attempt: sealed or busy when loaded, or changed before the exchange. */
  predicate GivenUp(stripes: seq<Stripe>, pc: Pc) {
    && (pc.IdleSealing? || pc.Exchanging?) && pc.next < |stripes|
    && var x := stripes[pc.next];
       if pc.IdleSealing? then x.sealed || x.active > 0 else x != pc.seen && !pc.seen.sealed && pc.seen.active == 0
  }

  /** An attempt gives up only at a stripe that was sealed or busy when loaded, or that changed before the exchange. */
  lemma IdleSealIsLostToADisturbance(run: seq<Gate>, n: nat, t: nat)
    requires IsRun(run) && 0 < n < |run|
    requires !PcOf(run[n - 1], t).Undoing? && PcOf(run[n], t).Undoing?
    ensures GivenUp(run[n - 1].stripes, PcOf(run[n - 1], t))
  {
    var s, s' := run[n - 1], run[n];
    assert Shape(s.stripes, PcOf(s, t)) by {
      RunsKeepInv(run, n - 1);
    }
    assert Step(s, s') by {
      assert StepsTo(run, n);
    }
    var u := WhoMoved(s, s');
    if u != t {
      OthersKeepTheirPlace(s, u, s', t);
    } else {
      GivesUpAtAStripe(s, t, s');
    }
  }

  /** Stripes `j` to `k` are still sealed by an attempt that is being undone. */
  function Undone(stripes: seq<Stripe>, j: nat, k: nat): (r: seq<Stripe>)
    requires j <= k <= |stripes|
    ensures |r| == |stripes|
    ensures forall i :: 0 <= i < |stripes| ==> r[i] == if j <= i < k then stripes[i].(sealed := true) else stripes[i]
    decreases k - j
  {
    if j == k then stripes else Undone(stripes, j + 1, k)[j := stripes[j].(sealed := true)]
  }

  /** Alone, an attempt that gave up puts every stripe back, whatever the stripes are that it never reached. */
  lemma {:induction false} UndoesAlone(s: Gate, t: nat, j: nat, k: nat)
    requires j <= k <= |s.stripes| && forall i :: 0 <= i < k ==> !s.stripes[i].sealed && s.stripes[i].active == 0
    ensures Leads(Alone(t), With(s, t, Undoing(j, k), Undone(s.stripes, j, k), s.lock),
                  With(s, t, Claimed(Unknown), s.stripes, s.lock))
    decreases k - j
  {
    var a := With(s, t, Undoing(j, k), Undone(s.stripes, j, k), s.lock);
    var last := With(s, t, Claimed(Unknown), s.stripes, s.lock);
    if j == k {
      WithTwice(s, t, Undoing(j, k), s.stripes, s.lock, Claimed(Unknown), s.stripes, s.lock);
      assert FinishUndo(a, t, last);
      OneStep(Alone(t), a, last);
    } else {
      var b := With(s, t, Undoing(j + 1, k), Undone(s.stripes, j + 1, k), s.lock);
      assert Undone(s.stripes, j, k)[j := s.stripes[j]] == Undone(s.stripes, j + 1, k);
      WithTwice(s, t, Undoing(j, k), Undone(s.stripes, j, k), s.lock, Undoing(j + 1, k), Undone(s.stripes, j + 1, k), s.lock);
      assert UndoOne(a, t, b);
      OneStep(Alone(t), a, b);
      UndoesAlone(s, t, j + 1, k);
      Onward(Alone(t), a, b, last);
    }
  }

  // Readers.

  /** A waiter parks only after it has looked at every stripe and found one busy, and goes on only when notified. */
  lemma WhyWaitersMove(s: Gate, t: nat, s': Gate)
    requires AnyStep(s, t, s')
    ensures PcOf(s, t).Scanning? && PcOf(s', t).Parked? ==> PcOf(s, t).next == |s.stripes| && !PcOf(s, t).idle
    ensures PcOf(s, t).Parked? && !PcOf(s', t).Parked? ==> PcOf(s, t).notified && PcOf(s', t) == Queued(PcOf(s, t).mode)
  {
  }

  /** A release under the lock notifies exactly when it made its stripe idle. */
  lemma NotifiesExactlyWhenIdle(s: Gate, t: nat, s': Gate)
    requires AnyStep(s, t, s') && PcOf(s, t).Releasing?
    ensures |s'.stripes| == |s.stripes| && PcOf(s, t).stripe < |s.stripes|
    ensures s'.stripes[PcOf(s, t).stripe].active == s.stripes[PcOf(s, t).stripe].active - 1
    ensures PcOf(s', t).Notifying? <==> s'.stripes[PcOf(s, t).stripe].active == 0
  {
  }

  /** Where a stripe is open a thread gets in, and the stripe counts it. */
  lemma OpenStripesAdmit(s: Gate, t: nat, i: nat)
    requires PcOf(s, t).Outside? && i < |s.stripes| && !s.stripes[i].sealed
    ensures Leads(Alone(t), s, With(s, t, Holding(i), s.stripes[i := s.stripes[i].(active := s.stripes[i].active + 1)], s.lock))
  {
    var a := With(s, t, Holding(i), s.stripes[i := s.stripes[i].(active := s.stripes[i].active + 1)], s.lock);
    assert Enter(s, t, i, a);
    OneStep(Alone(t), s, a);
  }

  /** Alone with the lock free, the owner of a count gives it up, on whichever path. */
  lemma ReleaseAloneCompletes(s: Gate, t: nat)
    requires PcOf(s, t).Holding? && PcOf(s, t).stripe < |s.stripes| && s.stripes[PcOf(s, t).stripe].active > 0
    requires s.lock.None?
    ensures var i := PcOf(s, t).stripe;
      exists s' :: && Leads(Alone(t), s, s') && PcOf(s', t).Outside? && s'.lock.None?
                   && s'.stripes == s.stripes[i := s.stripes[i].(active := s.stripes[i].active - 1)]
  {
    var i := PcOf(s, t).stripe;
    var x := s.stripes[i];
    var after := s.stripes[i := x.(active := x.active - 1)];
    if x.waiting && x.active == 1 {
      var a, b := With(s, t, Retained(i), s.stripes, None), With(s, t, Releasing(i), s.stripes, Some(t));
      assert FastRelease(s, t, a);
      OneStep(Alone(t), s, a);
      WithTwice(s, t, Retained(i), s.stripes, None, Releasing(i), s.stripes, Some(t));
      assert LockToRelease(a, t, b);
      OnwardStep(Alone(t), s, a, b);
      var c := With(s, t, Notifying, after, Some(t));
      WithTwice(s, t, Releasing(i), s.stripes, Some(t), Notifying, after, Some(t));
      assert SlowRelease(b, t, c);
      OnwardStep(Alone(t), s, b, c);
      var d := c.(pcs := map u | u in c.pcs ::
                    if u == t then Leaving else if c.pcs[u].Parked? then c.pcs[u].(notified := true) else c.pcs[u]);
      assert NotifyAll(c, t, d);
      OnwardStep(Alone(t), s, c, d);
      var e := Move(d, t, Outside).(lock := None);
      assert Unlock(d, t, e);
      OnwardStep(Alone(t), s, d, e);
    } else {
      var a := With(s, t, Outside, after, None);
      assert FastRelease(s, t, a);
      OneStep(Alone(t), s, a);
    }
  }

  /** A run goes on wherever steps lead. */
  lemma Extended(run: seq<Gate>, s': Gate) returns (longer: seq<Gate>)
    requires IsRun(run) && Leads(Step, run[|run| - 1], s')
    ensures run <= longer && IsRun(longer) && longer[|longer| - 1] == s'
  {
    var path :| IsPath(Step, path) && path[0] == run[|run| - 1] && path[|path| - 1] == s';
    longer := run + path[1..];
    forall n: nat | 0 < n < |longer|
      ensures StepsTo(longer, n)
    {
      if n < |run| {
        assert StepsTo(run, n);
      } else {
        assert longer[n - 1] == path[n - |run|] && longer[n] == path[n - |run| + 1];
        assert Step(path[n - |run|], path[n - |run| + 1]);
      }
    }
  }

  lemma AloneAreSteps(t: nat)
    ensures forall a, b :: Alone(t)(a, b) ==> Step(a, b)
  {
  }

  /** What a thread reaches alone is reached in a run. */
  lemma AloneIsReachable(run: seq<Gate>, t: nat, s': Gate) returns (longer: seq<Gate>)
    requires IsRun(run) && Leads(Alone(t), run[|run| - 1], s')
    ensures run <= longer && IsRun(longer) && longer[|longer| - 1] == s'
  {
    AloneAreSteps(t);
    LeadsAlso(Alone(t), Step, run[|run| - 1], s');
    longer := Extended(run, s');
  }
}
