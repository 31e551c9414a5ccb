/**
 The replaceable slot keeps its promises over real drain gates: every step of the
 combination is a step of the slot or none, and what the code reads off
 the gates is what the slot's guards say.
 */
module GatedServiceSafety {
  import opened Options
  import opened GatedServiceSlot
  import S = ServiceSlot
  import SS = ServiceSlotSafety
  import G = DrainGate
  import GS = DrainGateSafety
  import V = GateView

  /** Each lane's stripes and permit holders are those of its gate. */
  predicate Viewed(s: S.Slot, gates: seq<G.Gate>) {
    && |s.lanes| == 2 && |gates| == 2
    && V.Shows(gates[0], s.lanes[0].open, HoldersOf(s.readers, 0))
    && V.Shows(gates[1], s.lanes[1].open, HoldersOf(s.readers, 1))
  }

  ghost predicate GatesInv(gates: seq<G.Gate>) {
    |gates| == 2 && GS.Inv(gates[0]) && GS.Inv(gates[1])
  }

  ghost predicate Inv(j: Gated) {
    Sized(j) && SS.Inv(j.slot) && GatesInv(j.gates) && Viewed(j.slot, j.gates)
  }

  ghost predicate Projects(j: Gated, j': Gated) {
    S.Step(j.slot, j'.slot)
  }

  // The view.

  lemma HoldersAfter(readers: map<nat, S.Reader>, t: nat, x: S.Reader, i: nat)
    ensures HoldersOf(readers[t := x], i)
         == if S.Holds(x, i) then HoldersOf(readers, i) + {t} else HoldersOf(readers, i) - {t}
  {
  }

  lemma NoHolders(readers: map<nat, S.Reader>, i: nat)
    ensures HoldersOf(readers, i) == {} <==> S.NoPermits(readers, i)
  {
    if HoldersOf(readers, i) == {} {
      forall r | r in readers
        ensures !S.Holds(readers[r], i)
      {
        assert r !in HoldersOf(readers, i);
      }
    }
  }

  lemma ShownSealed(s: G.Gate, lane: S.Lane, inside: set<nat>)
    requires V.Shows(s, lane.open, inside)
    ensures GS.AllSealed(s.stripes) <==> S.AllSealed(lane)
  {
    if S.AllSealed(lane) {
      forall k | 0 <= k < |s.stripes|
        ensures s.stripes[k].sealed
      {
        assert !lane.open[k];
      }
    }
    if GS.AllSealed(s.stripes) {
      forall k | 0 <= k < |lane.open|
        ensures !lane.open[k]
      {
        assert s.stripes[k].sealed;
      }
    }
  }

  /** All counts are zero exactly when nobody has a permit. */
  lemma IdleMeansNoPermits(s: G.Gate)
    requires GS.Inv(s)
    ensures GS.AllIdle(s.stripes) <==> V.Permits(s) == {}
  {
    if GS.AllIdle(s.stripes) {
      forall t | t in V.Permits(s)
        ensures false
      {
        GS.NobodyOwnsAnIdleStripe(s, t, s.pcs[t].stripe);
      }
    }
    if V.Permits(s) == {} {
      forall i | 0 <= i < |s.stripes|
        ensures s.stripes[i].active == 0
      {
        NoOwners(s, i);
      }
    }
  }

  lemma NoOwners(s: G.Gate, i: nat)
    requires V.Permits(s) == {}
    ensures GS.Owners(s.pcs, i) == {}
  {
    forall t | t in GS.Owners(s.pcs, i)
      ensures t in V.Permits(s)
    {
    }
  }

  /** The counters say what the slot's guard says. */
  lemma LooksFreeIsFree(j: Gated, i: nat)
    requires Sized(j) && GatesInv(j.gates) && Viewed(j.slot, j.gates) && i < 2
    ensures LooksFree(j, i) <==> S.TargetIsFree(j.slot, i)
  {
    IdleMeansNoPermits(j.gates[i]);
    NoHolders(j.slot.readers, i);
    ShownSealed(j.gates[i], j.slot.lanes[i], HoldersOf(j.slot.readers, i));
  }

  /** A claim that knows the lane drained has a sealed lane without permits. */
  lemma DrainedGateEmptiesItsLane(j: Gated, i: nat, t: nat)
    requires Inv(j) && i < 2 && G.PcOf(j.gates[i], t) == G.Claimed(G.Drained)
    ensures S.AllSealed(j.slot.lanes[i]) && S.NoPermits(j.slot.readers, i)
  {
    GS.DrainedIsDeserted(j.gates[i], t);
    IdleMeansNoPermits(j.gates[i]);
    NoHolders(j.slot.readers, i);
    ShownSealed(j.gates[i], j.slot.lanes[i], HoldersOf(j.slot.readers, i));
  }

  // Moves of one gate.

  lemma MovingKeepsGatesInv(j: Gated, i: nat, t: nat, j': Gated)
    requires Sized(j) && GatesInv(j.gates) && Moves(j, i, t, j')
    ensures GatesInv(j'.gates)
  {
    assert G.Step(j.gates[i], j'.gates[i]);
    GS.StepKeepsInv(j.gates[i], j'.gates[i]);
  }

  lemma AdmitIsSound(j: Gated, i: nat, t: nat, k: nat, j': Gated)
    requires Sized(j) && Viewed(j.slot, j.gates) && AdmitReader(j, i, t, k, j')
    ensures Projects(j, j') && Viewed(j'.slot, j'.gates)
  {
    var s := j.slot;
    V.AdmittingShows(j.gates[i], t, k, j'.gates[i], s.lanes[i].open, HoldersOf(s.readers, i));
    assert S.EnterLane(s, t, k, j'.slot);
    assert S.ReaderStep(s, t, j'.slot);
    HoldersAfter(s.readers, t, S.Entered(i), i);
    HoldersAfter(s.readers, t, S.Entered(i), 1 - i);
    assert t !in HoldersOf(s.readers, 1 - i);
  }

  lemma ReleaseIsSound(j: Gated, i: nat, t: nat, j': Gated)
    requires Sized(j) && Viewed(j.slot, j.gates) && ReleaseReader(j, i, t, j')
    ensures Projects(j, j') && Viewed(j'.slot, j'.gates)
  {
    var s, x := j.slot, j'.slot.readers[t];
    V.GivingUpShows(j.gates[i], t, j'.gates[i], s.lanes[i].open, HoldersOf(s.readers, i));
    assert S.ReaderStep(s, t, j'.slot);
    HoldersAfter(s.readers, t, x, i);
    HoldersAfter(s.readers, t, x, 1 - i);
    assert t !in HoldersOf(s.readers, 1 - i);
  }

  lemma CloseIsSound(j: Gated, i: nat, t: nat, k: nat, j': Gated)
    requires Sized(j) && Viewed(j.slot, j.gates) && CloseStripe(j, i, t, k, j')
    ensures Projects(j, j') && Viewed(j'.slot, j'.gates)
  {
    var s := j.slot;
    V.ClosingShows(j.gates[i], t, k, j'.gates[i], s.lanes[i].open, HoldersOf(s.readers, i));
    if j'.slot == s {
      assert s.lanes[i].open[k := false] == s.lanes[i].open;
    } else {
      assert S.RetireStep(s, j'.slot);
    }
  }

  lemma OpenIsSound(j: Gated, i: nat, t: nat, k: nat, j': Gated)
    requires Sized(j) && Viewed(j.slot, j.gates) && OpenStripe(j, i, t, k, j')
    ensures Projects(j, j') && Viewed(j'.slot, j'.gates)
  {
    var s := j.slot;
    V.OpeningShows(j.gates[i], t, k, j'.gates[i], s.lanes[i].open, HoldersOf(s.readers, i));
    assert S.ReplaceStep(s, j'.slot);
  }

  lemma InternalIsSound(j: Gated, i: nat, t: nat, j': Gated)
    requires Sized(j) && Viewed(j.slot, j.gates) && InternalMove(j, i, t, j')
    ensures Projects(j, j') && Viewed(j'.slot, j'.gates)
  {
    V.InternalShows(j.gates[i], t, j'.gates[i], j.slot.lanes[i].open, HoldersOf(j.slot.readers, i));
  }

  lemma GateMoveIsSound(j: Gated, i: nat, t: nat, j': Gated)
    requires Sized(j) && Viewed(j.slot, j.gates) && GateMove(j, i, t, j')
    ensures Projects(j, j') && Viewed(j'.slot, j'.gates) && Moves(j, i, t, j')
  {
    if k :| AdmitReader(j, i, t, k, j') {
      AdmitIsSound(j, i, t, k, j');
    } else if ReleaseReader(j, i, t, j') {
      ReleaseIsSound(j, i, t, j');
    } else if k :| CloseStripe(j, i, t, k, j') {
      CloseIsSound(j, i, t, k, j');
    } else if k :| OpenStripe(j, i, t, k, j') {
      OpenIsSound(j, i, t, k, j');
    } else {
      InternalIsSound(j, i, t, j');
    }
  }

  // Moves of the slot.

  /** Neither the stripes nor who has a permit of which lane changes. */
  predicate SameView(s: S.Slot, s': S.Slot) {
    && |s.lanes| == 2 && |s'.lanes| == 2
    && s'.lanes[0].open == s.lanes[0].open && s'.lanes[1].open == s.lanes[1].open
    && HoldersOf(s'.readers, 0) == HoldersOf(s.readers, 0) && HoldersOf(s'.readers, 1) == HoldersOf(s.readers, 1)
  }

  lemma ReaderMoveIsUnseen(s: S.Slot, r: nat, s': S.Slot)
    requires |s.lanes| == 2 && ReaderMove(s, r, s')
    ensures S.ReaderStep(s, r, s') && SameView(s, s')
  {
    if k :| RefuseReader(s, r, k, s') {
      assert S.EnterLane(s, r, k, s');
    }
    HoldersAfter(s.readers, r, s'.readers[r], 0);
    HoldersAfter(s.readers, r, s'.readers[r], 1);
  }

  lemma HolderMoveIsUnseen(s: S.Slot, s': S.Slot)
    requires |s.lanes| == 2 && HolderMove(s, s')
    ensures S.Step(s, s') && SameView(s, s')
  {
    assert S.ReplaceStep(s, s') || S.RetireStep(s, s');
  }

  lemma SlotMoveIsSound(j: Gated, j': Gated)
    requires Sized(j) && SlotMove(j, j')
    ensures Projects(j, j') && SameView(j.slot, j'.slot)
  {
    if r :| ReaderMove(j.slot, r, j'.slot) {
      ReaderMoveIsUnseen(j.slot, r, j'.slot);
    } else {
      HolderMoveIsUnseen(j.slot, j'.slot);
    }
  }

  lemma PrepareIsSound(j: Gated, j': Gated)
    requires Inv(j) && PrepareLane(j, j')
    ensures Projects(j, j') && SameView(j.slot, j'.slot)
  {
    LooksFreeIsFree(j, S.Target(j.slot.admin.previous));
    assert S.Prepare(j.slot, j'.slot);
    assert S.ReplaceStep(j.slot, j'.slot);
  }

  lemma ReopenWaitIsSound(j: Gated, t: nat, j': Gated)
    requires Inv(j) && ReopenReturns(j, t, j')
    ensures Projects(j, j') && SameView(j.slot, j'.slot)
  {
    DrainedGateEmptiesItsLane(j, S.Target(j.slot.admin.previous), t);
    assert S.BeginReopen(j.slot, j'.slot);
    assert S.ReplaceStep(j.slot, j'.slot);
  }

  lemma WaitIsSound(j: Gated, t: nat, j': Gated)
    requires Inv(j) && WaitReturns(j, t, j')
    ensures Projects(j, j') && SameView(j.slot, j'.slot)
  {
    if j.slot.admin.previous.Some? {
      DrainedGateEmptiesItsLane(j, j.slot.admin.previous.value.index, t);
    }
    assert S.ObserveDrain(j.slot, j'.slot);
    assert S.RetireStep(j.slot, j'.slot);
  }

  // Whole runs.

  lemma ProjectingKeepsSlotInv(j: Gated, j': Gated)
    requires SS.Inv(j.slot) && Projects(j, j')
    ensures SS.Inv(j'.slot)
  {
    SS.StepKeepsInv(j.slot, j'.slot);
  }

  lemma SameViewKeepsViewed(s: S.Slot, s': S.Slot, gates: seq<G.Gate>)
    requires Viewed(s, gates) && SameView(s, s')
    ensures Viewed(s', gates)
  {
  }

  lemma GateStepIsSound(j: Gated, i: nat, t: nat, j': Gated)
    requires Inv(j) && GateMove(j, i, t, j')
    ensures Projects(j, j') && Inv(j')
  {
    GateMoveIsSound(j, i, t, j');
    MovingKeepsGatesInv(j, i, t, j');
    ProjectingKeepsSlotInv(j, j');
  }

  /** Every step over real gates is a step of the slot or none, and keeps both invariants. */
  lemma StepIsSound(j: Gated, j': Gated)
    requires Inv(j) && Step(j, j')
    ensures Projects(j, j') && Inv(j')
  {
    if i, t :| GateMove(j, i, t, j') {
      GateStepIsSound(j, i, t, j');
    } else {
      if t :| ReopenReturns(j, t, j') {
        ReopenWaitIsSound(j, t, j');
      } else if t :| WaitReturns(j, t, j') {
        WaitIsSound(j, t, j');
      } else if PrepareLane(j, j') {
        PrepareIsSound(j, j');
      } else {
        SlotMoveIsSound(j, j');
      }
      ProjectingKeepsSlotInv(j, j');
      SameViewKeepsViewed(j.slot, j'.slot, j.gates);
    }
  }

  /** Both lanes sealed and empty, nobody anywhere. */
  ghost predicate Init(j: Gated) {
    && SS.Init(j.slot) && |j.gates| == 2
    && GS.Init(j.gates[0]) && GS.Init(j.gates[1])
    && V.Shows(j.gates[0], j.slot.lanes[0].open, {}) && V.Shows(j.gates[1], j.slot.lanes[1].open, {})
  }

  lemma InitKeepsInv(j: Gated)
    requires Init(j)
    ensures Inv(j)
  {
    GS.RunsKeepInv([j.gates[0]], 0);
    GS.RunsKeepInv([j.gates[1]], 0);
    SS.RunsKeepInv([j.slot], 0);
  }

  ghost predicate StepsTo(run: seq<Gated>, n: nat)
    requires 0 < n < |run|
  {
    Step(run[n - 1], run[n])
  }

  ghost predicate IsRun(run: seq<Gated>) {
    && run != [] && Init(run[0])
    && (forall n: nat :: 0 < n < |run| ==> StepsTo(run, n))
  }

  lemma StepOfRunIsSound(run: seq<Gated>, n: nat)
    requires IsRun(run) && 0 < n < |run| && Inv(run[n - 1])
    ensures Projects(run[n - 1], run[n]) && Inv(run[n])
  {
    assert Step(run[n - 1], run[n]) by {
      assert StepsTo(run, n);
    }
    StepIsSound(run[n - 1], run[n]);
  }

  lemma {:induction false} RunsKeepInv(run: seq<Gated>, n: nat)
    requires IsRun(run) && n < |run|
    ensures Inv(run[n])
  {
    if n == 0 {
      InitKeepsInv(run[0]);
    } else {
      RunsKeepInv(run, n - 1);
      StepOfRunIsSound(run, n);
    }
  }

  function Slots(run: seq<Gated>): (r: seq<S.Slot>)
    ensures |r| == |run| && forall n :: 0 <= n < |run| ==> r[n] == run[n].slot
  {
    if run == [] then [] else Slots(run[..|run| - 1]) + [run[|run| - 1].slot]
  }

  lemma ProjectedStep(run: seq<Gated>, n: nat)
    requires IsRun(run) && 0 < n < |run|
    ensures S.Step(run[n - 1].slot, run[n].slot)
  {
    RunsKeepInv(run, n - 1);
    StepOfRunIsSound(run, n);
  }

  /** The slots of a run over real gates are a run of the slot, so all that was proved of its runs holds here. */
  lemma RunsProject(run: seq<Gated>)
    requires IsRun(run)
    ensures SS.IsRun(Slots(run))
  {
    var r := Slots(run);
    forall n: nat | 0 < n < |r|
      ensures SS.StepsTo(r, n)
    {
      ProjectedStep(run, n);
    }
  }

  /** Over real gates too, a successful read returns a service that was active at an instant of the same call. */
  lemma ReadsReturnAnActiveService(run: seq<Gated>, n: nat, r: nat) returns (k: nat)
    requires IsRun(run) && 0 < n < |run| && Sized(run[n - 1]) && S.Fetch(run[n - 1].slot, r, run[n].slot)
    ensures k < n && Sized(run[k]) && S.Pc(run[n].slot, r).Reading?
    ensures S.ActiveService(run[k].slot) == Some(S.Pc(run[n].slot, r).service)
    ensures forall m :: k <= m < n ==> S.Pc(run[m].slot, r) == S.Validated(S.Pc(run[n].slot, r).index)
  {
    RunsProject(run);
    var slots := Slots(run);
    k := SS.ReadsReturnAnActiveService(slots, n, r);
    RunIsSized(run, k);
    forall m | k <= m < n
      ensures S.Pc(run[m].slot, r) == S.Validated(S.Pc(run[n].slot, r).index)
    {
      assert slots[m] == run[m].slot;
    }
  }

  /** Over real gates too, a call that ends without a read found no active service at an instant of its own. */
  lemma NothingIsReturnedOnlyWithoutAService(run: seq<Gated>, n: nat, r: nat)
    requires IsRun(run) && 0 < n < |run|
    requires !S.Pc(run[n - 1].slot, r).Outside? && !S.Pc(run[n - 1].slot, r).Reading? && S.Pc(run[n].slot, r).Outside?
    ensures Sized(run[n - 1]) && S.Pc(run[n - 1].slot, r).Calling? && S.ActiveService(run[n - 1].slot).None?
  {
    RunIsSized(run, n - 1);
    ProjectedStep(run, n);
    SS.LeavingWithNothing(run[n - 1].slot, run[n].slot, r);
  }

  lemma RunIsSized(run: seq<Gated>, n: nat)
    requires IsRun(run) && n < |run|
    ensures Sized(run[n])
  {
    RunsKeepInv(run, n);
  }

  lemma TargetLooksFree(j: Gated)
    requires Inv(j) && j.slot.admin.Replacing?
    ensures LooksFree(j, S.Target(j.slot.admin.previous))
  {
    SS.ReplacementFindsItsLaneFree(j.slot);
    LooksFreeIsFree(j, S.Target(j.slot.admin.previous));
  }

  lemma ReadersAreSafe(s: S.Slot, t: nat)
    requires SS.Inv(s)
    ensures !S.ReaderWouldStop(s, t)
    ensures S.Pc(s, t).Reading? ==> S.Pc(s, t).service !in s.delivered
  {
    if S.Pc(s, t).Reading? {
      SS.RunningReadsAreNotDelivered(s, t);
    }
  }

  /**
   Over real gates no fail-stop is reachable: a replacement reads sealed stripes, zero counts and a null pointer off
   its target lane, and a validated reader reads a pointer; and a reader with a permit never reads a service that was
   handed out.
   */
  lemma FailStopsAreUnreachable(run: seq<Gated>, n: nat, t: nat)
    requires IsRun(run) && n < |run|
    ensures Sized(run[n])
    ensures var j := run[n];
      && (j.slot.admin.Replacing? ==> LooksFree(j, S.Target(j.slot.admin.previous)))
      && !S.ReaderWouldStop(j.slot, t)
      && (S.Pc(j.slot, t).Reading? ==> S.Pc(j.slot, t).service !in j.slot.delivered)
  {
    RunsKeepInv(run, n);
    ReadersAreSafe(run[n].slot, t);
    if run[n].slot.admin.Replacing? {
      TargetLooksFree(run[n]);
    }
  }

  // The combination keeps every step of its gates.

  /**
   What the slot schedules itself: who is admitted, who gives a permit back, when a stripe is first sealed and when one
   is opened again.
   */
  ghost predicate Scheduled(j: Gated, i: nat, t: nat, x: G.Gate)
    requires Sized(j) && i < 2
  {
    var g, s, a := j.gates[i], j.slot, j.slot.admin;
    && (forall k: nat :: V.Admits(g, t, k, x) ==> S.Pc(s, t) == S.Loaded(i))
    && (V.GivesUp(g, t, x) ==> S.Pc(s, t).Stale? || S.Pc(s, t).Reading?)
    && (forall k: nat :: V.Closes(g, t, k, x) ==>
          && k < |s.lanes[i].open|
          && (s.lanes[i].open[k] ==> a.Sealing? && a.previous.Some? && a.previous.value.index == i && a.next == k))
    && (forall k: nat :: V.Opens(g, t, k, x) ==>
          k < |s.lanes[i].open| && a.Reopening? && S.Target(a.previous) == i && a.next == k)
  }

  lemma SealThatIsDue(j: Gated, i: nat, t: nat, k: nat, x: G.Gate) returns (s': S.Slot)
    requires Sized(j) && i < 2 && Scheduled(j, i, t, x) && V.Closes(j.gates[i], t, k, x)
    ensures k < |j.slot.lanes[i].open|
    ensures || (s' == j.slot && !j.slot.lanes[i].open[k])
            || (S.SealOne(j.slot, s') && j.slot.admin.previous.value.index == i && j.slot.admin.next == k)
  {
    s' := j.slot;
    if s'.lanes[i].open[k] {
      s' := s'.(admin := S.Sealing(s'.admin.previous, k + 1), lanes := S.SetStripe(s'.lanes, i, k, false));
    }
  }

  /** Every step of a gate that the slot does not hold back is a step of the combination. */
  lemma EveryGateStepIsKept(j: Gated, i: nat, t: nat, x: G.Gate) returns (j': Gated)
    requires Sized(j) && i < 2 && GS.AnyStep(j.gates[i], t, x) && Scheduled(j, i, t, x)
    ensures j'.gates == j.gates[i := x] && GateMove(j, i, t, j')
  {
    var g, s := j.gates[i], j.slot;
    j' := j.(gates := j.gates[i := x]);
    V.EveryStepIsSeen(g, t, x);
    if k: nat :| V.Admits(g, t, k, x) {
      j' := j'.(slot := S.Move(s, t, S.Entered(i)));
      assert AdmitReader(j, i, t, k, j');
    } else if V.GivesUp(g, t, x) {
      j' := j'.(slot := S.Move(s, t, if S.Pc(s, t).Stale? then S.Calling else S.Outside));
      assert ReleaseReader(j, i, t, j');
    } else if k: nat :| V.Closes(g, t, k, x) {
      var s' := SealThatIsDue(j, i, t, k, x);
      j' := j'.(slot := s');
      assert CloseStripe(j, i, t, k, j');
    } else if k: nat :| V.Opens(g, t, k, x) {
      j' := j'.(slot := s.(admin := S.Reopening(s.admin.previous, k + 1), lanes := S.SetStripe(s.lanes, i, k, true)));
      assert OpenStripe(j, i, t, k, j');
    } else {
      assert InternalMove(j, i, t, j');
    }
  }

  /** The slot's steps that go through a gate. */
  ghost predicate Gatewise(s: S.Slot, s': S.Slot)
    requires |s.lanes| == 2
  {
    || (exists r, k :: S.EnterLane(s, r, k, s')) || (exists r :: S.Retry(s, r, s') || S.Release(s, r, s'))
    || S.SealOne(s, s') || S.ReopenOne(s, s') || S.Prepare(s, s') || S.BeginReopen(s, s') || S.ObserveDrain(s, s')
  }

  /** Every step of the slot that does not go through a gate is a step of the combination. */
  lemma EverySlotStepIsKept(j: Gated, s': S.Slot)
    requires Sized(j) && S.Step(j.slot, s') && s' != j.slot && !Gatewise(j.slot, s')
    ensures SlotMove(j, j.(slot := s'))
  {
    if r :| S.ReaderStep(j.slot, r, s') {
      assert ReaderMove(j.slot, r, s');
    }
  }

  /** A refused reader, a free target lane and a drained claim let the slot go on. */
  lemma GatesLetTheSlotGoOn(j: Gated, t: nat)
    requires Inv(j)
    ensures var s, a := j.slot, j.slot.admin;
      && (forall k: nat :: S.Pc(s, t).Loaded? && k < |s.lanes[S.Pc(s, t).index].open| && !s.lanes[S.Pc(s, t).index].open[k] ==>
            Step(j, j.(slot := S.Move(s, t, S.Calling))))
      && (a.Replacing? ==> Step(j, j.(slot := s.(admin := S.Prepared(a.previous, a.candidate)))))
      && (a.Installing? && G.PcOf(j.gates[S.Target(a.previous)], t) == G.Claimed(G.Drained) ==>
            Step(j, j.(slot := s.(admin := S.Reopening(a.previous, 0)))))
      && (a.Retiring? && (a.previous.Some? ==> G.PcOf(j.gates[a.previous.value.index], t) == G.Claimed(G.Drained)) ==>
            Step(j, j.(slot := s.(admin := S.Drained(a.previous)))))
  {
    var s, a := j.slot, j.slot.admin;
    forall k: nat | S.Pc(s, t).Loaded? && k < |s.lanes[S.Pc(s, t).index].open| && !s.lanes[S.Pc(s, t).index].open[k]
      ensures Step(j, j.(slot := S.Move(s, t, S.Calling)))
    {
      assert RefuseReader(s, t, k, S.Move(s, t, S.Calling));
      assert ReaderMove(s, t, S.Move(s, t, S.Calling));
    }
    if a.Replacing? {
      TargetLooksFree(j);
      assert PrepareLane(j, j.(slot := s.(admin := S.Prepared(a.previous, a.candidate))));
    } else if a.Installing? && G.PcOf(j.gates[S.Target(a.previous)], t) == G.Claimed(G.Drained) {
      assert ReopenReturns(j, t, j.(slot := s.(admin := S.Reopening(a.previous, 0))));
    } else if a.Retiring? && (a.previous.Some? ==> G.PcOf(j.gates[a.previous.value.index], t) == G.Claimed(G.Drained)) {
      assert WaitReturns(j, t, j.(slot := s.(admin := S.Drained(a.previous))));
    }
  }
}
