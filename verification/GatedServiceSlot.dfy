/**
 The replaceable service slot over two real drain gates, one per lane. Permits come
 from the gate of the lane, the stripes of a lane are those of its gate, what a
 replacement tests is what the gate's counters say, and a wait for a lane is the wait
 loop of its gate.
 */
module GatedServiceSlot {
  import opened Options
  import S = ServiceSlot
  import G = DrainGate
  import GS = DrainGateSafety
  import V = GateView

  datatype Gated = Gated(slot: S.Slot, gates: seq<G.Gate>)

  predicate Sized(j: Gated) {
    |j.slot.lanes| == 2 && |j.gates| == 2
  }

  function HoldersOf(readers: map<nat, S.Reader>, i: nat): set<nat> {
    set r | r in readers && S.Holds(readers[r], i)
  }

  // Moves of one gate.

  ghost predicate Moves(j: Gated, i: nat, t: nat, j': Gated)
    requires Sized(j)
  {
    && i < 2 && |j'.gates| == 2 && j'.gates == j.gates[i := j'.gates[i]]
    && GS.AnyStep(j.gates[i], t, j'.gates[i])
  }

  ghost predicate AdmitReader(j: Gated, i: nat, t: nat, k: nat, j': Gated)
    requires Sized(j)
  {
    && Moves(j, i, t, j') && V.Admits(j.gates[i], t, k, j'.gates[i])
    && S.Pc(j.slot, t) == S.Loaded(i)
    && j'.slot == S.Move(j.slot, t, S.Entered(i))
  }

  /** A read ends, or a stale permit is given back. */
  ghost predicate ReleaseReader(j: Gated, i: nat, t: nat, j': Gated)
    requires Sized(j)
  {
    && Moves(j, i, t, j') && V.GivesUp(j.gates[i], t, j'.gates[i])
    && (S.Retry(j.slot, t, j'.slot) || S.Release(j.slot, t, j'.slot))
  }

  ghost predicate CloseStripe(j: Gated, i: nat, t: nat, k: nat, j': Gated)
    requires Sized(j)
  {
    && Moves(j, i, t, j') && V.Closes(j.gates[i], t, k, j'.gates[i])
    && var s, a := j.slot, j.slot.admin;
       || (j'.slot == s && k < |s.lanes[i].open| && !s.lanes[i].open[k])
       || (S.SealOne(s, j'.slot) && a.previous.value.index == i && a.next == k)
  }

  ghost predicate OpenStripe(j: Gated, i: nat, t: nat, k: nat, j': Gated)
    requires Sized(j)
  {
    && Moves(j, i, t, j') && V.Opens(j.gates[i], t, k, j'.gates[i])
    && S.ReopenOne(j.slot, j'.slot) && S.Target(j.slot.admin.previous) == i && j.slot.admin.next == k
  }

  ghost predicate InternalMove(j: Gated, i: nat, t: nat, j': Gated)
    requires Sized(j)
  {
    Moves(j, i, t, j') && V.Internal(j.gates[i], t, j'.gates[i]) && j'.slot == j.slot
  }

  ghost predicate GateMove(j: Gated, i: nat, t: nat, j': Gated)
    requires Sized(j)
  {
    || (exists k :: AdmitReader(j, i, t, k, j')) || ReleaseReader(j, i, t, j')
    || (exists k :: CloseStripe(j, i, t, k, j')) || (exists k :: OpenStripe(j, i, t, k, j'))
    || InternalMove(j, i, t, j')
  }

  // Moves of the slot.

  /** The gate refused the reader: it had loaded a lane of which it found a sealed stripe. */
  predicate RefuseReader(s: S.Slot, r: nat, k: nat, s': S.Slot)
    requires |s.lanes| == 2
  {
    && S.Pc(s, r).Loaded? && S.Pc(s, r).index < 2
    && k < |s.lanes[S.Pc(s, r).index].open| && !s.lanes[S.Pc(s, r).index].open[k]
    && s' == S.Move(s, r, S.Calling)
  }

  ghost predicate ReaderMove(s: S.Slot, r: nat, s': S.Slot)
    requires |s.lanes| == 2
  {
    || S.Call(s, r, s') || S.ReturnNothing(s, r, s') || S.Load(s, r, s') || (exists k :: RefuseReader(s, r, k, s'))
    || S.Revalidate(s, r, s') || S.Fetch(s, r, s')
  }

  ghost predicate HolderMove(s: S.Slot, s': S.Slot)
    requires |s.lanes| == 2
  {
    || (exists candidate :: S.BeginReplace(s, candidate, s')) || S.Abort(s, s') || S.Install(s, s') || S.Switch(s, s')
    || S.BeginClose(s, s') || S.SwitchOff(s, s') || S.FinishSeal(s, s') || S.Reclaim(s, s') || S.Unlock(s, s')
  }

  ghost predicate SlotMove(j: Gated, j': Gated)
    requires Sized(j)
  {
    && j'.gates == j.gates
    && ((exists r :: ReaderMove(j.slot, r, j'.slot)) || HolderMove(j.slot, j'.slot))
  }

  /** What a replacement, and `reset`, test of a lane: sealed, no count, no pointer. */
  predicate LooksFree(j: Gated, i: nat)
    requires Sized(j) && i < 2
  {
    GS.AllSealed(j.gates[i].stripes) && GS.AllIdle(j.gates[i].stripes) && j.slot.lanes[i].published.None?
  }

  predicate PrepareLane(j: Gated, j': Gated)
    requires Sized(j)
  {
    && j.slot.admin.Replacing? && LooksFree(j, S.Target(j.slot.admin.previous))
    && j' == j.(slot := j.slot.(admin := S.Prepared(j.slot.admin.previous, j.slot.admin.candidate)))
  }

  /** The wait of a reopening returns on the target lane. */
  predicate ReopenReturns(j: Gated, t: nat, j': Gated)
    requires Sized(j)
  {
    && j.slot.admin.Installing?
    && G.PcOf(j.gates[S.Target(j.slot.admin.previous)], t) == G.Claimed(G.Drained)
    && j' == j.(slot := j.slot.(admin := S.Reopening(j.slot.admin.previous, 0)))
  }

  /** The wait on the retired lane returns; there is nothing to wait for without one. */
  predicate WaitReturns(j: Gated, t: nat, j': Gated)
    requires Sized(j)
  {
    && j.slot.admin.Retiring?
    && (j.slot.admin.previous.Some? ==>
          && j.slot.admin.previous.value.index < 2
          && G.PcOf(j.gates[j.slot.admin.previous.value.index], t) == G.Claimed(G.Drained))
    && j' == j.(slot := j.slot.(admin := S.Drained(j.slot.admin.previous)))
  }

  ghost predicate Step(j: Gated, j': Gated) {
    && Sized(j)
    && (SlotMove(j, j') || PrepareLane(j, j')
        || (exists t :: ReopenReturns(j, t, j')) || (exists t :: WaitReturns(j, t, j'))
        || (exists i, t :: GateMove(j, i, t, j')))
  }
}
