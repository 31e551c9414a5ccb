/**
 The rotating read domain over two real drain gates. Readers are admitted and leave
 through a gate, the stripes of a generation are those of its gate, and a wait for a
 generation is the wait loop of its gate, with its lock, its scan and its parking.
 Only a claim that has come back from that wait lets the domain go on.
 */
module GatedReadDomain {
  import D = RotatingReadDomain
  import G = DrainGate
  import GS = DrainGateSafety
  import V = GateView

  datatype Gated = Gated(domain: D.Domain, gates: seq<G.Gate>)

  predicate Sized(j: Gated) {
    D.Sized(j.domain) && |j.gates| == 2
  }

  function InsideOf(readers: map<nat, D.Reader>, g: nat): set<nat> {
    set r | r in readers && readers[r].Inside? && readers[r].generation == g
  }

  // Moves of one gate.

  /** Thread `t` moves in gate `g`. Nobody waits for a generation without its claim. */
  ghost predicate Moves(j: Gated, g: nat, t: nat, j': Gated)
    requires Sized(j)
  {
    && g < 2 && |j'.gates| == 2 && j'.gates == j.gates[g := j'.gates[g]]
    && GS.AnyStep(j.gates[g], t, j'.gates[g])
    && !(G.PcOf(j.gates[g], t).Outside? && G.PcOf(j'.gates[g], t).Queued?)
  }

  ghost predicate AdmitReader(j: Gated, g: nat, t: nat, i: nat, j': Gated)
    requires Sized(j)
  {
    && Moves(j, g, t, j') && V.Admits(j.gates[g], t, i, j'.gates[g])
    && D.ReaderOf(j.domain, t) == D.Chosen(g)
    && j'.domain == D.SetReader(j.domain, t, D.Inside(g, {}))
  }

  ghost predicate ReleaseReader(j: Gated, g: nat, t: nat, j': Gated)
    requires Sized(j)
  {
    && Moves(j, g, t, j') && V.GivesUp(j.gates[g], t, j'.gates[g])
    && j'.domain == D.SetReader(j.domain, t, D.Away)
  }

  /** A stripe is sealed for a rotation, for an idle rotation or for closure, or once more. */
  ghost predicate CloseStripe(j: Gated, g: nat, t: nat, k: nat, j': Gated)
    requires Sized(j)
  {
    && Moves(j, g, t, j') && V.Closes(j.gates[g], t, k, j'.gates[g])
    && var d, q := j.domain, j.domain.rotation;
       || (j'.domain == d && k < |d.open[g]| && !d.open[g][k])
       || (D.SealOne(d, j'.domain) && q.retiring == g && q.next == k)
       || (D.IdleSealOne(d, j'.domain) && j'.domain.rotation.IdleSealing? && q.retiring == g && q.next == k)
       || (D.CloseOne(d, j'.domain) && q.generation == g && q.next == k)
  }

  /** A stripe is opened to undo an idle seal, or to reuse the generation. */
  ghost predicate OpenStripe(j: Gated, g: nat, t: nat, k: nat, j': Gated)
    requires Sized(j)
  {
    && Moves(j, g, t, j') && V.Opens(j.gates[g], t, k, j'.gates[g])
    && var d, q := j.domain, j.domain.rotation;
       || (G.UndoOne(j.gates[g], t, j'.gates[g]) && D.UndoOne(d, j'.domain) && q.retiring == g && q.next == k)
       || (G.ReopenOne(j.gates[g], t, j'.gates[g]) && D.ReopenOne(d, j'.domain) && q.retiring == 1 - g && q.next == k)
  }

  ghost predicate InternalMove(j: Gated, g: nat, t: nat, j': Gated)
    requires Sized(j)
  {
    Moves(j, g, t, j') && V.Internal(j.gates[g], t, j'.gates[g]) && j'.domain == j.domain
  }

  // Moves of the domain.

  /** A wait has returned: the claim on the retired generation knows it drained. */
  predicate WaitReturns(j: Gated, t: nat, j': Gated)
    requires Sized(j)
  {
    && j.domain.rotation.Waiting? && j.domain.rotation.retiring < 2
    && G.PcOf(j.gates[j.domain.rotation.retiring], t) == G.Claimed(G.Drained)
    && j' == j.(domain := j.domain.(rotation := D.Drained(j.domain.rotation.retiring)))
  }

  predicate CloseReturns(j: Gated, t: nat, j': Gated)
    requires Sized(j)
  {
    var q := j.domain.rotation;
    && q.Closing? && q.generation < 2 && q.next == |j.domain.open[q.generation]|
    && G.PcOf(j.gates[q.generation], t) == G.Claimed(G.Drained)
    && j' == j.(domain := if q.generation == 0 then j.domain.(rotation := D.Closing(1, 0))
                          else j.domain.(rotation := D.Closed, terminal := true))
  }

  predicate LoseIdleSeal(d: D.Domain, d': D.Domain)
    requires D.Sized(d)
  {
    && d.rotation.IdleSealing? && d.rotation.retiring < 2 && d.rotation.next < |d.open[d.rotation.retiring]|
    && d' == d.(rotation := D.Undoing(d.rotation.retiring, 0, d.rotation.next))
  }

  ghost predicate ReaderMove(d: D.Domain, r: nat, d': D.Domain)
    requires D.Sized(d)
  {
    || D.Call(d, r, d') || D.Poll(d, r, d') || D.ReturnClosed(d, r, d') || D.Select(d, r, d')
    || (exists x :: D.Access(d, r, x, d')) || (exists i :: D.Refuse(d, r, i, d'))
  }

  ghost predicate HolderMove(d: D.Domain, d': D.Domain)
    requires D.Sized(d)
  {
    || D.Enter(d, d') || D.Leave(d, d') || D.Begin(d, d') || D.GiveUp(d, d') || D.BeginSeal(d, d')
    || LoseIdleSeal(d, d') || D.FinishSeal(d, d') || D.RecordPending(d, d') || D.Publish(d, d') || D.ReleaseBarrier(d, d')
  }

  ghost predicate ReclaimMove(d: D.Domain, d': D.Domain)
    requires D.Sized(d)
  {
    || D.LockToTake(d, d') || D.Take(d, d') || D.ClearPending(d, d') || D.BeginClose(d, d')
    || (exists g :: D.TakeAfterClose(d, g, d'))
  }

  /** A step that involves no gate. */
  ghost predicate DomainMove(j: Gated, j': Gated)
    requires Sized(j)
  {
    && j'.gates == j.gates
    && ((exists r :: ReaderMove(j.domain, r, j'.domain)) || (exists w :: D.WriterStep(j.domain, w, j'.domain))
        || HolderMove(j.domain, j'.domain) || ReclaimMove(j.domain, j'.domain))
  }

  ghost predicate GateMove(j: Gated, g: nat, t: nat, j': Gated)
    requires Sized(j)
  {
    || (exists i :: AdmitReader(j, g, t, i, j')) || ReleaseReader(j, g, t, j')
    || (exists k :: CloseStripe(j, g, t, k, j')) || (exists k :: OpenStripe(j, g, t, k, j'))
    || InternalMove(j, g, t, j')
  }

  ghost predicate Step(j: Gated, j': Gated) {
    && Sized(j)
    && (DomainMove(j, j')
        || (exists t :: WaitReturns(j, t, j')) || (exists t :: CloseReturns(j, t, j'))
        || (exists g, t :: GateMove(j, g, t, j')))
  }
}
