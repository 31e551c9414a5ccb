/**
 The rotating read domain keeps its promises when its generations are real drain
 gates: every step of the combination is a step of the domain or none,
 because a wait that returned has emptied the gate, and the rotation that reuses a
 generation always finds its gate deserted with the notification lock free.
 */
module GatedReadSafety {
  import opened Options
  import opened GatedReadDomain
  import D = RotatingReadDomain
  import DS = RotatingReadSafety
  import G = DrainGate
  import GS = DrainGateSafety
  import V = GateView

  /** Each generation's stripes and readers are those of its gate. */
  predicate Viewed(d: D.Domain, gates: seq<G.Gate>) {
    && D.Sized(d) && |gates| == 2
    && V.Shows(gates[0], d.open[0], InsideOf(d.readers, 0))
    && V.Shows(gates[1], d.open[1], InsideOf(d.readers, 1))
  }

  ghost predicate Supervised(s: G.Gate) {
    forall t: nat :: G.PcOf(s, t).Queued? || G.PcOf(s, t).Scanning? || G.PcOf(s, t).Parked? ==> G.PcOf(s, t).mode.Under?
  }

  /** Generation `g` is the one to be reused, or the one being emptied. */
  predicate Demands(current: nat, pending: Option<nat>, q: D.Rotation, g: nat) {
    ((pending.None? || q.Publishing?) && current + g == 1) || (DS.AfterDrain(q) && q.retiring == g)
  }

  ghost predicate Abandoned(current: nat, pending: Option<nat>, q: D.Rotation, gates: seq<G.Gate>) {
    && |gates| == 2
    && (Demands(current, pending, q, 0) ==> GS.Deserted(gates[0]))
    && (Demands(current, pending, q, 1) ==> GS.Deserted(gates[1]))
  }

  ghost predicate GatesInv(gates: seq<G.Gate>) {
    |gates| == 2 && GS.Inv(gates[0]) && GS.Inv(gates[1]) && Supervised(gates[0]) && Supervised(gates[1])
  }

  ghost predicate Inv(j: Gated) {
    && Sized(j)
    && DS.Inv(j.domain)
    && GatesInv(j.gates)
    && Viewed(j.domain, j.gates)
    && Abandoned(j.domain.current, j.domain.pending, j.domain.rotation, j.gates)
  }

  // Gates.

  lemma SupervisionStays(s: G.Gate, t: nat, s': G.Gate)
    requires Supervised(s) && GS.AnyStep(s, t, s') && !(G.PcOf(s, t).Outside? && G.PcOf(s', t).Queued?)
    ensures Supervised(s')
  {
    MoverStaysSupervised(s, t, s');
    forall u: nat | G.PcOf(s', u).Queued? || G.PcOf(s', u).Scanning? || G.PcOf(s', u).Parked?
      ensures G.PcOf(s', u).mode.Under?
    {
      if u != t {
        GS.OthersKeepTheirPlace(s, t, s', u);
      }
    }
  }

  lemma MoverStaysSupervised(s: G.Gate, t: nat, s': G.Gate)
    requires Supervised(s) && GS.AnyStep(s, t, s') && !(G.PcOf(s, t).Outside? && G.PcOf(s', t).Queued?)
    ensures G.PcOf(s', t).Queued? || G.PcOf(s', t).Scanning? || G.PcOf(s', t).Parked? ==> G.PcOf(s', t).mode.Under?
  {
  }

  lemma GateStepKeepsInv(s: G.Gate, t: nat, s': G.Gate)
    requires GS.Inv(s) && GS.AnyStep(s, t, s')
    ensures GS.Inv(s')
  {
    assert G.Step(s, s');
    GS.StepKeepsInv(s, s');
  }

  lemma MovingKeepsGatesInv(j: Gated, g: nat, t: nat, j': Gated)
    requires Sized(j) && GatesInv(j.gates) && Moves(j, g, t, j')
    ensures GatesInv(j'.gates)
  {
    GateStepKeepsInv(j.gates[g], t, j'.gates[g]);
    SupervisionStays(j.gates[g], t, j'.gates[g]);
  }

  lemma ReopeningUnseals(s: G.Gate, u: nat, s': G.Gate)
    requires G.ReopenOne(s, u, s')
    ensures !GS.AllSealed(s'.stripes)
  {
    assert !s'.stripes[G.PcOf(s, u).next].sealed;
  }

  /** A deserted gate whose stripes are still sealed after a step is still deserted. */
  lemma StaysDeserted(s: G.Gate, t: nat, s': G.Gate)
    requires GS.Inv(s) && GS.AnyStep(s, t, s') && GS.Deserted(s) && GS.AllSealed(s'.stripes)
    ensures GS.Deserted(s')
  {
    assert G.Step(s, s');
    if u :| G.ReopenOne(s, u, s') {
      ReopeningUnseals(s, u, s');
    }
    GS.DesertedStepStaysDeserted(s, s');
  }

  lemma ShownSealed(s: G.Gate, open: seq<bool>, inside: set<nat>)
    requires V.Shows(s, open, inside)
    ensures GS.AllSealed(s.stripes) <==> D.FullySealed(open)
  {
    if D.FullySealed(open) {
      forall i | 0 <= i < |s.stripes|
        ensures s.stripes[i].sealed
      {
        assert !open[i];
      }
    }
    if GS.AllSealed(s.stripes) {
      forall i | 0 <= i < |open|
        ensures !open[i]
      {
        assert s.stripes[i].sealed;
      }
    }
  }

  // The view.

  lemma InsideAfter(readers: map<nat, D.Reader>, t: nat, x: D.Reader, g: nat)
    ensures InsideOf(readers[t := x], g)
         == if x.Inside? && x.generation == g then InsideOf(readers, g) + {t} else InsideOf(readers, g) - {t}
  {
  }

  /** A reader that is inside neither before nor after a move, or keeps its place, does not change the view. */
  lemma InsideUnchanged(readers: map<nat, D.Reader>, t: nat, x: D.Reader, g: nat)
    requires t in InsideOf(readers, g) <==> x.Inside? && x.generation == g
    ensures InsideOf(readers[t := x], g) == InsideOf(readers, g)
  {
    InsideAfter(readers, t, x, g);
  }

  /** The waits are sound: a gate whose claim knows it drained makes its generation sealed and idle. */
  lemma DrainedGateEmptiesItsGeneration(j: Gated, g: nat, t: nat)
    requires Inv(j) && g < 2 && G.PcOf(j.gates[g], t) == G.Claimed(G.Drained)
    ensures GS.Deserted(j.gates[g]) && D.FullySealed(j.domain.open[g]) && D.Idle(j.domain.readers, g)
  {
    GS.DrainedIsDeserted(j.gates[g], t);
    DesertedGateEmptiesItsGeneration(j, g);
  }

  lemma DesertedGateEmptiesItsGeneration(j: Gated, g: nat)
    requires Inv(j) && g < 2 && GS.Deserted(j.gates[g])
    ensures D.FullySealed(j.domain.open[g]) && D.Idle(j.domain.readers, g)
  {
    var readers := j.domain.readers;
    V.DesertedShows(j.gates[g], j.domain.open[g], InsideOf(readers, g));
    forall r | r in readers && readers[r].Inside?
      ensures readers[r].generation != g
    {
      assert r !in InsideOf(readers, g);
    }
  }

  // Moves of one gate.

  /** All but the domain's own invariant. */
  ghost predicate Settled(j: Gated) {
    && Sized(j) && GatesInv(j.gates) && Viewed(j.domain, j.gates)
    && Abandoned(j.domain.current, j.domain.pending, j.domain.rotation, j.gates)
  }

  /** The domain takes one of its own steps, or none. */
  ghost predicate Projects(j: Gated, j': Gated) {
    D.Step(j.domain, j'.domain)
  }

  /** A move in gate `g` that opens nothing in a deserted gate leaves what is abandoned abandoned. */
  lemma MovingKeepsAbandoned(j: Gated, g: nat, t: nat, j': Gated, q: D.Rotation)
    requires Sized(j) && g < 2 && GS.Inv(j.gates[g]) && Moves(j, g, t, j')
    requires Abandoned(j.domain.current, j.domain.pending, q, j.gates)
    requires GS.Deserted(j.gates[g]) ==> GS.AllSealed(j'.gates[g].stripes)
    ensures Abandoned(j.domain.current, j.domain.pending, q, j'.gates)
  {
    if GS.Deserted(j.gates[g]) {
      StaysDeserted(j.gates[g], t, j'.gates[g]);
    }
  }

  lemma StillSealed(j: Gated, g: nat, s': G.Gate, inside: set<nat>)
    requires Viewed(j.domain, j.gates) && g < 2 && V.Shows(s', j.domain.open[g], inside)
    ensures GS.Deserted(j.gates[g]) ==> GS.AllSealed(s'.stripes)
  {
    ShownSealed(j.gates[g], j.domain.open[g], InsideOf(j.domain.readers, g));
    ShownSealed(s', j.domain.open[g], inside);
  }

  lemma AdmitIsSound(j: Gated, g: nat, t: nat, i: nat, j': Gated)
    requires Settled(j) && AdmitReader(j, g, t, i, j')
    ensures Projects(j, j') && Viewed(j'.domain, j'.gates)
    ensures Abandoned(j'.domain.current, j'.domain.pending, j'.domain.rotation, j'.gates)
  {
    var d, x := j.domain, D.Inside(g, {});
    V.AdmittingShows(j.gates[g], t, i, j'.gates[g], d.open[g], InsideOf(d.readers, g));
    assert D.Admit(d, t, i, j'.domain);
    assert D.ReaderStep(d, t, j'.domain);
    InsideAfter(d.readers, t, x, g);
    InsideUnchanged(d.readers, t, x, 1 - g);
    StillSealed(j, g, j'.gates[g], InsideOf(d.readers, g) + {t});
    MovingKeepsAbandoned(j, g, t, j', d.rotation);
  }

  lemma ReleaseIsSound(j: Gated, g: nat, t: nat, j': Gated)
    requires Settled(j) && ReleaseReader(j, g, t, j')
    ensures Projects(j, j') && Viewed(j'.domain, j'.gates)
    ensures Abandoned(j'.domain.current, j'.domain.pending, j'.domain.rotation, j'.gates)
  {
    var d := j.domain;
    V.GivingUpShows(j.gates[g], t, j'.gates[g], d.open[g], InsideOf(d.readers, g));
    assert D.Exit(d, t, j'.domain);
    assert D.ReaderStep(d, t, j'.domain);
    InsideAfter(d.readers, t, D.Away, g);
    InsideUnchanged(d.readers, t, D.Away, 1 - g);
    StillSealed(j, g, j'.gates[g], InsideOf(d.readers, g) - {t});
    MovingKeepsAbandoned(j, g, t, j', d.rotation);
  }

  lemma InternalIsSound(j: Gated, g: nat, t: nat, j': Gated)
    requires Settled(j) && InternalMove(j, g, t, j')
    ensures Projects(j, j') && Viewed(j'.domain, j'.gates)
    ensures Abandoned(j'.domain.current, j'.domain.pending, j'.domain.rotation, j'.gates)
  {
    var d := j.domain;
    V.InternalShows(j.gates[g], t, j'.gates[g], d.open[g], InsideOf(d.readers, g));
    StillSealed(j, g, j'.gates[g], InsideOf(d.readers, g));
    MovingKeepsAbandoned(j, g, t, j', d.rotation);
  }

  /** What sealing or opening a stripe does to the domain besides the stripe. */
  predicate OnlyStripe(d: D.Domain, g: nat, k: nat, admits: bool, d': D.Domain) {
    && D.Sized(d) && g < 2 && k < |d.open[g]|
    && d'.open == d.open[g := d.open[g][k := admits]]
    && d'.readers == d.readers && d'.current == d.current && d'.pending == d.pending && D.Sized(d')
  }

  /** The rotation is at a place that asks nothing of the gates beyond what `pending` asks. */
  predicate Undemanding(q: D.Rotation) {
    !q.Publishing? && !DS.AfterDrain(q)
  }

  lemma CloseProjects(d: D.Domain, g: nat, k: nat, d': D.Domain)
    requires D.Sized(d) && g < 2
    requires || (D.SealOne(d, d') && d.rotation.retiring == g && d.rotation.next == k)
             || (D.IdleSealOne(d, d') && d'.rotation.IdleSealing? && d.rotation.retiring == g && d.rotation.next == k)
             || (D.CloseOne(d, d') && d.rotation.generation == g && d.rotation.next == k)
    ensures D.Step(d, d') && Undemanding(d'.rotation) && OnlyStripe(d, g, k, false, d')
  {
    assert D.CloseOne(d, d') ==> D.ReclaimStep(d, d');
  }

  /** A rotation only opens the current generation, or the one it has just published. */
  lemma OpenProjects(d: D.Domain, g: nat, k: nat, d': D.Domain)
    requires DS.Phased(d) && g < 2
    requires || (D.UndoOne(d, d') && d.rotation.retiring == g && d.rotation.next == k)
             || (D.ReopenOne(d, d') && d.rotation.retiring == 1 - g && d.rotation.next == k)
    ensures D.Step(d, d') && Undemanding(d'.rotation) && OnlyStripe(d, g, k, true, d') && g == d.current
  {
    assert D.RotationStep(d, d');
  }

  /** The other gate, and the other generation, show what they showed. */
  lemma ViewAfterStripe(d: D.Domain, gates: seq<G.Gate>, g: nat, k: nat, admits: bool, d': D.Domain, gates': seq<G.Gate>)
    requires Viewed(d, gates) && OnlyStripe(d, g, k, admits, d')
    requires |gates'| == 2 && gates'[1 - g] == gates[1 - g]
    requires V.Shows(gates'[g], d.open[g][k := admits], InsideOf(d.readers, g))
    ensures Viewed(d', gates')
  {
  }

  lemma ClosingKeepsView(j: Gated, g: nat, t: nat, k: nat, j': Gated)
    requires Viewed(j.domain, j.gates) && OnlyStripe(j.domain, g, k, false, j'.domain)
    requires Sized(j) && Moves(j, g, t, j') && V.Closes(j.gates[g], t, k, j'.gates[g])
    ensures Viewed(j'.domain, j'.gates)
    ensures GS.AllSealed(j.gates[g].stripes) ==> GS.AllSealed(j'.gates[g].stripes)
  {
    var d := j.domain;
    V.ClosingShows(j.gates[g], t, k, j'.gates[g], d.open[g], InsideOf(d.readers, g));
    ViewAfterStripe(d, j.gates, g, k, false, j'.domain, j'.gates);
    ShownSealed(j.gates[g], d.open[g], InsideOf(d.readers, g));
    ShownSealed(j'.gates[g], d.open[g][k := false], InsideOf(d.readers, g));
  }

  lemma OpeningKeepsView(j: Gated, g: nat, t: nat, k: nat, j': Gated)
    requires Viewed(j.domain, j.gates) && OnlyStripe(j.domain, g, k, true, j'.domain)
    requires Sized(j) && Moves(j, g, t, j') && V.Opens(j.gates[g], t, k, j'.gates[g])
    ensures Viewed(j'.domain, j'.gates)
  {
    var d := j.domain;
    V.OpeningShows(j.gates[g], t, k, j'.gates[g], d.open[g], InsideOf(d.readers, g));
    ViewAfterStripe(d, j.gates, g, k, true, j'.domain, j'.gates);
  }

  lemma ResealingChangesNothing(d: D.Domain, g: nat, k: nat)
    requires D.Sized(d) && g < 2 && k < |d.open[g]| && !d.open[g][k]
    ensures OnlyStripe(d, g, k, false, d)
  {
    assert d.open[g][k := false] == d.open[g];
  }

  /** Whatever `d'` asks of the gates, `d` asked already. */
  ghost predicate DemandsNoMore(d: D.Domain, d': D.Domain) {
    forall g: nat :: Demands(d'.current, d'.pending, d'.rotation, g) ==> Demands(d.current, d.pending, d.rotation, g)
  }

  lemma CloseEffect(j: Gated, g: nat, t: nat, k: nat, j': Gated)
    requires Sized(j) && CloseStripe(j, g, t, k, j')
    ensures Projects(j, j') && OnlyStripe(j.domain, g, k, false, j'.domain) && DemandsNoMore(j.domain, j'.domain)
  {
    if j'.domain == j.domain {
      ResealingChangesNothing(j.domain, g, k);
    } else {
      CloseProjects(j.domain, g, k, j'.domain);
    }
  }

  lemma CloseIsSound(j: Gated, g: nat, t: nat, k: nat, j': Gated)
    requires Settled(j) && CloseStripe(j, g, t, k, j')
    ensures Projects(j, j') && Viewed(j'.domain, j'.gates)
    ensures Abandoned(j'.domain.current, j'.domain.pending, j'.domain.rotation, j'.gates)
  {
    CloseEffect(j, g, t, k, j');
    ClosingKeepsView(j, g, t, k, j');
    MovingKeepsAbandoned(j, g, t, j', j.domain.rotation);
  }

  lemma OpenIsSound(j: Gated, g: nat, t: nat, k: nat, j': Gated)
    requires Settled(j) && DS.Phased(j.domain) && OpenStripe(j, g, t, k, j')
    ensures Projects(j, j') && Viewed(j'.domain, j'.gates)
    ensures Abandoned(j'.domain.current, j'.domain.pending, j'.domain.rotation, j'.gates)
  {
    OpenProjects(j.domain, g, k, j'.domain);
    OpeningKeepsView(j, g, t, k, j');
    assert j'.gates[1 - g] == j.gates[1 - g];
  }

  // Moves of the domain.

  /** Neither the stripes nor who is inside which generation changes. */
  predicate SameView(d: D.Domain, d': D.Domain) {
    d'.open == d.open && InsideOf(d'.readers, 0) == InsideOf(d.readers, 0) && InsideOf(d'.readers, 1) == InsideOf(d.readers, 1)
  }

  predicate SamePhase(d: D.Domain, d': D.Domain) {
    d'.current == d.current && d'.pending == d.pending && d'.rotation == d.rotation
  }

  lemma ReaderMoveIsUnseen(d: D.Domain, r: nat, d': D.Domain)
    requires D.Sized(d) && ReaderMove(d, r, d')
    ensures D.ReaderStep(d, r, d') && SameView(d, d') && SamePhase(d, d')
  {
    InsideUnchanged(d.readers, r, d'.readers[r], 0);
    InsideUnchanged(d.readers, r, d'.readers[r], 1);
  }

  lemma WriterMoveIsUnseen(d: D.Domain, w: nat, d': D.Domain)
    requires D.Sized(d) && D.WriterStep(d, w, d')
    ensures d'.readers == d.readers && SameView(d, d') && SamePhase(d, d')
  {
    DS.WritersLeaveAdmission(d, w, d');
  }

  lemma HolderMoveIsAStep(d: D.Domain, d': D.Domain)
    requires D.Sized(d) && HolderMove(d, d')
    ensures D.RotationStep(d, d')
  {
    assert LoseIdleSeal(d, d') ==> D.IdleSealOne(d, d');
  }

  lemma HolderMoveIsUnseen(d: D.Domain, d': D.Domain)
    requires D.Sized(d) && HolderMove(d, d')
    ensures d'.readers == d.readers && d'.open == d.open
  {
    if D.Begin(d, d') || D.GiveUp(d, d') || D.ReleaseBarrier(d, d') {
      LockingIsUnseen(d, d');
    }
  }

  lemma LockingIsUnseen(d: D.Domain, d': D.Domain)
    requires D.Sized(d) && (D.Begin(d, d') || D.GiveUp(d, d') || D.ReleaseBarrier(d, d'))
    ensures d'.readers == d.readers && d'.open == d.open
  {
  }

  lemma ReclaimMoveIsUnseen(d: D.Domain, d': D.Domain)
    requires D.Sized(d) && ReclaimMove(d, d')
    ensures D.ReclaimStep(d, d') && SameView(d, d')
  {
  }

  lemma HolderDemandsNoMore(d: D.Domain, d': D.Domain, g: nat)
    requires D.Sized(d) && DS.Phases(d.current, d.closed, d.open, d.pending, d.rotation, d.terminal)
    requires HolderMove(d, d') && Demands(d'.current, d'.pending, d'.rotation, g)
    ensures Demands(d.current, d.pending, d.rotation, g)
  {
  }

  /** Clearing `pending` makes the emptied generation the one to be reused. */
  lemma ReclaimDemandsNoMore(d: D.Domain, d': D.Domain, g: nat)
    requires D.Sized(d) && DS.Phases(d.current, d.closed, d.open, d.pending, d.rotation, d.terminal)
    requires ReclaimMove(d, d') && Demands(d'.current, d'.pending, d'.rotation, g)
    ensures Demands(d.current, d.pending, d.rotation, g)
  {
  }

  lemma MoveKeepsAbandoned(d: D.Domain, d': D.Domain, gates: seq<G.Gate>)
    requires D.Sized(d) && DS.Phases(d.current, d.closed, d.open, d.pending, d.rotation, d.terminal)
    requires (HolderMove(d, d') || ReclaimMove(d, d')) && Abandoned(d.current, d.pending, d.rotation, gates)
    ensures Abandoned(d'.current, d'.pending, d'.rotation, gates)
  {
    forall g: nat | Demands(d'.current, d'.pending, d'.rotation, g)
      ensures Demands(d.current, d.pending, d.rotation, g)
    {
      if HolderMove(d, d') {
        HolderDemandsNoMore(d, d', g);
      } else {
        ReclaimDemandsNoMore(d, d', g);
      }
    }
  }

  lemma DomainMoveIsSound(j: Gated, j': Gated)
    requires Inv(j) && DomainMove(j, j')
    ensures Projects(j, j') && SameView(j.domain, j'.domain)
    ensures Abandoned(j'.domain.current, j'.domain.pending, j'.domain.rotation, j'.gates)
  {
    var d, d' := j.domain, j'.domain;
    if r :| ReaderMove(d, r, d') {
      ReaderMoveIsUnseen(d, r, d');
    } else if w :| D.WriterStep(d, w, d') {
      WriterMoveIsUnseen(d, w, d');
    } else if HolderMove(d, d') {
      HolderMoveIsAStep(d, d');
      HolderMoveIsUnseen(d, d');
      MoveKeepsAbandoned(d, d', j.gates);
    } else {
      ReclaimMoveIsUnseen(d, d');
      MoveKeepsAbandoned(d, d', j.gates);
    }
  }

  /** The claim has come back from the gate's own wait, so the domain's guard holds. */
  lemma WaitIsSound(j: Gated, t: nat, j': Gated)
    requires Inv(j) && WaitReturns(j, t, j')
    ensures Projects(j, j') && SameView(j.domain, j'.domain)
    ensures Abandoned(j'.domain.current, j'.domain.pending, j'.domain.rotation, j'.gates)
  {
    DrainedGateEmptiesItsGeneration(j, j.domain.rotation.retiring, t);
    assert D.ObserveDrain(j.domain, j'.domain);
    assert D.ReclaimStep(j.domain, j'.domain);
  }

  lemma CloseWaitIsSound(j: Gated, t: nat, j': Gated)
    requires Inv(j) && CloseReturns(j, t, j')
    ensures Projects(j, j') && SameView(j.domain, j'.domain)
    ensures Abandoned(j'.domain.current, j'.domain.pending, j'.domain.rotation, j'.gates)
  {
    DrainedGateEmptiesItsGeneration(j, j.domain.rotation.generation, t);
    ClosingStep(j.domain, j'.domain);
  }

  lemma ClosingStep(d: D.Domain, d': D.Domain)
    requires D.Sized(d) && D.FinishClose(d, d')
    ensures D.Step(d, d') && SameView(d, d')
    ensures DemandsNoMore(d, d')
  {
    assert D.ReclaimStep(d, d');
  }

  // Whole runs.

  lemma ProjectingKeepsDomainInv(j: Gated, j': Gated)
    requires DS.Inv(j.domain) && Projects(j, j')
    ensures DS.Inv(j'.domain)
  {
    DS.StepKeepsInv(j.domain, j'.domain);
  }

  lemma SameViewKeepsViewed(d: D.Domain, d': D.Domain, gates: seq<G.Gate>)
    requires Viewed(d, gates) && SameView(d, d') && D.Sized(d')
    ensures Viewed(d', gates)
  {
  }

  lemma DomainStepIsSound(j: Gated, j': Gated)
    requires Inv(j) && (DomainMove(j, j') || (exists t :: WaitReturns(j, t, j')) || (exists t :: CloseReturns(j, t, j')))
    ensures Projects(j, j') && Inv(j')
  {
    if DomainMove(j, j') {
      DomainMoveIsSound(j, j');
    } else if t :| WaitReturns(j, t, j') {
      WaitIsSound(j, t, j');
    } else {
      var t :| CloseReturns(j, t, j');
      CloseWaitIsSound(j, t, j');
    }
    ProjectingKeepsDomainInv(j, j');
    SameViewKeepsViewed(j.domain, j'.domain, j.gates);
  }

  lemma GateMoveMoves(j: Gated, g: nat, t: nat, j': Gated)
    requires Sized(j) && GateMove(j, g, t, j')
    ensures Moves(j, g, t, j')
  {
  }

  lemma GateMoveIsSound(j: Gated, g: nat, t: nat, j': Gated)
    requires Inv(j) && GateMove(j, g, t, j')
    ensures Projects(j, j') && Viewed(j'.domain, j'.gates)
    ensures Abandoned(j'.domain.current, j'.domain.pending, j'.domain.rotation, j'.gates)
  {
    if i :| AdmitReader(j, g, t, i, j') {
      AdmitIsSound(j, g, t, i, j');
    } else if ReleaseReader(j, g, t, j') {
      ReleaseIsSound(j, g, t, j');
    } else if k :| CloseStripe(j, g, t, k, j') {
      CloseIsSound(j, g, t, k, j');
    } else if k :| OpenStripe(j, g, t, k, j') {
      OpenIsSound(j, g, t, k, j');
    } else {
      InternalIsSound(j, g, t, j');
    }
  }

  lemma GateStepIsSound(j: Gated, g: nat, t: nat, j': Gated)
    requires Inv(j) && GateMove(j, g, t, j')
    ensures Projects(j, j') && Inv(j')
  {
    GateMoveIsSound(j, g, t, j');
    GateMoveMoves(j, g, t, j');
    MovingKeepsGatesInv(j, g, t, j');
    ProjectingKeepsDomainInv(j, j');
  }

  /** Every step over real gates is a step of the domain or none, and keeps both invariants. */
  lemma StepIsSound(j: Gated, j': Gated)
    requires Inv(j) && Step(j, j')
    ensures Projects(j, j') && Inv(j')
  {
    if g, t :| GateMove(j, g, t, j') {
      GateStepIsSound(j, g, t, j');
    } else {
      DomainStepIsSound(j, j');
    }
  }

  /** Generation zero open, generation one sealed, nobody anywhere. */
  ghost predicate Init(j: Gated) {
    && DS.Init(j.domain) && |j.gates| == 2
    && GS.Init(j.gates[0]) && GS.Init(j.gates[1])
    && V.Shows(j.gates[0], j.domain.open[0], {}) && V.Shows(j.gates[1], j.domain.open[1], {})
  }

  lemma InitKeepsInv(j: Gated)
    requires Init(j)
    ensures Inv(j)
  {
    GS.RunsKeepInv([j.gates[0]], 0);
    GS.RunsKeepInv([j.gates[1]], 0);
    ShownSealed(j.gates[1], j.domain.open[1], {});
    assert GS.Deserted(j.gates[1]);
    DS.RunsKeepInv([j.domain], 0);
  }

  ghost predicate StepsTo(run: seq<Gated>, n: nat)
    requires 0 < n < |run|
  {
    Step(run[n - 1], run[n])
  }

  ghost predicate IsRun(run: seq<Gated>) {
    && run != [] && Init(run[0])
    && (forall n: nat :: 0 < n < |run| ==> StepsTo(run, n))
  }

  lemma StepOfRunIsSound(run: seq<Gated>, n: nat)
    requires IsRun(run) && 0 < n < |run| && Inv(run[n - 1])
    ensures Projects(run[n - 1], run[n]) && Inv(run[n])
  {
    assert Step(run[n - 1], run[n]) by {
      assert StepsTo(run, n);
    }
    StepIsSound(run[n - 1], run[n]);
  }

  lemma {:induction false} RunsKeepInv(run: seq<Gated>, n: nat)
    requires IsRun(run) && n < |run|
    ensures Inv(run[n])
  {
    if n == 0 {
      InitKeepsInv(run[0]);
    } else {
      RunsKeepInv(run, n - 1);
      StepOfRunIsSound(run, n);
    }
  }

  function Domains(run: seq<Gated>): (r: seq<D.Domain>)
    ensures |r| == |run| && forall n :: 0 <= n < |run| ==> r[n] == run[n].domain
  {
    if run == [] then [] else Domains(run[..|run| - 1]) + [run[|run| - 1].domain]
  }

  lemma ProjectedStep(run: seq<Gated>, n: nat)
    requires IsRun(run) && 0 < n < |run|
    ensures D.Step(run[n - 1].domain, run[n].domain)
  {
    RunsKeepInv(run, n - 1);
    StepOfRunIsSound(run, n);
  }

  /** The domains of a run over real gates are a run of the domain, so all that was proved of its runs holds here. */
  lemma RunsProject(run: seq<Gated>)
    requires IsRun(run)
    ensures DS.IsRun(Domains(run))
  {
    var r := Domains(run);
    forall n: nat | 0 < n < |r|
      ensures DS.StepsTo(r, n)
    {
      ProjectedStep(run, n);
    }
  }

  lemma PermitMeansInside(d: D.Domain, gates: seq<G.Gate>, g: nat, t: nat)
    requires Viewed(d, gates) && g < 2 && V.HasPermit(G.PcOf(gates[g], t))
    ensures t in d.readers && d.readers[t].Inside? && d.readers[t].generation == g
  {
    assert t in V.Permits(gates[g]);
    assert t in InsideOf(d.readers, g);
  }

  /** Safe reclamation over real gates: whoever has a permit of either gate holds no delivered record. */
  lemma SafeReclamation(run: seq<Gated>, n: nat, x: D.Record, g: nat, t: nat)
    requires IsRun(run) && n < |run| && g < 2 && x in run[n].domain.delivered
    ensures |run[n].gates| == 2
    ensures V.HasPermit(G.PcOf(run[n].gates[g], t)) ==>
      var r := D.ReaderOf(run[n].domain, t);
      r.Inside? && r.generation == g && x !in r.held
  {
    var j := run[n];
    assert Viewed(j.domain, j.gates) by {
      RunsKeepInv(run, n);
    }
    if V.HasPermit(G.PcOf(j.gates[g], t)) {
      PermitMeansInside(j.domain, j.gates, g, t);
      RunsProject(run);
      DS.SafeReclamation(Domains(run), n, x);
    }
  }

  // The fail-stop of a rotation that reuses a generation.

  lemma DesertedLockIsFree(s: G.Gate, t: nat)
    requires GS.Inv(s) && GS.Deserted(s) && Supervised(s) && G.PcOf(s, t).Queued?
    ensures s.lock.None?
  {
    assert G.HasControl(G.PcOf(s, t)) <==> s.control == Some(t);
    if s.lock.Some? {
      var u := s.lock.value;
      assert G.HasLock(G.PcOf(s, u)) <==> s.lock == Some(u);
      assert G.HasControl(G.PcOf(s, u)) <==> s.control == Some(u);
      if G.PcOf(s, u).Releasing? {
        GS.NobodyOwnsAnIdleStripe(s, u, G.PcOf(s, u).stripe);
      }
    }
  }

  lemma DesertedScanStaysIdle(s: G.Gate, t: nat)
    requires GS.Inv(s) && GS.Deserted(s) && G.PcOf(s, t).Scanning?
    ensures G.PcOf(s, t).idle
  {
    assert GS.Shape(s.stripes, G.PcOf(s, t));
  }

  /** Asked whether it is drained, by thread `t` under the claim, the gate is sealed, its lock free and its scan idle. */
  ghost predicate AnswersYes(s: G.Gate, t: nat) {
    && GS.Deserted(s)
    && (G.PcOf(s, t).Queued? ==> s.lock.None?)
    && (G.PcOf(s, t).Scanning? ==> G.PcOf(s, t).idle)
    && (forall s' :: !G.LockBusy(s, t, s'))
  }

  lemma DesertedAnswersYes(s: G.Gate, t: nat)
    requires GS.Inv(s) && GS.Deserted(s) && Supervised(s)
    ensures AnswersYes(s, t)
  {
    if G.PcOf(s, t).Queued? {
      DesertedLockIsFree(s, t);
    } else if G.PcOf(s, t).Scanning? {
      DesertedScanStaysIdle(s, t);
    }
  }

  lemma ReplacementIsDeserted(j: Gated)
    requires DS.Phased(j.domain) && DS.BeforePublication(j.domain.rotation)
    requires Abandoned(j.domain.current, j.domain.pending, j.domain.rotation, j.gates)
    ensures j.domain.rotation.retiring < 2 && GS.Deserted(j.gates[1 - j.domain.rotation.retiring])
  {
    var q := j.domain.rotation;
    assert DS.InProgress(q);
    assert Demands(j.domain.current, j.domain.pending, q, 1 - q.retiring);
  }

  lemma ReplacementAnswersYes(j: Gated, t: nat)
    requires Settled(j) && DS.Phased(j.domain) && DS.BeforePublication(j.domain.rotation)
    ensures j.domain.rotation.retiring < 2
    ensures AnswersYes(j.gates[1 - j.domain.rotation.retiring], t)
  {
    ReplacementIsDeserted(j);
    DesertedAnswersYes(j.gates[1 - j.domain.rotation.retiring], t);
  }

  /**
   From the moment a rotation holds the publication barrier until it has published, the gate of the generation it
   reuses is deserted. So whoever asks that gate whether it is drained finds every stripe sealed, finds the
   notification lock free when it tries it, and finds every stripe idle: the answer is always yes.
   */
  lemma ReplacementIsAlwaysDrained(run: seq<Gated>, n: nat, t: nat)
    requires IsRun(run) && n < |run| && DS.BeforePublication(run[n].domain.rotation)
    ensures run[n].domain.rotation.retiring < 2 && |run[n].gates| == 2
    ensures AnswersYes(run[n].gates[1 - run[n].domain.rotation.retiring], t)
  {
    RunsKeepInv(run, n);
    ReplacementAnswersYes(run[n], t);
  }

  // The combination keeps every step of its gates.

  /** The domain is about to seal stripe `k` of generation `g`. */
  predicate SealIsDue(d: D.Domain, g: nat, k: nat)
    requires D.Sized(d) && g < 2
  {
    && k < |d.open[g]|
    && (!d.open[g][k] || d.rotation == D.Sealing(g, k) || d.rotation == D.IdleSealing(g, k) || d.rotation == D.Closing(g, k))
  }

  /**
   What the domain schedules itself: who is admitted, when a stripe is first sealed, when one is opened again, and that
   nobody waits without the claim.
   */
  ghost predicate Scheduled(j: Gated, g: nat, t: nat, s': G.Gate)
    requires Sized(j) && g < 2
  {
    var s, d, q := j.gates[g], j.domain, j.domain.rotation;
    && !(G.PcOf(s, t).Outside? && G.PcOf(s', t).Queued?)
    && (forall i: nat :: V.Admits(s, t, i, s') ==> D.ReaderOf(d, t) == D.Chosen(g))
    && (forall k: nat :: V.Closes(s, t, k, s') ==> SealIsDue(d, g, k))
    && (forall k: nat :: V.Opens(s, t, k, s') ==>
          && k < |d.open[g]|
          && (G.UndoOne(s, t, s') ==> q.Undoing? && q.retiring == g && q.next == k < q.end <= |d.open[g]|)
          && (G.ReopenOne(s, t, s') ==> q == D.Published(1 - g, k)))
  }

  lemma SealThatIsDue(d: D.Domain, g: nat, k: nat) returns (d': D.Domain)
    requires D.Sized(d) && g < 2 && SealIsDue(d, g, k)
    ensures || (d' == d && !d.open[g][k])
            || (D.SealOne(d, d') && d.rotation.retiring == g && d.rotation.next == k)
            || (D.IdleSealOne(d, d') && d'.rotation.IdleSealing? && d.rotation.retiring == g && d.rotation.next == k)
            || (D.CloseOne(d, d') && d.rotation.generation == g && d.rotation.next == k)
  {
    var sealed := D.SetStripe(d, g, k, false);
    if !d.open[g][k] {
      d' := d;
    } else if d.rotation.Sealing? {
      d' := sealed.(rotation := D.Sealing(g, k + 1));
    } else if d.rotation.IdleSealing? {
      d' := sealed.(rotation := D.IdleSealing(g, k + 1));
    } else {
      d' := sealed.(rotation := D.Closing(g, k + 1));
    }
  }

  lemma OpeningThatIsDue(j: Gated, g: nat, t: nat, k: nat, s': G.Gate) returns (d': D.Domain)
    requires Sized(j) && g < 2 && Scheduled(j, g, t, s') && V.Opens(j.gates[g], t, k, s')
    ensures var d, q := j.domain, j.domain.rotation;
      || (G.UndoOne(j.gates[g], t, s') && D.UndoOne(d, d') && q.retiring == g && q.next == k)
      || (G.ReopenOne(j.gates[g], t, s') && D.ReopenOne(d, d') && q.retiring == 1 - g && q.next == k)
  {
    var reopened, q := D.SetStripe(j.domain, g, k, true), j.domain.rotation;
    d' := reopened.(rotation := if G.UndoOne(j.gates[g], t, s') then D.Undoing(g, k + 1, q.end) else D.Published(1 - g, k + 1));
  }

  /** Every step of a gate that the domain does not hold back is a step of the combination. */
  lemma EveryGateStepIsKept(j: Gated, g: nat, t: nat, s': G.Gate) returns (j': Gated)
    requires Sized(j) && g < 2 && GS.AnyStep(j.gates[g], t, s') && Scheduled(j, g, t, s')
    ensures j'.gates == j.gates[g := s'] && GateMove(j, g, t, j')
  {
    var s, d := j.gates[g], j.domain;
    j' := j.(gates := j.gates[g := s']);
    V.EveryStepIsSeen(s, t, s');
    if i: nat :| V.Admits(s, t, i, s') {
      j' := j'.(domain := D.SetReader(d, t, D.Inside(g, {})));
      assert AdmitReader(j, g, t, i, j');
    } else if V.GivesUp(s, t, s') {
      j' := j'.(domain := D.SetReader(d, t, D.Away));
      assert ReleaseReader(j, g, t, j');
    } else if k: nat :| V.Closes(s, t, k, s') {
      var d' := SealThatIsDue(d, g, k);
      j' := j'.(domain := d');
      assert CloseStripe(j, g, t, k, j');
    } else if k: nat :| V.Opens(s, t, k, s') {
      var d' := OpeningThatIsDue(j, g, t, k, s');
      j' := j'.(domain := d');
      assert OpenStripe(j, g, t, k, j');
    } else {
      assert InternalMove(j, g, t, j');
    }
  }

  /** The domain's steps that go through a gate. */
  ghost predicate Gatewise(d: D.Domain, d': D.Domain)
    requires D.Sized(d)
  {
    || (exists r, i :: D.Admit(d, r, i, d')) || (exists r :: D.Exit(d, r, d'))
    || D.SealOne(d, d') || D.IdleSealOne(d, d') || D.UndoOne(d, d') || D.ReopenOne(d, d') || D.CloseOne(d, d')
    || D.ObserveDrain(d, d') || D.FinishClose(d, d')
  }

  lemma RotationStepIsKept(d: D.Domain, d': D.Domain)
    requires D.Sized(d) && (D.RotationStep(d, d') || D.ReclaimStep(d, d')) && !Gatewise(d, d')
    ensures HolderMove(d, d') || ReclaimMove(d, d')
  {
  }

  lemma ReaderStepIsKept(d: D.Domain, r: nat, d': D.Domain)
    requires D.Sized(d) && D.ReaderStep(d, r, d') && !Gatewise(d, d')
    ensures ReaderMove(d, r, d')
  {
  }

  /** Every step of the domain that does not go through a gate is a step of the combination. */
  lemma EveryDomainStepIsKept(j: Gated, d': D.Domain)
    requires Sized(j) && D.Step(j.domain, d') && d' != j.domain && !Gatewise(j.domain, d')
    ensures DomainMove(j, j.(domain := d'))
  {
    if r :| D.ReaderStep(j.domain, r, d') {
      ReaderStepIsKept(j.domain, r, d');
    } else if D.RotationStep(j.domain, d') || D.ReclaimStep(j.domain, d') {
      RotationStepIsKept(j.domain, d');
    }
  }

  /** A drained claim on the retired generation lets the domain go on. */
  lemma DrainedClaimEndsTheWait(j: Gated, t: nat)
    requires Sized(j) && j.domain.rotation.Waiting? && j.domain.rotation.retiring < 2
    requires G.PcOf(j.gates[j.domain.rotation.retiring], t) == G.Claimed(G.Drained)
    ensures Step(j, j.(domain := j.domain.(rotation := D.Drained(j.domain.rotation.retiring))))
  {
    assert WaitReturns(j, t, j.(domain := j.domain.(rotation := D.Drained(j.domain.rotation.retiring))));
  }

  /** A drained claim on a sealed generation lets a closure go on to the next generation, or end. */
  lemma DrainedClaimEndsTheClosure(j: Gated, t: nat)
    requires Sized(j) && j.domain.rotation.Closing? && j.domain.rotation.generation < 2
    requires j.domain.rotation.next == |j.domain.open[j.domain.rotation.generation]|
    requires G.PcOf(j.gates[j.domain.rotation.generation], t) == G.Claimed(G.Drained)
    ensures Step(j, j.(domain := if j.domain.rotation.generation == 0 then j.domain.(rotation := D.Closing(1, 0))
                                 else j.domain.(rotation := D.Closed, terminal := true)))
  {
    var d := j.domain;
    assert CloseReturns(j, t, j.(domain := if d.rotation.generation == 0 then d.(rotation := D.Closing(1, 0))
                                           else d.(rotation := D.Closed, terminal := true)));
  }
}
