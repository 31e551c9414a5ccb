/**
 A drain gate as its clients see it: which stripes admit, and which threads have a
 permit. Every step of the gate is one of a few changes of this view, and a wait
 that has returned on a sealed gate shows nothing open and nobody inside.
 */
module GateView {
  import opened DrainGate
  import opened DrainGateSafety

  predicate HasPermit(pc: Pc) {
    pc.Holding? || pc.Retained? || pc.Releasing?
  }

  function Permits(s: Gate): set<nat> {
    set t | t in s.pcs && HasPermit(s.pcs[t])
  }

  /** The gate admits on exactly the stripes `open` says, and has given permits to exactly `inside`. */
  predicate Shows(s: Gate, open: seq<bool>, inside: set<nat>) {
    && |open| == |s.stripes|
    && (forall i :: 0 <= i < |open| ==> open[i] == !s.stripes[i].sealed)
    && Permits(s) == inside
  }

  // The steps that change the view; all others keep it.

  predicate Admits(s: Gate, t: nat, i: nat, s': Gate) {
    Enter(s, t, i, s')
  }

  /** The count is given up, on the fast or on the slow path. */
  predicate GivesUp(s: Gate, t: nat, s': Gate) {
    (FastRelease(s, t, s') || SlowRelease(s, t, s')) && !HasPermit(PcOf(s', t))
  }

  /** Closes stripe `k`, or finds it closed. */
  predicate Closes(s: Gate, t: nat, k: nat, s': Gate) {
    || (SealOne(s, t, s') && PcOf(s, t).next == k)
    || (IdleSealOne(s, t, s') && PcOf(s, t).next == k)
    || (SealAlone(s, t, s') && k == 0)
  }

  predicate Opens(s: Gate, t: nat, k: nat, s': Gate) {
    || (UndoOne(s, t, s') && PcOf(s, t).next == k)
    || (ReopenOne(s, t, s') && PcOf(s, t).next == k)
  }

  /** A step that nobody outside the gate notices. */
  ghost predicate Internal(s: Gate, t: nat, s': Gate) {
    && AnyStep(s, t, s')
    && |s'.stripes| == |s.stripes|
    && (forall i :: 0 <= i < |s.stripes| ==> s'.stripes[i].sealed == s.stripes[i].sealed)
    && HasPermit(PcOf(s', t)) == HasPermit(PcOf(s, t))
  }

  lemma WaitsAreInternal(s: Gate, t: nat, s': Gate)
    requires WaitStep(s, t, s')
    ensures Internal(s, t, s')
  {
  }

  lemma ReadersAreSeen(s: Gate, t: nat, s': Gate)
    requires ReaderStep(s, t, s')
    ensures (exists i :: Admits(s, t, i, s')) || GivesUp(s, t, s') || Internal(s, t, s')
  {
    if i :| Enter(s, t, i, s') {
      assert Admits(s, t, i, s');
    }
  }

  lemma ControlIsSeen(s: Gate, t: nat, s': Gate)
    requires ControlStep(s, t, s') || IdleSealStep(s, t, s')
    ensures (exists k :: Closes(s, t, k, s')) || (exists k :: Opens(s, t, k, s')) || Internal(s, t, s')
  {
    if SealOne(s, t, s') || IdleSealOne(s, t, s') {
      assert Closes(s, t, PcOf(s, t).next, s');
    } else if SealAlone(s, t, s') {
      assert Closes(s, t, 0, s');
    } else if UndoOne(s, t, s') || ReopenOne(s, t, s') {
      assert Opens(s, t, PcOf(s, t).next, s');
    }
  }

  /** The list is complete. */
  lemma EveryStepIsSeen(s: Gate, t: nat, s': Gate)
    requires AnyStep(s, t, s')
    ensures || (exists i :: Admits(s, t, i, s')) || GivesUp(s, t, s')
            || (exists k :: Closes(s, t, k, s')) || (exists k :: Opens(s, t, k, s')) || Internal(s, t, s')
  {
    if ReaderStep(s, t, s') {
      ReadersAreSeen(s, t, s');
    } else if WaitStep(s, t, s') {
      WaitsAreInternal(s, t, s');
    } else {
      ControlIsSeen(s, t, s');
    }
  }

  lemma AdmittingShows(s: Gate, t: nat, i: nat, s': Gate, open: seq<bool>, inside: set<nat>)
    requires Shows(s, open, inside) && Admits(s, t, i, s')
    ensures i < |open| && open[i] && t !in inside && Shows(s', open, inside + {t})
  {
  }

  lemma GivingUpShows(s: Gate, t: nat, s': Gate, open: seq<bool>, inside: set<nat>)
    requires Shows(s, open, inside) && GivesUp(s, t, s')
    ensures t in inside && Shows(s', open, inside - {t})
  {
  }

  lemma ClosingShows(s: Gate, t: nat, k: nat, s': Gate, open: seq<bool>, inside: set<nat>)
    requires Shows(s, open, inside) && Closes(s, t, k, s')
    ensures k < |open| && Shows(s', open[k := false], inside)
  {
  }

  lemma OpeningShows(s: Gate, t: nat, k: nat, s': Gate, open: seq<bool>, inside: set<nat>)
    requires Shows(s, open, inside) && Opens(s, t, k, s')
    ensures k < |open| && Shows(s', open[k := true], inside)
  {
  }

  lemma InternalShows(s: Gate, t: nat, s': Gate, open: seq<bool>, inside: set<nat>)
    requires Shows(s, open, inside) && Internal(s, t, s')
    ensures Shows(s', open, inside)
  {
    forall u: nat
      ensures u in Permits(s') <==> u in Permits(s)
    {
      if u != t {
        OthersKeepTheirPlace(s, t, s', u);
      }
      assert u in Permits(s) <==> HasPermit(PcOf(s, u));
      assert u in Permits(s') <==> HasPermit(PcOf(s', u));
    }
  }

  /** A deserted gate shows no open stripe and nobody inside. */
  lemma DesertedShows(s: Gate, open: seq<bool>, inside: set<nat>)
    requires Inv(s) && Deserted(s) && Shows(s, open, inside)
    ensures inside == {} && forall i :: 0 <= i < |open| ==> !open[i]
  {
    forall t | t in Permits(s)
      ensures false
    {
      NobodyOwnsAnIdleStripe(s, t, s.pcs[t].stripe);
    }
  }
}
