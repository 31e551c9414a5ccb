/**
 What a thread of the rotating domain achieves when it runs alone: a call is admitted to
 the current generation, a writer registers its record, a rotation of an idle generation
 delivers exactly its queue and swaps the generations, a close delivers what is left.
 */
module RotatingReadProgress {
  import opened Options
  import opened Paths
  import opened RotatingReadDomain
  import opened RotatingReadSafety

  ghost function ReaderAlone(r: nat): (Domain, Domain) -> bool {
    (a: Domain, b: Domain) => Sized(a) && ReaderStep(a, r, b)
  }

  ghost function WriterAlone(w: nat): (Domain, Domain) -> bool {
    (a: Domain, b: Domain) => Sized(a) && WriterStep(a, w, b)
  }

  ghost predicate HolderStep(a: Domain, b: Domain) {
    Sized(a) && (RotationStep(a, b) || ReclaimStep(a, b))
  }

  // Readers and writers.

  lemma ReaderMoves(s: Domain, r: nat, x: Reader, y: Reader)
    requires Sized(s) && ReaderStep(SetReader(s, r, x), r, SetReader(SetReader(s, r, x), r, y))
    ensures Leads(ReaderAlone(r), SetReader(s, r, x), SetReader(s, r, y))
  {
    assert s.readers[r := x][r := y] == s.readers[r := y];
    OneStep(ReaderAlone(r), SetReader(s, r, x), SetReader(s, r, y));
  }

  /** Between transitions a call alone is admitted to the current generation. */
  lemma CallAloneIsAdmitted(s: Domain, r: nat)
    requires Available(s) && !s.closed && s.rotation.Unheld? && |s.open[s.current]| > 0 && ReaderOf(s, r).Away?
    ensures Leads(ReaderAlone(r), s, SetReader(s, r, Inside(s.current, {})))
  {
    var g := s.current;
    OneStep(ReaderAlone(r), s, SetReader(s, r, Calling));
    ReaderMoves(s, r, Calling, Polled);
    ReaderMoves(s, r, Polled, Chosen(g));
    assert s.open[g][0];
    assert Admit(SetReader(s, r, Chosen(g)), r, 0, SetReader(SetReader(s, r, Chosen(g)), r, Inside(g, {})));
    ReaderMoves(s, r, Chosen(g), Inside(g, {}));
    Onward(ReaderAlone(r), s, SetReader(s, r, Calling), SetReader(s, r, Polled));
    Onward(ReaderAlone(r), s, SetReader(s, r, Polled), SetReader(s, r, Chosen(g)));
    Onward(ReaderAlone(r), s, SetReader(s, r, Chosen(g)), SetReader(s, r, Inside(g, {})));
  }

  /** On a closed domain a call alone reports that. */
  lemma CallAloneReportsClosure(s: Domain, r: nat)
    requires Sized(s) && s.closed && ReaderOf(s, r).Away?
    ensures Leads(ReaderAlone(r), s, SetReader(s, r, Away))
  {
    OneStep(ReaderAlone(r), s, SetReader(s, r, Calling));
    ReaderMoves(s, r, Calling, Away);
    Onward(ReaderAlone(r), s, SetReader(s, r, Calling), SetReader(s, r, Away));
  }

  lemma InsideAloneEnds(s: Domain, r: nat, g: nat, held: set<Record>)
    requires Sized(s)
    ensures Leads(ReaderAlone(r), SetReader(s, r, Inside(g, held)), SetReader(s, r, Away))
  {
    ReaderMoves(s, r, Inside(g, held), Away);
  }

  /** A call whose selection is not sealed on its stripe gets in; otherwise it starts over. */
  lemma ChosenAloneGoesOn(s: Domain, r: nat, g: nat)
    requires Sized(s) && g < 2 && |s.open[g]| > 0
    ensures Leads(ReaderAlone(r), SetReader(s, r, Chosen(g)), SetReader(s, r, if s.open[g][0] then Inside(g, {}) else Calling))
  {
    var a, next := SetReader(s, r, Chosen(g)), if s.open[g][0] then Inside(g, {}) else Calling;
    assert if s.open[g][0] then Admit(a, r, 0, SetReader(a, r, next)) else Refuse(a, r, 0, SetReader(a, r, next));
    ReaderMoves(s, r, Chosen(g), next);
  }

  /** The current generation admits, or the domain is closed. */
  predicate Answers(s: Domain) {
    && Sized(s) && |s.open[0]| > 0 && |s.open[1]| > 0
    && (s.closed || s.open[s.current][0])
  }

  lemma CallingAloneEnds(s: Domain, r: nat)
    requires Answers(s)
    ensures Leads(ReaderAlone(r), SetReader(s, r, Calling), SetReader(s, r, Away))
  {
    if s.closed {
      ReaderMoves(s, r, Calling, Away);
    } else {
      var g := s.current;
      ReaderMoves(s, r, Calling, Polled);
      ReaderMoves(s, r, Polled, Chosen(g));
      ChosenAloneGoesOn(s, r, g);
      InsideAloneEnds(s, r, g, {});
      Onward(ReaderAlone(r), SetReader(s, r, Calling), SetReader(s, r, Polled), SetReader(s, r, Chosen(g)));
      Onward(ReaderAlone(r), SetReader(s, r, Calling), SetReader(s, r, Chosen(g)), SetReader(s, r, Inside(g, {})));
      Onward(ReaderAlone(r), SetReader(s, r, Calling), SetReader(s, r, Inside(g, {})), SetReader(s, r, Away));
    }
  }

  lemma ChosenAloneEnds(s: Domain, r: nat, g: nat)
    requires Answers(s) && g < 2
    ensures Leads(ReaderAlone(r), SetReader(s, r, Chosen(g)), SetReader(s, r, Away))
  {
    ChosenAloneGoesOn(s, r, g);
    if s.open[g][0] {
      InsideAloneEnds(s, r, g, {});
      Onward(ReaderAlone(r), SetReader(s, r, Chosen(g)), SetReader(s, r, Inside(g, {})), SetReader(s, r, Away));
    } else {
      CallingAloneEnds(s, r);
      Onward(ReaderAlone(r), SetReader(s, r, Chosen(g)), SetReader(s, r, Calling), SetReader(s, r, Away));
    }
  }

  /** A call under way, with whatever selection, runs to its end when it is alone: admitted and left, or told of the closure. */
  lemma EveryCallAloneEnds(s: Domain, r: nat)
    requires Answers(s) && !ReaderOf(s, r).Away? && (ReaderOf(s, r).Chosen? ==> ReaderOf(s, r).generation < 2)
    ensures Leads(ReaderAlone(r), s, SetReader(s, r, Away))
  {
    assert SetReader(s, r, ReaderOf(s, r)) == s;
    match ReaderOf(s, r)
    case Calling => CallingAloneEnds(s, r);
    case Polled =>
      ReaderMoves(s, r, Polled, Chosen(s.current));
      ChosenAloneEnds(s, r, s.current);
      Onward(ReaderAlone(r), s, SetReader(s, r, Chosen(s.current)), SetReader(s, r, Away));
    case Chosen(g) => ChosenAloneEnds(s, r, g);
    case Inside(g, held) => InsideAloneEnds(s, r, g, held);
  }

  /** An admitted reader can get hold of every linked record. */
  lemma LinkedRecordsAreReached(s: Domain, r: nat, x: Record)
    requires Sized(s) && x in s.linked && ReaderOf(s, r).Inside?
    ensures var Inside(g, held) := ReaderOf(s, r); Leads(ReaderAlone(r), s, SetReader(s, r, Inside(g, held + {x})))
  {
    var Inside(g, held) := ReaderOf(s, r);
    assert Access(s, r, x, SetReader(s, r, Inside(g, held + {x})));
    OneStep(ReaderAlone(r), s, SetReader(s, r, Inside(g, held + {x})));
  }

  /** A record that was never used can be linked. */
  lemma NewRecordsAreLinked(s: Domain, w: nat, x: Record)
    requires Sized(s) && x !in s.used
    ensures Leads(WriterAlone(w), s, s.(linked := s.linked + {x}, used := s.used + {x}))
  {
    assert Link(s, x, s.(linked := s.linked + {x}, used := s.used + {x}));
    OneStep(WriterAlone(w), s, s.(linked := s.linked + {x}, used := s.used + {x}));
  }

  /** A writer alone withdraws a record and registers it in the queue of the current generation. */
  lemma WriterAloneRetires(s: Domain, w: nat, x: Record)
    requires Sized(s) && WriterOf(s, w).Resting? && x in s.linked && s.locks[s.current].Free?
    ensures Leads(WriterAlone(w), s,
                  SetWriter(s, w, Resting).(linked := s.linked - {x}, registered := s.registered + {x},
                                            queues := s.queues[s.current := s.queues[s.current] + [x]]))
  {
    var a := SetWriter(s, w, Withdrawn(x)).(linked := s.linked - {x});
    assert Withdraw(s, w, x, a);
    OneStep(WriterAlone(w), s, a);
    WriterAloneRegisters(a, w);
    assert a.writers[w := Resting] == s.writers[w := Resting];
    Onward(WriterAlone(w), s, a,
           SetWriter(s, w, Resting).(linked := s.linked - {x}, registered := s.registered + {x},
                                     queues := s.queues[s.current := s.queues[s.current] + [x]]));
  }

  /** A writer whose selection went stale gives the queue lock back and starts over. */
  lemma StaleWriterStartsOver(s: Domain, w: nat, x: Record, g: nat)
    requires Sized(s) && WriterOf(s, w) == Picked(x, g) && g < 2 && g != s.current && s.locks[g].Free?
    ensures Leads(WriterAlone(w), s, SetWriter(s, w, Withdrawn(x)))
  {
    var a := SetLock(SetWriter(s, w, Locked(x, g)), g, ByWriter(w));
    assert LockQueue(s, w, a);
    OneStep(WriterAlone(w), s, a);
    assert Recheck(a, w, SetWriter(s, w, Withdrawn(x))) by {
      assert a.locks[g := Free] == s.locks;
      assert a.writers[w := Withdrawn(x)] == s.writers[w := Withdrawn(x)];
    }
    OnwardStep(WriterAlone(w), s, a, SetWriter(s, w, Withdrawn(x)));
  }

  /** A writer alone registers the record it withdrew in the queue of the current generation. */
  lemma WriterAloneRegisters(s: Domain, w: nat)
    requires Sized(s) && WriterOf(s, w).Withdrawn? && s.locks[s.current].Free?
    ensures var x, g := WriterOf(s, w).record, s.current;
      Leads(WriterAlone(w), s,
            SetWriter(s, w, Resting).(queues := s.queues[g := s.queues[g] + [x]], registered := s.registered + {x}))
  {
    var x, g := WriterOf(s, w).record, s.current;
    var a := SetWriter(s, w, Picked(x, g));
    assert Pick(s, w, a);
    OneStep(WriterAlone(w), s, a);
    var b := SetLock(SetWriter(a, w, Locked(x, g)), g, ByWriter(w));
    assert LockQueue(a, w, b);
    OnwardStep(WriterAlone(w), s, a, b);
    var c := SetWriter(b, w, Confirmed(x, g));
    assert Recheck(b, w, c);
    OnwardStep(WriterAlone(w), s, b, c);
    var d := SetWriter(s, w, Resting).(queues := s.queues[g := s.queues[g] + [x]], registered := s.registered + {x});
    assert Append(c, w, d) by {
      assert c.locks[g := Free] == s.locks;
      assert c.writers[w := Resting] == s.writers[w := Resting];
    }
    OnwardStep(WriterAlone(w), s, c, d);
  }

  // Rotation.

  function Painted(stripes: seq<bool>, k: nat, admits: bool): (r: seq<bool>)
    requires k <= |stripes|
    ensures |r| == |stripes|
    ensures forall i :: 0 <= i < |stripes| ==> r[i] == if i < k then admits else stripes[i]
  {
    if k == 0 then stripes else Painted(stripes, k - 1, admits)[k - 1 := admits]
  }

  /** The domain with this rotation and with the first `k` stripes of generation `g` set. */
  function Turned(s: Domain, q: Rotation, g: nat, k: nat, admits: bool): Domain
    requires Sized(s) && g < 2 && k <= |s.open[g]|
  {
    s.(rotation := q, open := s.open[g := Painted(s.open[g], k, admits)])
  }

  lemma PaintOne(s: Domain, q: Rotation, p: Rotation, g: nat, k: nat, admits: bool)
    requires Sized(s) && g < 2 && k < |s.open[g]|
    ensures Sized(Turned(s, q, g, k, admits))
    ensures SetStripe(Turned(s, q, g, k, admits), g, k, admits).(rotation := p) == Turned(s, p, g, k + 1, admits)
  {
  }

  lemma {:induction false} SealsAlone(s: Domain, g: nat, k: nat)
    requires Sized(s) && s.rotation == Sealing(g, 0) && g < 2 && k <= |s.open[g]|
    ensures Leads(HolderStep, s, Turned(s, Sealing(g, k), g, k, false))
  {
    if k == 0 {
      assert Turned(s, Sealing(g, 0), g, 0, false) == s;
      NoStep(HolderStep, s);
    } else {
      SealsAlone(s, g, k - 1);
      var a, b := Turned(s, Sealing(g, k - 1), g, k - 1, false), Turned(s, Sealing(g, k), g, k, false);
      PaintOne(s, Sealing(g, k - 1), Sealing(g, k), g, k - 1, false);
      assert SealOne(a, b);
      OnwardStep(HolderStep, s, a, b);
    }
  }

  lemma {:induction false} ReopensAlone(s: Domain, g: nat, k: nat)
    requires Sized(s) && g < 2 && s.rotation == Published(1 - g, 0) && k <= |s.open[g]|
    ensures Leads(HolderStep, s, Turned(s, Published(1 - g, k), g, k, true))
  {
    if k == 0 {
      assert Turned(s, Published(1 - g, 0), g, 0, true) == s;
      NoStep(HolderStep, s);
    } else {
      ReopensAlone(s, g, k - 1);
      var a, b := Turned(s, Published(1 - g, k - 1), g, k - 1, true), Turned(s, Published(1 - g, k), g, k, true);
      PaintOne(s, Published(1 - g, k - 1), Published(1 - g, k), g, k - 1, true);
      assert ReopenOne(a, b);
      OnwardStep(HolderStep, s, a, b);
    }
  }

  /** A domain between transitions, with every queue lock free. */
  predicate AtRest(s: Domain) {
    Sized(s) && s.rotation.Unheld? && s.locks == [Free, Free]
  }

  /** The first half of a rotation: the current generation is sealed and recorded as pending. */
  function SealedHalf(s: Domain): Domain
    requires AtRest(s)
  {
    var g := s.current;
    Turned(s.(locks := s.locks[g := ByRotation], pending := Some(g)), Publishing(g), g, |s.open[g]|, false)
  }

  lemma SealsAndRecordsAlone(s: Domain)
    requires AtRest(s) && !s.closed && s.pending.None?
    ensures Leads(HolderStep, s, SealedHalf(s))
  {
    var g := s.current;
    var n := |s.open[g]|;
    var a := s.(rotation := Entered);
    assert Enter(s, a);
    OneStep(HolderStep, s, a);
    var b := s.(rotation := Barrier(g), locks := s.locks[g := ByRotation]);
    assert Begin(a, b);
    OnwardStep(HolderStep, s, a, b);
    var c := b.(rotation := Sealing(g, 0));
    assert BeginSeal(b, c);
    OnwardStep(HolderStep, s, b, c);
    SealsAlone(c, g, n);
    var d := Turned(c, Sealing(g, n), g, n, false);
    Onward(HolderStep, s, c, d);
    var e := d.(rotation := RotatingReadDomain.Sealed(g));
    assert FinishSeal(d, e);
    OnwardStep(HolderStep, s, d, e);
    assert RecordPending(e, SealedHalf(s));
    OnwardStep(HolderStep, s, e, SealedHalf(s));
  }

  /** The second half: the other generation is published and opened, the retired one is waited for. */
  function PublishedHalf(s: Domain): Domain
    requires AtRest(s)
  {
    var g, m := s.current, SealedHalf(s);
    Turned(m.(current := 1 - g, locks := s.locks), Waiting(g), 1 - g, |m.open[1 - g]|, true)
  }

  lemma PublishesAlone(s: Domain)
    requires AtRest(s)
    ensures Leads(HolderStep, SealedHalf(s), PublishedHalf(s))
  {
    var g, m := s.current, SealedHalf(s);
    var n := |m.open[1 - g]|;
    var a := m.(current := 1 - g, rotation := Published(g, 0));
    assert Publish(m, a);
    OneStep(HolderStep, m, a);
    ReopensAlone(a, 1 - g, n);
    var b := Turned(a, Published(g, n), 1 - g, n, true);
    Onward(HolderStep, m, a, b);
    assert ReleaseBarrier(b, PublishedHalf(s)) by {
      assert b.locks[g := Free] == s.locks;
    }
    OnwardStep(HolderStep, m, b, PublishedHalf(s));
  }

  /** Observing the drain, taking the queue and clearing the mark. */
  lemma ReclaimsAlone(s: Domain, g: nat)
    requires Sized(s) && s.rotation == Waiting(g) && g < 2 && s.locks == [Free, Free]
    requires FullySealed(s.open[g]) && Idle(s.readers, g)
    ensures Leads(HolderStep, s, Deliver(s, g).(pending := None, rotation := Unheld))
  {
    var a := s.(rotation := Drained(g));
    assert ObserveDrain(s, a);
    OneStep(HolderStep, s, a);
    var b := SetLock(s.(rotation := Taking(g)), g, ByRotation);
    assert LockToTake(a, b);
    OnwardStep(HolderStep, s, a, b);
    var c := Deliver(s, g).(rotation := Taken(g));
    assert Take(b, c) by {
      assert b.locks[g := Free] == s.locks;
    }
    OnwardStep(HolderStep, s, b, c);
    var d := c.(pending := None, rotation := Entered);
    assert ClearPending(c, d);
    OnwardStep(HolderStep, s, c, d);
    assert Leave(d, d.(rotation := Unheld));
    OnwardStep(HolderStep, s, d, d.(rotation := Unheld));
  }

  /**
   A rotation alone, with no reader in the current generation: afterwards the other generation is current and open, the
   old one is sealed, exactly the old queue has been delivered, and the domain is ready for the next rotation.
   */
  lemma RotationAloneDelivers(s: Domain) returns (s': Domain)
    requires AtRest(s) && !s.closed && s.pending.None? && Idle(s.readers, s.current)
    ensures Leads(HolderStep, s, s')
    ensures AtRest(s') && s'.current == 1 - s.current && s'.pending.None? && !s'.closed
    ensures OpenExcept(s'.open[s'.current], 0, 0) && FullySealed(s'.open[s.current])
    ensures s'.delivered == s.delivered + s.queues[s.current] && s'.queues == s.queues[s.current := []]
    ensures s'.readers == s.readers && s'.registered == s.registered
  {
    var g, m, p := s.current, SealedHalf(s), PublishedHalf(s);
    SealsAndRecordsAlone(s);
    PublishesAlone(s);
    Onward(HolderStep, s, m, p);
    assert p.open[g] == Painted(s.open[g], |s.open[g]|, false);
    ReclaimsAlone(p, g);
    s' := Deliver(p, g).(pending := None, rotation := Unheld);
    Onward(HolderStep, s, p, s');
  }

  /** A rotation may end before the drain: the generations are swapped, nothing is delivered, and the old one is pending. */
  lemma UnfinishedRotationIsPending(s: Domain) returns (s': Domain)
    requires AtRest(s) && !s.closed && s.pending.None?
    ensures Leads(HolderStep, s, s')
    ensures AtRest(s') && s'.current == 1 - s.current && s'.pending == Some(s.current) && !s'.closed
    ensures OpenExcept(s'.open[s'.current], 0, 0) && FullySealed(s'.open[s.current])
    ensures s'.queues == s.queues && s'.delivered == s.delivered && s'.readers == s.readers
  {
    var m, p := SealedHalf(s), PublishedHalf(s);
    SealsAndRecordsAlone(s);
    PublishesAlone(s);
    Onward(HolderStep, s, m, p);
    assert p.open[s.current] == Painted(s.open[s.current], |s.open[s.current]|, false);
    s' := p.(rotation := Unheld);
    assert Leave(p, s');
    OnwardStep(HolderStep, s, p, s');
  }

  /** An attempt that seals stripes only while they are idle, after `k` of them. */
  function HalfSealed(s: Domain, k: nat): Domain
    requires AtRest(s) && k <= |s.open[s.current]|
  {
    Turned(s.(locks := s.locks[s.current := ByRotation]), IdleSealing(s.current, k), s.current, k, false)
  }

  /** The same after `j` of the `k` stripes were opened again. */
  function HalfUndone(s: Domain, j: nat, k: nat): Domain
    requires AtRest(s) && j <= k <= |s.open[s.current]|
  {
    var g, m := s.current, HalfSealed(s, k);
    m.(rotation := Undoing(g, j, k), open := m.open[g := Painted(m.open[g], j, true)])
  }

  lemma {:induction false} AttemptsAlone(s: Domain, k: nat)
    requires AtRest(s) && !s.closed && s.pending.None? && k <= |s.open[s.current]|
    ensures Leads(HolderStep, s, HalfSealed(s, k))
  {
    var g := s.current;
    if k == 0 {
      var a := s.(rotation := Entered);
      var b := s.(rotation := Barrier(g), locks := s.locks[g := ByRotation]);
      assert Enter(s, a);
      OneStep(HolderStep, s, a);
      assert Begin(a, b);
      OnwardStep(HolderStep, s, a, b);
      assert BeginSeal(b, HalfSealed(s, 0)) by {
        assert s.open[g := s.open[g]] == s.open;
      }
      OnwardStep(HolderStep, s, b, HalfSealed(s, 0));
    } else {
      AttemptsAlone(s, k - 1);
      PaintOne(s.(locks := s.locks[g := ByRotation]), IdleSealing(g, k - 1), IdleSealing(g, k), g, k - 1, false);
      assert IdleSealOne(HalfSealed(s, k - 1), HalfSealed(s, k));
      OnwardStep(HolderStep, s, HalfSealed(s, k - 1), HalfSealed(s, k));
    }
  }

  /** Where every stripe is idle the attempt goes on like a plain seal. */
  lemma IdleAttemptAloneSeals(s: Domain)
    requires AtRest(s) && !s.closed && s.pending.None?
    ensures Leads(HolderStep, s, SealedHalf(s))
  {
    var g := s.current;
    var n := |s.open[g]|;
    AttemptsAlone(s, n);
    var a := HalfSealed(s, n).(rotation := RotatingReadDomain.Sealed(g));
    assert FinishSeal(HalfSealed(s, n), a);
    OnwardStep(HolderStep, s, HalfSealed(s, n), a);
    assert RecordPending(a, SealedHalf(s));
    OnwardStep(HolderStep, s, a, SealedHalf(s));
  }

  lemma {:induction false} UndoesAlone(s: Domain, j: nat, k: nat)
    requires AtRest(s) && j <= k <= |s.open[s.current]|
    ensures Leads(HolderStep, HalfUndone(s, 0, k), HalfUndone(s, j, k))
  {
    if j == 0 {
      NoStep(HolderStep, HalfUndone(s, 0, k));
    } else {
      UndoesAlone(s, j - 1, k);
      assert UndoOne(HalfUndone(s, j - 1, k), HalfUndone(s, j, k));
      OnwardStep(HolderStep, HalfUndone(s, 0, k), HalfUndone(s, j - 1, k), HalfUndone(s, j, k));
    }
  }

  /** A refused attempt, at whatever stripe, puts the domain back as it was. */
  lemma RefusedAttemptRestores(s: Domain, k: nat)
    requires AtRest(s) && !s.closed && s.pending.None? && k < |s.open[s.current]| && OpenExcept(s.open[s.current], 0, 0)
    ensures Leads(HolderStep, s, HalfSealed(s, k)) && Leads(HolderStep, HalfSealed(s, k), s)
  {
    var g, m := s.current, HalfSealed(s, k);
    AttemptsAlone(s, k);
    assert IdleSealOne(m, HalfUndone(s, 0, k)) by {
      assert m.open[g := Painted(m.open[g], 0, true)] == m.open;
    }
    OneStep(HolderStep, m, HalfUndone(s, 0, k));
    UndoesAlone(s, k, k);
    Onward(HolderStep, m, HalfUndone(s, 0, k), HalfUndone(s, k, k));
    assert GiveUp(HalfUndone(s, k, k), s) by {
      assert HalfUndone(s, k, k).open[g] == s.open[g];
      assert HalfUndone(s, k, k).open == s.open;
      assert HalfUndone(s, k, k).locks[g := Free] == s.locks;
    }
    OnwardStep(HolderStep, m, HalfUndone(s, k, k), s);
  }

  /** At these points the holder may give the transition lock up with everything else as it is. */
  lemma HolderMayLeave(s: Domain)
    requires Sized(s) && (s.rotation.Entered? || s.rotation.Waiting? || s.rotation.Drained? || s.rotation.Closed?)
    ensures Leads(HolderStep, s, s.(rotation := Unheld))
  {
    assert Leave(s, s.(rotation := Unheld));
    OneStep(HolderStep, s, s.(rotation := Unheld));
  }

  /** A rotation that an earlier attempt left pending is resumed and delivers the same queue. */
  lemma PendingAloneDelivers(s: Domain, g: nat)
    requires AtRest(s) && !s.closed && s.pending == Some(g) && g < 2 && FullySealed(s.open[g]) && Idle(s.readers, g)
    ensures Leads(HolderStep, s, Deliver(s, g).(pending := None))
  {
    var a, b := s.(rotation := Entered), s.(rotation := Waiting(g));
    assert Enter(s, a);
    OneStep(HolderStep, s, a);
    assert Begin(a, b);
    OnwardStep(HolderStep, s, a, b);
    ReclaimsAlone(b, g);
    Onward(HolderStep, s, b, Deliver(s, g).(pending := None));
  }

  // Closure.

  lemma {:induction false} ClosesAlone(s: Domain, g: nat, k: nat)
    requires Sized(s) && s.rotation == Closing(g, 0) && g < 2 && k <= |s.open[g]|
    ensures Leads(HolderStep, s, Turned(s, Closing(g, k), g, k, false))
  {
    if k == 0 {
      assert Turned(s, Closing(g, 0), g, 0, false) == s;
      NoStep(HolderStep, s);
    } else {
      ClosesAlone(s, g, k - 1);
      var a, b := Turned(s, Closing(g, k - 1), g, k - 1, false), Turned(s, Closing(g, k), g, k, false);
      PaintOne(s, Closing(g, k - 1), Closing(g, k), g, k - 1, false);
      assert CloseOne(a, b);
      OnwardStep(HolderStep, s, a, b);
    }
  }

  lemma ClosesOneAlone(s: Domain, g: nat) returns (s': Domain)
    requires Sized(s) && s.rotation == Closing(g, 0) && g < 2 && Idle(s.readers, g)
    ensures Leads(HolderStep, s, s')
    ensures s' == (if g == 0 then s.(rotation := Closing(1, 0)) else s.(rotation := RotatingReadDomain.Closed, terminal := true))
                    .(open := s.open[g := Painted(s.open[g], |s.open[g]|, false)])
  {
    var n := |s.open[g]|;
    ClosesAlone(s, g, n);
    var a := Turned(s, Closing(g, n), g, n, false);
    s' := if g == 0 then a.(rotation := Closing(1, 0)) else a.(rotation := RotatingReadDomain.Closed, terminal := true);
    assert FinishClose(a, s');
    OnwardStep(HolderStep, s, a, s');
  }

  lemma ClosesBothAlone(s: Domain) returns (s': Domain)
    requires AtRest(s) && Idle(s.readers, 0) && Idle(s.readers, 1)
    ensures Leads(HolderStep, s, s')
    ensures Sized(s') && s'.closed && s'.terminal && s'.rotation.Unheld? && s'.locks == s.locks
    ensures FullySealed(s'.open[0]) && FullySealed(s'.open[1])
    ensures s'.queues == s.queues && s'.delivered == s.delivered
  {
    var a := s.(closed := true, rotation := Closing(0, 0));
    assert BeginClose(s, a);
    OneStep(HolderStep, s, a);
    var b := ClosesOneAlone(a, 0);
    Onward(HolderStep, s, a, b);
    var c := ClosesOneAlone(b, 1);
    Onward(HolderStep, s, b, c);
    s' := c.(rotation := Unheld);
    assert Leave(c, s');
    OnwardStep(HolderStep, s, c, s');
  }

  /** A close alone, with nobody inside: everything is sealed for good and both queues are delivered. */
  lemma CloseAloneDelivers(s: Domain) returns (s': Domain)
    requires AtRest(s) && Idle(s.readers, 0) && Idle(s.readers, 1)
    ensures Leads(HolderStep, s, s')
    ensures Sized(s') && s'.closed && s'.terminal && s'.rotation.Unheld?
    ensures FullySealed(s'.open[0]) && FullySealed(s'.open[1])
    ensures s'.queues == [[], []] && s'.delivered == s.delivered + s.queues[0] + s.queues[1]
  {
    var d := ClosesBothAlone(s);
    var e := Deliver(d, 0);
    assert TakeAfterClose(d, 0, e);
    OnwardStep(HolderStep, s, d, e);
    s' := Deliver(e, 1);
    assert TakeAfterClose(e, 1, s');
    OnwardStep(HolderStep, s, e, s');
  }

  /** A run goes on wherever steps lead. */
  lemma Extended(run: seq<Domain>, s': Domain) returns (longer: seq<Domain>)
    requires IsRun(run) && Leads(Step, run[|run| - 1], s')
    ensures run <= longer && IsRun(longer) && longer[|longer| - 1] == s'
  {
    var path :| IsPath(Step, path) && path[0] == run[|run| - 1] && path[|path| - 1] == s';
    longer := run + path[1..];
    forall n: nat | 0 < n < |longer|
      ensures StepsTo(longer, n)
    {
      if n < |run| {
        assert StepsTo(run, n);
      } else {
        assert longer[n - 1] == path[n - |run|] && longer[n] == path[n - |run| + 1];
        assert Step(path[n - |run|], path[n - |run| + 1]);
      }
    }
  }

  lemma AloneAreSteps(r: nat)
    ensures forall a, b :: ReaderAlone(r)(a, b) ==> Step(a, b)
    ensures forall a, b :: WriterAlone(r)(a, b) ==> Step(a, b)
    ensures forall a, b :: HolderStep(a, b) ==> Step(a, b)
  {
  }

  /** What a thread reaches alone is reached in a run. */
  lemma AloneIsReachable(run: seq<Domain>, r: nat, s': Domain) returns (longer: seq<Domain>)
    requires IsRun(run) && (Leads(ReaderAlone(r), run[|run| - 1], s') || Leads(WriterAlone(r), run[|run| - 1], s') || Leads(HolderStep, run[|run| - 1], s'))
    ensures run <= longer && IsRun(longer) && longer[|longer| - 1] == s'
  {
    AloneAreSteps(r);
    if Leads(ReaderAlone(r), run[|run| - 1], s') {
      LeadsAlso(ReaderAlone(r), Step, run[|run| - 1], s');
    } else if Leads(WriterAlone(r), run[|run| - 1], s') {
      LeadsAlso(WriterAlone(r), Step, run[|run| - 1], s');
    } else {
      LeadsAlso(HolderStep, Step, run[|run| - 1], s');
    }
    longer := Extended(run, s');
  }
}
