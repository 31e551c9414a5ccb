/**
 What a thread of the service slot achieves when it runs alone, from every reachable
 state: a call gets the active service or learns that there is none, a replacement puts
 its candidate in service and hands the previous owner out, a close hands the owner out.
 */
module ServiceSlotProgress {
  import opened Options
  import opened Paths
  import opened ServiceSlot
  import opened ServiceSlotSafety

  ghost function ReaderAlone(r: nat): (Slot, Slot) -> bool {
    (a: Slot, b: Slot) => |a.lanes| == 2 && ReaderStep(a, r, b)
  }

  ghost predicate AdminStep(a: Slot, b: Slot) {
    |a.lanes| == 2 && (ReplaceStep(a, b) || RetireStep(a, b))
  }

  lemma MovedTwice(s: Slot, r: nat, x: Reader, y: Reader)
    ensures Move(Move(s, r, x), r, y) == Move(s, r, y)
  {
    assert s.readers[r := x][r := y] == s.readers[r := y];
  }

  lemma ReaderMoves(s: Slot, r: nat, x: Reader, y: Reader)
    requires |s.lanes| == 2 && ReaderStep(Move(s, r, x), r, Move(Move(s, r, x), r, y))
    ensures Leads(ReaderAlone(r), Move(s, r, x), Move(s, r, y))
  {
    MovedTwice(s, r, x, y);
    OneStep(ReaderAlone(r), Move(s, r, x), Move(s, r, y));
  }

  /** From a loaded active lane the reader enters, revalidates and reads. */
  lemma ReadLoaded(s: Slot, r: nat, v: Service)
    requires Inv(s) && s.active < 2 && ActiveService(s) == Some(v) && |s.lanes[s.active].open| > 0
    ensures Leads(ReaderAlone(r), Move(s, r, Loaded(s.active)), Move(s, r, Reading(s.active, v)))
  {
    var i := s.active;
    assert s.lanes[i].open[0];
    assert EnterLane(Move(s, r, Loaded(i)), r, 0, Move(Move(s, r, Loaded(i)), r, Entered(i)));
    ReaderMoves(s, r, Loaded(i), Entered(i));
    ReaderMoves(s, r, Entered(i), Validated(i));
    ReaderMoves(s, r, Validated(i), Reading(i, v));
    Onward(ReaderAlone(r), Move(s, r, Loaded(i)), Move(s, r, Entered(i)), Move(s, r, Validated(i)));
    Onward(ReaderAlone(r), Move(s, r, Loaded(i)), Move(s, r, Validated(i)), Move(s, r, Reading(i, v)));
  }

  /** A call that runs alone returns the active service. */
  lemma CallAloneReads(s: Slot, r: nat, v: Service)
    requires Inv(s) && s.active < 2 && ActiveService(s) == Some(v) && |s.lanes[s.active].open| > 0
    requires Pc(s, r).Outside?
    ensures Leads(ReaderAlone(r), s, Move(s, r, Reading(s.active, v)))
  {
    OneStep(ReaderAlone(r), s, Move(s, r, Calling));
    ReaderMoves(s, r, Calling, Loaded(s.active));
    ReadLoaded(s, r, v);
    Onward(ReaderAlone(r), s, Move(s, r, Calling), Move(s, r, Loaded(s.active)));
    Onward(ReaderAlone(r), s, Move(s, r, Loaded(s.active)), Move(s, r, Reading(s.active, v)));
  }

  /** Without an active lane it returns nothing. */
  lemma CallAloneFindsNothing(s: Slot, r: nat)
    requires |s.lanes| == 2 && s.active >= 2 && Pc(s, r).Outside?
    ensures Leads(ReaderAlone(r), s, Move(s, r, Outside))
  {
    OneStep(ReaderAlone(r), s, Move(s, r, Calling));
    ReaderMoves(s, r, Calling, Outside);
    Onward(ReaderAlone(r), s, Move(s, r, Calling), Move(s, r, Outside));
  }

  lemma CallingAloneEnds(s: Slot, r: nat)
    requires Inv(s) && (s.active < 2 ==> |s.lanes[s.active].open| > 0)
    ensures Leads(ReaderAlone(r), Move(s, r, Calling), Move(s, r, Outside))
  {
    var i := s.active;
    if i >= 2 {
      ReaderMoves(s, r, Calling, Outside);
    } else {
      var v := s.lanes[i].published.value;
      ReaderMoves(s, r, Calling, Loaded(i));
      ReadLoaded(s, r, v);
      Onward(ReaderAlone(r), Move(s, r, Calling), Move(s, r, Loaded(i)), Move(s, r, Reading(i, v)));
      ReaderMoves(s, r, Reading(i, v), Outside);
      Onward(ReaderAlone(r), Move(s, r, Calling), Move(s, r, Reading(i, v)), Move(s, r, Outside));
    }
  }

  /** In a lane that is still active the reader goes on to read; in one that is not, it starts over. */
  lemma EnteredAloneEnds(s: Slot, r: nat, i: nat)
    requires Inv(s) && i < 2 && (s.active < 2 ==> |s.lanes[s.active].open| > 0)
    ensures Leads(ReaderAlone(r), Move(s, r, Entered(i)), Move(s, r, Outside))
  {
    if s.active == i {
      var v := s.lanes[i].published.value;
      ReaderMoves(s, r, Entered(i), Validated(i));
      ReaderMoves(s, r, Validated(i), Reading(i, v));
      ReaderMoves(s, r, Reading(i, v), Outside);
      Onward(ReaderAlone(r), Move(s, r, Entered(i)), Move(s, r, Validated(i)), Move(s, r, Reading(i, v)));
      Onward(ReaderAlone(r), Move(s, r, Entered(i)), Move(s, r, Reading(i, v)), Move(s, r, Outside));
    } else {
      ReaderMoves(s, r, Entered(i), Stale(i));
      ReaderMoves(s, r, Stale(i), Calling);
      CallingAloneEnds(s, r);
      Onward(ReaderAlone(r), Move(s, r, Entered(i)), Move(s, r, Stale(i)), Move(s, r, Calling));
      Onward(ReaderAlone(r), Move(s, r, Entered(i)), Move(s, r, Calling), Move(s, r, Outside));
    }
  }

  lemma LoadedAloneEnds(s: Slot, r: nat, i: nat)
    requires Inv(s) && i < 2 && |s.lanes[i].open| > 0 && (s.active < 2 ==> |s.lanes[s.active].open| > 0)
    ensures Leads(ReaderAlone(r), Move(s, r, Loaded(i)), Move(s, r, Outside))
  {
    var next := if s.lanes[i].open[0] then Entered(i) else Calling;
    assert EnterLane(Move(s, r, Loaded(i)), r, 0, Move(Move(s, r, Loaded(i)), r, next));
    ReaderMoves(s, r, Loaded(i), next);
    if s.lanes[i].open[0] {
      EnteredAloneEnds(s, r, i);
    } else {
      CallingAloneEnds(s, r);
    }
    Onward(ReaderAlone(r), Move(s, r, Loaded(i)), Move(s, r, next), Move(s, r, Outside));
  }

  /** From every reachable state a call under way, alone, runs to its end and gives its permit back. */
  lemma EveryCallAloneEnds(s: Slot, r: nat)
    requires Inv(s) && !Pc(s, r).Outside? && |s.lanes[0].open| > 0 && |s.lanes[1].open| > 0
    ensures Leads(ReaderAlone(r), s, Move(s, r, Outside))
  {
    assert Move(s, r, Pc(s, r)) == s;
    match Pc(s, r)
    case Calling => CallingAloneEnds(s, r);
    case Loaded(i) => LoadedAloneEnds(s, r, i);
    case Entered(i) => EnteredAloneEnds(s, r, i);
    case Stale(i) =>
      ReaderMoves(s, r, Stale(i), Calling);
      CallingAloneEnds(s, r);
      Onward(ReaderAlone(r), s, Move(s, r, Calling), Move(s, r, Outside));
    case Validated(i) =>
      var v := s.lanes[i].published.value;
      ReaderMoves(s, r, Validated(i), Reading(i, v));
      ReaderMoves(s, r, Reading(i, v), Outside);
      Onward(ReaderAlone(r), s, Move(s, r, Reading(i, v)), Move(s, r, Outside));
    case Reading(i, v) => ReaderMoves(s, r, Reading(i, v), Outside);
  }

  // Replacement and closure.

  function Opened(lane: Lane, k: nat): (r: Lane)
    requires k <= |lane.open|
    ensures |r.open| == |lane.open| && r.published == lane.published
    ensures forall i :: 0 <= i < |lane.open| ==> r.open[i] == (i < k || lane.open[i])
  {
    if k == 0 then lane else var l := Opened(lane, k - 1); l.(open := l.open[k - 1 := true])
  }

  function Shut(lane: Lane, k: nat): (r: Lane)
    requires k <= |lane.open|
    ensures |r.open| == |lane.open| && r.published == lane.published
    ensures forall i :: 0 <= i < |lane.open| ==> r.open[i] == (k <= i && lane.open[i])
  {
    if k == 0 then lane else var l := Shut(lane, k - 1); l.(open := l.open[k - 1 := false])
  }

  lemma {:induction false} ReopensAll(s: Slot, k: nat)
    requires |s.lanes| == 2 && s.admin.Reopening? && s.admin.next == 0
    requires k <= |s.lanes[Target(s.admin.previous)].open|
    ensures var i := Target(s.admin.previous);
      Leads(AdminStep, s, s.(admin := Reopening(s.admin.previous, k), lanes := s.lanes[i := Opened(s.lanes[i], k)]))
  {
    var p, i := s.admin.previous, Target(s.admin.previous);
    if k == 0 {
      assert s.lanes[i := Opened(s.lanes[i], 0)] == s.lanes;
      NoStep(AdminStep, s);
    } else {
      ReopensAll(s, k - 1);
      var m := s.(admin := Reopening(p, k - 1), lanes := s.lanes[i := Opened(s.lanes[i], k - 1)]);
      var n := s.(admin := Reopening(p, k), lanes := s.lanes[i := Opened(s.lanes[i], k)]);
      assert n.lanes == SetStripe(m.lanes, i, k - 1, true);
      assert ReopenOne(m, n);
      OnwardStep(AdminStep, s, m, n);
    }
  }

  lemma {:induction false} SealsAll(s: Slot, k: nat)
    requires |s.lanes| == 2 && s.admin.Sealing? && s.admin.next == 0
    requires s.admin.previous.Some? && s.admin.previous.value.index < 2
    requires k <= |s.lanes[s.admin.previous.value.index].open|
    ensures var i := s.admin.previous.value.index;
      Leads(AdminStep, s, s.(admin := Sealing(s.admin.previous, k), lanes := s.lanes[i := Shut(s.lanes[i], k)]))
  {
    var p, i := s.admin.previous, s.admin.previous.value.index;
    if k == 0 {
      assert s.lanes[i := Shut(s.lanes[i], 0)] == s.lanes;
      NoStep(AdminStep, s);
    } else {
      SealsAll(s, k - 1);
      var m := s.(admin := Sealing(p, k - 1), lanes := s.lanes[i := Shut(s.lanes[i], k - 1)]);
      var n := s.(admin := Sealing(p, k), lanes := s.lanes[i := Shut(s.lanes[i], k)]);
      assert n.lanes == SetStripe(m.lanes, i, k - 1, false);
      assert SealOne(m, n);
      OnwardStep(AdminStep, s, m, n);
    }
  }

  /** Where a withdrawn lane ends once nobody is inside: sealed, empty, its owner handed out. */
  function Retired(s: Slot): Slot
    requires |s.lanes| == 2 && s.admin.Sealing? && (s.admin.previous.Some? ==> s.admin.previous.value.index < 2)
  {
    match s.admin.previous
    case None => s.(admin := Unlocked)
    case Some(Owner(i, v)) =>
      s.(admin := Unlocked, delivered := s.delivered + [v],
         lanes := s.lanes[i := Shut(s.lanes[i], |s.lanes[i].open|).(published := None)])
  }

  /** Sealing, waiting and reclaiming alone: the owner comes out when no reader has a permit of its lane. */
  lemma RetiresAlone(s: Slot)
    requires |s.lanes| == 2 && s.admin.Sealing? && s.admin.next == 0
    requires s.admin.previous.Some? ==>
      s.admin.previous.value.index < 2 && NoPermits(s.readers, s.admin.previous.value.index)
    ensures Leads(AdminStep, s, Retired(s))
  {
    var p, a := s.admin.previous, s;
    if p.Some? {
      var i := p.value.index;
      var n := |s.lanes[i].open|;
      SealsAll(s, n);
      a := s.(admin := Sealing(p, n), lanes := s.lanes[i := Shut(s.lanes[i], n)]);
    } else {
      NoStep(AdminStep, s);
    }
    var b, c := a.(admin := Retiring(p)), a.(admin := Drained(p));
    assert FinishSeal(a, b);
    OnwardStep(AdminStep, s, a, b);
    assert ObserveDrain(b, c);
    OnwardStep(AdminStep, s, b, c);
    var d := Retired(s).(admin := Finished);
    assert Reclaim(c, d) by {
      if p.Some? {
        var i := p.value.index;
        assert c.lanes[i := c.lanes[i].(published := None)] == d.lanes;
      }
    }
    OnwardStep(AdminStep, s, c, d);
    assert Unlock(d, Retired(s));
    OnwardStep(AdminStep, s, d, Retired(s));
  }

  /** The state in which a replacement has switched to its candidate and turns to the previous lane. */
  function Switched(s: Slot, candidate: Service): Slot
    requires |s.lanes| == 2
  {
    var p, i := s.current, Target(s.current);
    var lane := s.lanes[i].(published := Some(candidate));
    Slot(i, s.lanes[i := Opened(lane, |lane.open|)], Some(Owner(i, candidate)), Sealing(p, 0), s.readers,
         s.used + {candidate}, s.installed + {candidate}, s.delivered)
  }

  lemma SwitchesAlone(s: Slot, candidate: Service)
    requires Inv(s) && s.admin.Unlocked? && candidate !in s.used
    ensures Leads(AdminStep, s, Switched(s, candidate))
  {
    var p, i := s.current, Target(s.current);
    var a := s.(admin := Replacing(p, candidate), current := None, used := s.used + {candidate});
    assert BeginReplace(s, candidate, a);
    OneStep(AdminStep, s, a);
    ReplaceStepKeepsInv(s, a);
    ReplacementFindsItsLaneFree(a);
    var b := a.(admin := Prepared(p, candidate));
    assert Prepare(a, b);
    OnwardStep(AdminStep, s, a, b);
    var lane := s.lanes[i].(published := Some(candidate));
    var c := b.(admin := Installing(p), current := Some(Owner(i, candidate)), installed := s.installed + {candidate},
                lanes := s.lanes[i := lane]);
    assert Install(b, c);
    OnwardStep(AdminStep, s, b, c);
    var d := c.(admin := Reopening(p, 0));
    assert BeginReopen(c, d);
    OnwardStep(AdminStep, s, c, d);
    ReopensAll(d, |lane.open|);
    var e := d.(admin := Reopening(p, |lane.open|), lanes := d.lanes[i := Opened(lane, |lane.open|)]);
    Onward(AdminStep, s, d, e);
    assert Switch(e, Switched(s, candidate)) by {
      assert d.lanes[i := Opened(lane, |lane.open|)] == s.lanes[i := Opened(lane, |lane.open|)];
    }
    OnwardStep(AdminStep, s, e, Switched(s, candidate));
  }

  /** A replacement alone, with no reader in the lane it retires, installs its candidate and hands the previous owner out. */
  lemma ReplacementAloneCompletes(s: Slot, candidate: Service) returns (s': Slot)
    requires Inv(s) && s.admin.Unlocked? && candidate !in s.used
    requires s.current.Some? ==> NoPermits(s.readers, s.current.value.index)
    ensures Leads(AdminStep, s, s')
    ensures |s'.lanes| == 2 && s'.admin.Unlocked? && ActiveService(s') == Some(candidate)
    ensures s'.delivered == s.delivered + if s.current.Some? then [s.current.value.service] else []
    ensures s'.readers == s.readers
  {
    var m := Switched(s, candidate);
    SwitchesAlone(s, candidate);
    s' := Retired(m);
    RetiresAlone(m);
    Onward(AdminStep, s, m, s');
  }

  /** A close alone, with no reader inside, leaves nothing active and hands the owner out. */
  lemma CloseAloneCompletes(s: Slot) returns (s': Slot)
    requires Inv(s) && s.admin.Unlocked?
    requires s.current.Some? ==> NoPermits(s.readers, s.current.value.index)
    ensures Leads(AdminStep, s, s')
    ensures |s'.lanes| == 2 && s'.admin.Unlocked? && ActiveService(s').None? && s'.current.None?
    ensures s'.delivered == s.delivered + if s.current.Some? then [s.current.value.service] else []
  {
    var p := s.current;
    var a := s.(admin := Closing(p), current := None);
    assert BeginClose(s, a);
    OneStep(AdminStep, s, a);
    var b := a.(admin := Sealing(p, 0), active := NO_ACTIVE_LANE);
    assert SwitchOff(a, b);
    OnwardStep(AdminStep, s, a, b);
    s' := Retired(b);
    RetiresAlone(b);
    Onward(AdminStep, s, b, s');
  }

  /** A refused precommit puts everything back. */
  lemma AbortRestores(s: Slot, candidate: Service)
    requires Inv(s) && s.admin.Unlocked? && candidate !in s.used
    ensures Leads(AdminStep, s, s.(used := s.used + {candidate}))
  {
    var a := s.(admin := Replacing(s.current, candidate), current := None, used := s.used + {candidate});
    assert BeginReplace(s, candidate, a);
    OneStep(AdminStep, s, a);
    ReplaceStepKeepsInv(s, a);
    ReplacementFindsItsLaneFree(a);
    var b := a.(admin := Prepared(s.current, candidate));
    assert Prepare(a, b);
    OnwardStep(AdminStep, s, a, b);
    assert Abort(b, s.(used := s.used + {candidate}));
    OnwardStep(AdminStep, s, b, s.(used := s.used + {candidate}));
  }

  /** A run goes on wherever steps lead. */
  lemma Extended(run: seq<Slot>, s': Slot) returns (longer: seq<Slot>)
    requires IsRun(run) && Leads(Step, run[|run| - 1], s')
    ensures run <= longer && IsRun(longer) && longer[|longer| - 1] == s'
  {
    var path :| IsPath(Step, path) && path[0] == run[|run| - 1] && path[|path| - 1] == s';
    longer := run + path[1..];
    forall n: nat | 0 < n < |longer|
      ensures StepsTo(longer, n)
    {
      if n < |run| {
        assert StepsTo(run, n);
      } else {
        assert longer[n - 1] == path[n - |run|] && longer[n] == path[n - |run| + 1];
        assert Step(path[n - |run|], path[n - |run| + 1]);
      }
    }
  }

  lemma AloneAreSteps(r: nat)
    ensures forall a, b :: ReaderAlone(r)(a, b) ==> Step(a, b)
    ensures forall a, b :: AdminStep(a, b) ==> Step(a, b)
  {
  }

  /** What a thread reaches alone is reached in a run. */
  lemma AloneIsReachable(run: seq<Slot>, r: nat, s': Slot) returns (longer: seq<Slot>)
    requires IsRun(run) && (Leads(ReaderAlone(r), run[|run| - 1], s') || Leads(AdminStep, run[|run| - 1], s'))
    ensures run <= longer && IsRun(longer) && longer[|longer| - 1] == s'
  {
    AloneAreSteps(r);
    if Leads(ReaderAlone(r), run[|run| - 1], s') {
      LeadsAlso(ReaderAlone(r), Step, run[|run| - 1], s');
    } else {
      LeadsAlso(AdminStep, Step, run[|run| - 1], s');
    }
    longer := Extended(run, s');
  }
}
