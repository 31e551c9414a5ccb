/**
 What every interleaving of readers and replacements keeps: the active lane always
 publishes a service and admits everywhere, a permit pins the lane's pointer, a
 successful read returns a service that was active during the call, and an owner is
 handed out once, when no read of it is left.
 */
module ServiceSlotSafety {
  import opened Options
  import opened ServiceSlot

  /** A lane nobody uses. */
  predicate Free(lanes: seq<Lane>, readers: map<nat, Reader>, i: nat)
    requires i < |lanes|
  {
    AllSealed(lanes[i]) && lanes[i].published.None? && NoPermits(readers, i)
  }

  /** The lane of `owner` publishes its service and admits everywhere. */
  predicate Serving(lanes: seq<Lane>, owner: Owner)
    requires |lanes| == 2
  {
    owner.index < 2 && lanes[owner.index].published == Some(owner.service) && AllOpen(lanes[owner.index])
  }

  /** `owner` alone is in service, or nothing is. */
  predicate Steady(active: nat, lanes: seq<Lane>, readers: map<nat, Reader>, owner: Option<Owner>)
    requires |lanes| == 2
  {
    match owner
    case None => active == NO_ACTIVE_LANE && Free(lanes, readers, 0) && Free(lanes, readers, 1)
    case Some(o) => Serving(lanes, o) && active == o.index && Free(lanes, readers, 1 - o.index)
  }

  /** `previous` still serves while the candidate `current` waits in the other lane, published and open below `next`. */
  predicate Candidate(active: nat, lanes: seq<Lane>, previous: Option<Owner>, current: Option<Owner>, next: nat)
    requires |lanes| == 2
  {
    && (var i := Target(previous);
        && current.Some? && current.value.index == i && lanes[i].published == Some(current.value.service)
        && next <= |lanes[i].open| && (forall k :: 0 <= k < next ==> lanes[i].open[k]))
    && (match previous
        case None => active == NO_ACTIVE_LANE
        case Some(p) => Serving(lanes, p) && active == p.index)
  }

  /** The lane of `previous` is withdrawn and sealed below `next`; `current` serves, or nothing does. */
  predicate Withdrawn(active: nat, lanes: seq<Lane>, previous: Option<Owner>, current: Option<Owner>, next: nat)
    requires |lanes| == 2
  {
    && (match current
        case None => active == NO_ACTIVE_LANE
        case Some(c) => Serving(lanes, c) && active == c.index)
    && (match previous
        case None => true
        case Some(p) =>
          && p.index < 2 && lanes[p.index].published == Some(p.service)
          && next <= |lanes[p.index].open| && (forall k :: 0 <= k < next ==> !lanes[p.index].open[k]))
    && (previous.Some? && current.Some? ==> previous.value.index != current.value.index)
  }

  predicate Names(owner: Option<Owner>, i: nat) {
    owner.Some? && owner.value.index == i
  }

  /** The lanes that neither `previous` nor `current` names are free. */
  predicate OthersFree(lanes: seq<Lane>, readers: map<nat, Reader>, previous: Option<Owner>, current: Option<Owner>)
    requires |lanes| == 2
  {
    && (Names(previous, 0) || Names(current, 0) || Free(lanes, readers, 0))
    && (Names(previous, 1) || Names(current, 1) || Free(lanes, readers, 1))
  }

  predicate Phase(active: nat, lanes: seq<Lane>, readers: map<nat, Reader>, current: Option<Owner>, admin: Admin)
    requires |lanes| == 2
  {
    match admin
    case Unlocked => Steady(active, lanes, readers, current)
    case Finished => Steady(active, lanes, readers, current)
    case Replacing(p, _) => current.None? && Steady(active, lanes, readers, p)
    case Prepared(p, _) => current.None? && Steady(active, lanes, readers, p)
    case Closing(p) => current.None? && Steady(active, lanes, readers, p)
    case Installing(p) =>
      Candidate(active, lanes, p, current, 0) && OthersFree(lanes, readers, p, current)
      && AllSealed(lanes[Target(p)]) && NoPermits(readers, Target(p))
    case Reopening(p, next) =>
      Candidate(active, lanes, p, current, next) && OthersFree(lanes, readers, p, current)
    case Sealing(p, next) =>
      Withdrawn(active, lanes, p, current, next) && OthersFree(lanes, readers, p, current)
    case Retiring(p) =>
      Withdrawn(active, lanes, p, current, 0) && OthersFree(lanes, readers, p, current)
      && (p.Some? ==> AllSealed(lanes[p.value.index]))
    case Drained(p) =>
      Withdrawn(active, lanes, p, current, 0) && OthersFree(lanes, readers, p, current)
      && (p.Some? ==> AllSealed(lanes[p.value.index]) && NoPermits(readers, p.value.index))
  }

  /** Whoever has a permit finds a pointer in the lane, and a running read has exactly that service. */
  predicate Pinned(lanes: seq<Lane>, readers: map<nat, Reader>)
    requires |lanes| == 2
  {
    forall r :: r in readers && !readers[r].Outside? && !readers[r].Calling? ==>
      && readers[r].index < 2
      && (!readers[r].Loaded? ==> lanes[readers[r].index].published.Some?)
      && (readers[r].Reading? ==> lanes[readers[r].index].published == Some(readers[r].service))
  }

  function Published(lane: Lane): set<Service> {
    if lane.published.Some? then {lane.published.value} else {}
  }

  /** Every installed service is published in one lane or was delivered once. */
  predicate Accounted(lanes: seq<Lane>, installed: set<Service>, delivered: seq<Service>)
    requires |lanes| == 2
  {
    multiset(installed) == multiset(Published(lanes[0])) + multiset(Published(lanes[1])) + multiset(delivered)
  }

  predicate Unused(used: set<Service>, installed: set<Service>, admin: Admin) {
    && installed <= used
    && (admin.Replacing? || admin.Prepared? ==> admin.candidate in used - installed)
  }

  predicate Inv(s: Slot) {
    && |s.lanes| == 2 && |s.lanes[0].open| == |s.lanes[1].open|
    && Phase(s.active, s.lanes, s.readers, s.current, s.admin)
    && Pinned(s.lanes, s.readers)
    && Accounted(s.lanes, s.installed, s.delivered)
    && Unused(s.used, s.installed, s.admin)
  }

  // Readers.

  /** A sealed lane without permits stays so; the phase asks nothing else of the readers. */
  predicate NoNewPermits(lanes: seq<Lane>, readers: map<nat, Reader>, moved: map<nat, Reader>)
    requires |lanes| == 2
  {
    && (AllSealed(lanes[0]) && NoPermits(readers, 0) ==> NoPermits(moved, 0))
    && (AllSealed(lanes[1]) && NoPermits(readers, 1) ==> NoPermits(moved, 1))
  }

  lemma MovingKeepsFree(lanes: seq<Lane>, readers: map<nat, Reader>, moved: map<nat, Reader>)
    requires |lanes| == 2 && NoNewPermits(lanes, readers, moved)
    ensures forall p, q :: OthersFree(lanes, readers, p, q) ==> OthersFree(lanes, moved, p, q)
    ensures forall active, p :: Steady(active, lanes, readers, p) ==> Steady(active, lanes, moved, p)
  {
  }

  lemma MovingKeepsPhase(s: Slot, moved: map<nat, Reader>)
    requires Inv(s) && NoNewPermits(s.lanes, s.readers, moved)
    ensures Phase(s.active, s.lanes, moved, s.current, s.admin)
  {
    MovingKeepsFree(s.lanes, s.readers, moved);
  }

  /** The reader keeps to its lane, or to no lane. */
  lemma StayingAddsNoPermit(s: Slot, r: nat, pc: Reader)
    requires Inv(s) && (forall i :: Holds(pc, i) ==> Holds(Pc(s, r), i))
    ensures NoNewPermits(s.lanes, s.readers, s.readers[r := pc])
  {
  }

  lemma EnterLaneKeepsInv(s: Slot, r: nat, k: nat, s': Slot)
    requires Inv(s) && EnterLane(s, r, k, s')
    ensures Inv(s')
  {
    var i := Pc(s, r).index;
    if s.lanes[i].open[k] {
      assert !AllSealed(s.lanes[i]);
      assert NoNewPermits(s.lanes, s.readers, s'.readers);
    }
    MovingKeepsPhase(s, s'.readers);
    assert s.lanes[i].open[k] ==> s.lanes[i].published.Some?;
  }

  lemma StayingKeepsInv(s: Slot, r: nat, s': Slot)
    requires Inv(s)
    requires || Call(s, r, s') || ReturnNothing(s, r, s') || Load(s, r, s') || Revalidate(s, r, s') || Retry(s, r, s')
             || Fetch(s, r, s') || Release(s, r, s')
    ensures Inv(s')
  {
    StayingAddsNoPermit(s, r, s'.readers[r]);
    MovingKeepsPhase(s, s'.readers);
  }

  lemma ReaderStepKeepsInv(s: Slot, r: nat, s': Slot)
    requires Inv(s) && ReaderStep(s, r, s')
    ensures Inv(s')
  {
    if k :| EnterLane(s, r, k, s') {
      EnterLaneKeepsInv(s, r, k, s');
    } else {
      StayingKeepsInv(s, r, s');
    }
  }

  // Replacement.

  lemma InstallKeepsInv(s: Slot, s': Slot)
    requires Inv(s) && Install(s, s')
    ensures Inv(s')
  {
    var i, v := Target(s.admin.previous), s.admin.candidate;
    assert multiset(s'.installed) == multiset(s.installed) + multiset{v};
    assert multiset(Published(s'.lanes[i])) == multiset(Published(s.lanes[i])) + multiset{v};
  }

  lemma ReopeningKeepsInv(s: Slot, s': Slot)
    requires Inv(s) && (BeginReopen(s, s') || ReopenOne(s, s') || Switch(s, s'))
    ensures Inv(s')
  {
  }

  lemma ReplaceStepKeepsInv(s: Slot, s': Slot)
    requires Inv(s) && ReplaceStep(s, s')
    ensures Inv(s')
  {
    if Install(s, s') {
      InstallKeepsInv(s, s');
    } else if BeginReopen(s, s') || ReopenOne(s, s') || Switch(s, s') {
      ReopeningKeepsInv(s, s');
    }
  }

  // Retirement.

  lemma SealingKeepsInv(s: Slot, s': Slot)
    requires Inv(s) && (SwitchOff(s, s') || SealOne(s, s') || FinishSeal(s, s') || ObserveDrain(s, s'))
    ensures Inv(s')
  {
  }

  lemma ReclaimKeepsInv(s: Slot, s': Slot)
    requires Inv(s) && Reclaim(s, s')
    ensures Inv(s')
  {
    if s.admin.previous.Some? {
      var i, v := s.admin.previous.value.index, s.admin.previous.value.service;
      assert multiset(s'.delivered) == multiset(s.delivered) + multiset{v};
      assert multiset(Published(s.lanes[i])) == multiset(Published(s'.lanes[i])) + multiset{v};
    }
  }

  lemma RetireStepKeepsInv(s: Slot, s': Slot)
    requires Inv(s) && RetireStep(s, s')
    ensures Inv(s')
  {
    if Reclaim(s, s') {
      ReclaimKeepsInv(s, s');
    } else if SwitchOff(s, s') || SealOne(s, s') || FinishSeal(s, s') || ObserveDrain(s, s') {
      SealingKeepsInv(s, s');
    }
  }

  // Whole runs.

  lemma StepKeepsInv(s: Slot, s': Slot)
    requires Inv(s) && Step(s, s')
    ensures Inv(s')
  {
    if r :| ReaderStep(s, r, s') {
      ReaderStepKeepsInv(s, r, s');
    } else if ReplaceStep(s, s') {
      ReplaceStepKeepsInv(s, s');
    } else if RetireStep(s, s') {
      RetireStepKeepsInv(s, s');
    }
  }

  predicate Init(s: Slot) {
    && s.active == NO_ACTIVE_LANE && s.current.None? && s.admin.Unlocked?
    && |s.lanes| == 2 && |s.lanes[0].open| == |s.lanes[1].open|
    && (forall i :: 0 <= i < 2 ==> s.lanes[i].published.None? && AllSealed(s.lanes[i]))
    && s.readers == map[] && s.used == {} && s.installed == {} && s.delivered == []
  }

  ghost predicate StepsTo(run: seq<Slot>, n: nat)
    requires 0 < n < |run|
  {
    Step(run[n - 1], run[n])
  }

  ghost predicate IsRun(run: seq<Slot>) {
    && run != [] && Init(run[0])
    && (forall n: nat :: 0 < n < |run| ==> StepsTo(run, n))
  }

  lemma InitKeepsInv(s: Slot)
    requires Init(s)
    ensures Inv(s)
  {
  }

  lemma StepOfRunKeepsInv(run: seq<Slot>, n: nat)
    requires IsRun(run) && 0 < n < |run| && Inv(run[n - 1])
    ensures Inv(run[n])
  {
    assert Step(run[n - 1], run[n]) by {
      assert StepsTo(run, n);
    }
    StepKeepsInv(run[n - 1], run[n]);
  }

  lemma {:induction false} RunsKeepInv(run: seq<Slot>, n: nat)
    requires IsRun(run) && n < |run|
    ensures Inv(run[n])
  {
    if n == 0 {
      InitKeepsInv(run[0]);
    } else {
      RunsKeepInv(run, n - 1);
      StepOfRunKeepsInv(run, n);
    }
  }

  lemma ReplacementFindsItsLaneFree(s: Slot)
    requires Inv(s) && s.admin.Replacing?
    ensures TargetIsFree(s, Target(s.admin.previous))
  {
  }

  /** No interleaving reaches a fail-stop: not the reader's null pointer, not the administrator's occupied lane. */
  lemma FailStopsAreUnreachable(run: seq<Slot>, n: nat, r: nat)
    requires IsRun(run) && n < |run|
    ensures |run[n].lanes| == 2
    ensures !ReaderWouldStop(run[n], r) && !AdminWouldStop(run[n])
  {
    RunsKeepInv(run, n);
  }

  /** Whenever some lane is active it publishes a service and every stripe of it admits: replacement has no blackout. */
  lemma TheActiveLaneAdmits(run: seq<Slot>, n: nat)
    requires IsRun(run) && n < |run| && run[n].active < 2
    ensures |run[n].lanes| == 2
    ensures ActiveService(run[n]).Some? && AllOpen(run[n].lanes[run[n].active])
  {
    RunsKeepInv(run, n);
  }

  lemma RunningReadsAreNotDelivered(s: Slot, r: nat)
    requires Inv(s) && Pc(s, r).Reading?
    ensures Pc(s, r).service !in s.delivered
  {
    var v := Pc(s, r).service;
    assert multiset(s.installed)[v]
        == (multiset(Published(s.lanes[0])) + multiset(Published(s.lanes[1])) + multiset(s.delivered))[v];
  }

  function Count(services: seq<Service>, v: Service): nat {
    multiset(services)[v]
  }

  /** An installed service is published or was handed out, exactly once; while a read of it lives it was not handed out. */
  lemma OwnersAreHandedOutOnceAndAfterTheirReads(run: seq<Slot>, n: nat, v: Service)
    requires IsRun(run) && n < |run|
    ensures |run[n].lanes| == 2
    ensures (if run[n].lanes[0].published == Some(v) then 1 else 0)
          + (if run[n].lanes[1].published == Some(v) then 1 else 0)
          + Count(run[n].delivered, v)
         == (if v in run[n].installed then 1 else 0)
    ensures forall r :: r in run[n].readers && run[n].readers[r].Reading? && run[n].readers[r].service == v ==>
              v !in run[n].delivered
  {
    RunsKeepInv(run, n);
    var s := run[n];
    assert multiset(s.installed)[v]
        == (multiset(Published(s.lanes[0])) + multiset(Published(s.lanes[1])) + multiset(s.delivered))[v];
  }

  /** With the transition lock free, `reset` succeeds exactly when no service is installed. */
  lemma ResetSucceedsIffNothingIsCurrent(run: seq<Slot>, n: nat)
    requires IsRun(run) && n < |run| && run[n].admin.Unlocked?
    ensures |run[n].lanes| == 2
    ensures ResetSucceeds(run[n]) <==> run[n].current.None?
    ensures ActiveService(run[n]) == if run[n].current.Some? then Some(run[n].current.value.service) else None
  {
    RunsKeepInv(run, n);
  }

  // A read returns a service that was active during the call.

  lemma ReadersLeaveTheLanes(s: Slot, q: nat, s': Slot)
    requires |s.lanes| == 2 && ReaderStep(s, q, s')
    ensures s'.lanes == s.lanes && s'.active == s.active
    ensures forall r :: r != q ==> Pc(s', r) == Pc(s, r)
    ensures Pc(s', q).Validated? ==> s.active == Pc(s', q).index
  {
  }

  lemma TheAdministratorLeavesTheReaders(s: Slot, s': Slot)
    requires |s.lanes| == 2 && (ReplaceStep(s, s') || RetireStep(s, s'))
    ensures s'.readers == s.readers
  {
  }

  /** The administrator only stores to the pointer of a lane without permits. */
  lemma InstallingLeavesPermits(s: Slot, s': Slot, i: nat)
    requires Inv(s) && ReplaceStep(s, s') && i < 2 && !NoPermits(s.readers, i)
    ensures |s'.lanes| == 2 && s'.lanes[i].published == s.lanes[i].published
  {
  }

  lemma ReclaimingLeavesPermits(s: Slot, s': Slot, i: nat)
    requires Inv(s) && RetireStep(s, s') && i < 2 && !NoPermits(s.readers, i)
    ensures |s'.lanes| == 2 && s'.lanes[i].published == s.lanes[i].published
  {
  }

  lemma PermitPinsThePointer(s: Slot, s': Slot, i: nat)
    requires Inv(s) && (ReplaceStep(s, s') || RetireStep(s, s')) && i < 2 && !NoPermits(s.readers, i)
    ensures |s'.lanes| == 2 && s'.lanes[i].published == s.lanes[i].published
  {
    if ReplaceStep(s, s') {
      InstallingLeavesPermits(s, s', i);
    } else {
      ReclaimingLeavesPermits(s, s', i);
    }
  }

  /** While the reader stays validated its lane's pointer stays; when it becomes validated, its lane is the active one. */
  lemma ValidatedStep(s: Slot, s': Slot, r: nat)
    requires Inv(s) && Step(s, s') && Pc(s', r).Validated?
    ensures |s'.lanes| == 2 && Pc(s', r).index < 2
    ensures || s'.active == Pc(s', r).index
            || (Pc(s, r) == Pc(s', r) && s'.lanes[Pc(s', r).index].published == s.lanes[Pc(s', r).index].published)
  {
    StepKeepsInv(s, s');
    if q :| ReaderStep(s, q, s') {
      ReadersLeaveTheLanes(s, q, s');
    } else if s' != s {
      TheAdministratorLeavesTheReaders(s, s');
      var i := Pc(s, r).index;
      assert Holds(s.readers[r], i);
      PermitPinsThePointer(s, s', i);
    }
  }

  /**
   From instant `k` to instant `n` the reader stood validated in one call, and at `k` the active service was the one
   its lane publishes at `n`.
   */
  ghost predicate ActiveSince(run: seq<Slot>, k: nat, n: nat, r: nat)
    requires k <= n < |run| && |run[k].lanes| == 2 && |run[n].lanes| == 2
  {
    && Pc(run[n], r).Validated? && Pc(run[n], r).index < 2
    && run[k].active == Pc(run[n], r).index
    && ActiveService(run[k]) == run[n].lanes[Pc(run[n], r).index].published
    && (forall m :: k <= m <= n ==> Pc(run[m], r) == Pc(run[n], r))
  }

  lemma StillActiveSince(run: seq<Slot>, k: nat, n: nat, r: nat)
    requires k < n < |run| && |run[k].lanes| == 2 && |run[n - 1].lanes| == 2 && |run[n].lanes| == 2
    requires ActiveSince(run, k, n - 1, r) && Pc(run[n], r) == Pc(run[n - 1], r)
    requires run[n].lanes[Pc(run[n], r).index].published == run[n - 1].lanes[Pc(run[n], r).index].published
    ensures ActiveSince(run, k, n, r)
  {
  }

  lemma ValidatedInRun(run: seq<Slot>, n: nat, r: nat)
    requires IsRun(run) && n < |run| && Pc(run[n], r).Validated?
    ensures |run[n].lanes| == 2 && Pc(run[n], r).index < 2
    ensures || run[n].active == Pc(run[n], r).index
            || (&& n > 0 && |run[n - 1].lanes| == 2 && Pc(run[n - 1], r) == Pc(run[n], r)
                && run[n].lanes[Pc(run[n], r).index].published == run[n - 1].lanes[Pc(run[n], r).index].published)
  {
    if n > 0 {
      var s, s' := run[n - 1], run[n];
      RunsKeepInv(run, n - 1);
      assert Step(s, s') by {
        assert StepsTo(run, n);
      }
      ValidatedStep(s, s', r);
    }
  }

  lemma {:induction false} ValidatedSince(run: seq<Slot>, n: nat, r: nat) returns (k: nat)
    requires IsRun(run) && n < |run| && Pc(run[n], r).Validated?
    ensures k <= n && |run[k].lanes| == 2 && |run[n].lanes| == 2 && ActiveSince(run, k, n, r)
  {
    ValidatedInRun(run, n, r);
    if run[n].active == Pc(run[n], r).index {
      k := n;
    } else {
      k := ValidatedSince(run, n - 1, r);
      StillActiveSince(run, k, n, r);
    }
  }

  /** A successful read returns a service that was the active one at an instant of the same call. */
  lemma ReadsReturnAnActiveService(run: seq<Slot>, n: nat, r: nat) returns (k: nat)
    requires IsRun(run) && 0 < n < |run| && |run[n - 1].lanes| == 2 && Fetch(run[n - 1], r, run[n])
    ensures k < n && |run[k].lanes| == 2 && Pc(run[n], r).Reading?
    ensures ActiveService(run[k]) == Some(Pc(run[n], r).service)
    ensures forall m :: k <= m < n ==> Pc(run[m], r) == Validated(Pc(run[n], r).index)
  {
    k := ValidatedSince(run, n - 1, r);
  }

  // A read returns nothing only when there is nothing.

  lemma LeavingWithNothing(s: Slot, s': Slot, r: nat)
    requires |s.lanes| == 2 && Step(s, s')
    requires !Pc(s, r).Outside? && !Pc(s, r).Reading? && Pc(s', r).Outside?
    ensures Pc(s, r).Calling? && ActiveService(s).None?
  {
    if q :| ReaderStep(s, q, s') {
      ReadersLeaveTheLanes(s, q, s');
    } else if s' != s {
      TheAdministratorLeavesTheReaders(s, s');
    }
  }

  /** A call that ends without a read found, at an instant of its own, no active service. */
  lemma NothingIsReturnedOnlyWithoutAService(run: seq<Slot>, n: nat, r: nat)
    requires IsRun(run) && 0 < n < |run|
    requires !Pc(run[n - 1], r).Outside? && !Pc(run[n - 1], r).Reading? && Pc(run[n], r).Outside?
    ensures |run[n - 1].lanes| == 2 && Pc(run[n - 1], r).Calling? && ActiveService(run[n - 1]).None?
  {
    RunsKeepInv(run, n - 1);
    assert StepsTo(run, n);
    LeavingWithNothing(run[n - 1], run[n], r);
  }

  /** So a call during which some lane is active at every instant does not end without a read. */
  lemma ReadsSucceedWhileALaneIsActive(run: seq<Slot>, a: nat, b: nat, r: nat)
    requires IsRun(run) && a < b < |run|
    requires forall m :: a <= m < b ==> !Pc(run[m], r).Outside? && run[m].active < 2
    ensures Pc(run[b], r).Outside? ==> Pc(run[b - 1], r).Reading?
  {
    if Pc(run[b], r).Outside? && !Pc(run[b - 1], r).Reading? {
      NothingIsReturnedOnlyWithoutAService(run, b, r);
      TheActiveLaneAdmits(run, b - 1);
    }
  }

  /**
   What makes a call start over or a read end: a sealed stripe of the loaded lane, a lane that is no longer active, its
   own release.
   */
  lemma WhyReadersMoveBack(s: Slot, s': Slot, r: nat)
    requires |s.lanes| == 2 && Step(s, s')
    ensures Pc(s, r).Loaded? && Pc(s', r).Calling? ==>
      Pc(s, r).index < 2 && !AllOpen(s.lanes[Pc(s, r).index])
    ensures Pc(s, r).Entered? && Pc(s', r) != Pc(s, r) ==>
      Pc(s', r) == if s.active == Pc(s, r).index then Validated(Pc(s, r).index) else Stale(Pc(s, r).index)
    ensures Pc(s, r).Reading? ==> Pc(s', r) == Pc(s, r) || Pc(s', r).Outside?
  {
    if q :| ReaderStep(s, q, s') {
      ReadersLeaveTheLanes(s, q, s');
    } else if s' != s {
      TheAdministratorLeavesTheReaders(s, s');
    }
  }
}
