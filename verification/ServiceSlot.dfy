/**
 The two-lane replaceable service slot as an interleaving of any number of
 readers with the holder of the transition lock. Each atomic load or store,
 stripe update, lock and unlock is one step; waiting for a lane is one step that
 is enabled once the lane is sealed and has no permit out, which
 `GatedServiceSlot` replaces by a wait on a real gate. The owner record is only
 read and written under the transition lock, so its updates are fused with the
 lock, the pointer store or the unlock next to them.
 */
module ServiceSlot {
  import opened Options

  type Service = nat

  const NO_ACTIVE_LANE: nat := 2

  /** A published pointer and the stripes of the lane's gate, true where the stripe admits. */
  datatype Lane = Lane(published: Option<Service>, open: seq<bool>)

  datatype Owner = Owner(index: nat, service: Service)

  /** Where a call to `read_if_ready` is; from `Entered` on it has a permit of lane `index`. */
  datatype Reader =
    | Outside
    | Calling
    | Loaded(index: nat)
    | Entered(index: nat)
    | Stale(index: nat)
    | Validated(index: nat)
    | Reading(index: nat, service: Service)

  /** Where the holder of the transition lock is. */
  datatype Admin =
    | Unlocked
    | Replacing(previous: Option<Owner>, candidate: Service)
    | Prepared(previous: Option<Owner>, candidate: Service)
    | Installing(previous: Option<Owner>)
    | Reopening(previous: Option<Owner>, next: nat)
    | Closing(previous: Option<Owner>)
    | Sealing(previous: Option<Owner>, next: nat)
    | Retiring(previous: Option<Owner>)
    | Drained(previous: Option<Owner>)
    | Finished

  datatype Slot = Slot(
    active: nat,
    lanes: seq<Lane>,
    current: Option<Owner>,
    admin: Admin,
    readers: map<nat, Reader>,
    used: set<Service>,
    installed: set<Service>,
    delivered: seq<Service>)

  function Pc(s: Slot, r: nat): Reader {
    if r in s.readers then s.readers[r] else Outside
  }

  function Move(s: Slot, r: nat, pc: Reader): Slot {
    s.(readers := s.readers[r := pc])
  }

  /** The reader has a permit of lane `i`. */
  predicate Holds(pc: Reader, i: nat) {
    (pc.Entered? || pc.Stale? || pc.Validated? || pc.Reading?) && pc.index == i
  }

  predicate NoPermits(readers: map<nat, Reader>, i: nat) {
    forall r :: r in readers ==> !Holds(readers[r], i)
  }

  predicate AllSealed(lane: Lane) {
    forall k :: 0 <= k < |lane.open| ==> !lane.open[k]
  }

  predicate AllOpen(lane: Lane) {
    forall k :: 0 <= k < |lane.open| ==> lane.open[k]
  }

  function Target(previous: Option<Owner>): nat {
    if previous.Some? && previous.value.index == 0 then 1 else 0
  }

  /** The service a fresh reader would get now. */
  function ActiveService(s: Slot): Option<Service>
    requires |s.lanes| == 2
  {
    if s.active < 2 then s.lanes[s.active].published else None
  }

  // Readers.

  predicate Call(s: Slot, r: nat, s': Slot) {
    Pc(s, r).Outside? && s' == Move(s, r, Calling)
  }

  /** No active lane: the call returns nothing. */
  predicate ReturnNothing(s: Slot, r: nat, s': Slot) {
    Pc(s, r).Calling? && s.active >= 2 && s' == Move(s, r, Outside)
  }

  predicate Load(s: Slot, r: nat, s': Slot) {
    Pc(s, r).Calling? && s.active < 2 && s' == Move(s, r, Loaded(s.active))
  }

  predicate EnterLane(s: Slot, r: nat, k: nat, s': Slot)
    requires |s.lanes| == 2
  {
    && Pc(s, r).Loaded? && Pc(s, r).index < 2
    && var lane := s.lanes[Pc(s, r).index];
       && k < |lane.open|
       && s' == Move(s, r, if lane.open[k] then Entered(Pc(s, r).index) else Calling)
  }

  predicate Revalidate(s: Slot, r: nat, s': Slot) {
    && Pc(s, r).Entered?
    && s' == Move(s, r, if s.active == Pc(s, r).index then Validated(Pc(s, r).index) else Stale(Pc(s, r).index))
  }

  /** A changed active lane made the reader give its permit back and try again. */
  predicate Retry(s: Slot, r: nat, s': Slot) {
    Pc(s, r).Stale? && s' == Move(s, r, Calling)
  }

  predicate Fetch(s: Slot, r: nat, s': Slot)
    requires |s.lanes| == 2
  {
    && Pc(s, r).Validated? && Pc(s, r).index < 2
    && var i := Pc(s, r).index;
       && s.lanes[i].published.Some?
       && s' == Move(s, r, Reading(i, s.lanes[i].published.value))
  }

  /** The pointer a validated reader is about to load is null: the process would stop. */
  predicate ReaderWouldStop(s: Slot, r: nat)
    requires |s.lanes| == 2
  {
    Pc(s, r).Validated? && (Pc(s, r).index >= 2 || s.lanes[Pc(s, r).index].published.None?)
  }

  predicate Release(s: Slot, r: nat, s': Slot) {
    Pc(s, r).Reading? && s' == Move(s, r, Outside)
  }

  ghost predicate ReaderStep(s: Slot, r: nat, s': Slot)
    requires |s.lanes| == 2
  {
    || Call(s, r, s') || ReturnNothing(s, r, s') || Load(s, r, s')
    || (exists k :: EnterLane(s, r, k, s'))
    || Revalidate(s, r, s') || Retry(s, r, s') || Fetch(s, r, s') || Release(s, r, s')
  }

  // The holder of the transition lock.

  predicate BeginReplace(s: Slot, candidate: Service, s': Slot) {
    && s.admin.Unlocked? && candidate !in s.used
    && s' == s.(admin := Replacing(s.current, candidate), current := None, used := s.used + {candidate})
  }

  predicate TargetIsFree(s: Slot, i: nat)
    requires |s.lanes| == 2 && i < 2
  {
    AllSealed(s.lanes[i]) && NoPermits(s.readers, i) && s.lanes[i].published.None?
  }

  /** The target lane is not sealed, idle and empty: the process would stop. */
  predicate AdminWouldStop(s: Slot)
    requires |s.lanes| == 2
  {
    || (s.admin.Replacing? && !TargetIsFree(s, Target(s.admin.previous)))
    || (s.admin.Installing? && !AllSealed(s.lanes[Target(s.admin.previous)]))
  }

  predicate Prepare(s: Slot, s': Slot)
    requires |s.lanes| == 2
  {
    && s.admin.Replacing? && TargetIsFree(s, Target(s.admin.previous))
    && s' == s.(admin := Prepared(s.admin.previous, s.admin.candidate))
  }

  /** A refused or panicking precommit puts the previous owner back and drops the candidate. */
  predicate Abort(s: Slot, s': Slot) {
    && s.admin.Prepared?
    && s' == s.(admin := Unlocked, current := s.admin.previous)
  }

  predicate Install(s: Slot, s': Slot)
    requires |s.lanes| == 2
  {
    && s.admin.Prepared?
    && var i, v := Target(s.admin.previous), s.admin.candidate;
       s' == s.(admin := Installing(s.admin.previous), current := Some(Owner(i, v)), installed := s.installed + {v},
                lanes := s.lanes[i := s.lanes[i].(published := Some(v))])
  }

  /** Reopening first waits for the sealed lane to be idle. */
  predicate BeginReopen(s: Slot, s': Slot)
    requires |s.lanes| == 2
  {
    && s.admin.Installing?
    && AllSealed(s.lanes[Target(s.admin.previous)]) && NoPermits(s.readers, Target(s.admin.previous))
    && s' == s.(admin := Reopening(s.admin.previous, 0))
  }

  function SetStripe(lanes: seq<Lane>, i: nat, k: nat, admits: bool): seq<Lane>
    requires i < |lanes| && k < |lanes[i].open|
  {
    lanes[i := lanes[i].(open := lanes[i].open[k := admits])]
  }

  predicate ReopenOne(s: Slot, s': Slot)
    requires |s.lanes| == 2
  {
    && s.admin.Reopening?
    && var i, k := Target(s.admin.previous), s.admin.next;
       && k < |s.lanes[i].open|
       && s' == s.(admin := Reopening(s.admin.previous, k + 1), lanes := SetStripe(s.lanes, i, k, true))
  }

  /** The linearization point of a replacement. */
  predicate Switch(s: Slot, s': Slot)
    requires |s.lanes| == 2
  {
    && s.admin.Reopening?
    && var i := Target(s.admin.previous);
       && s.admin.next == |s.lanes[i].open|
       && s' == s.(admin := Sealing(s.admin.previous, 0), active := i)
  }

  predicate BeginClose(s: Slot, s': Slot) {
    && s.admin.Unlocked?
    && s' == s.(admin := Closing(s.current), current := None)
  }

  predicate SwitchOff(s: Slot, s': Slot) {
    && s.admin.Closing?
    && s' == s.(admin := Sealing(s.admin.previous, 0), active := NO_ACTIVE_LANE)
  }

  predicate SealOne(s: Slot, s': Slot)
    requires |s.lanes| == 2
  {
    && s.admin.Sealing? && s.admin.previous.Some? && s.admin.previous.value.index < 2
    && var i, k := s.admin.previous.value.index, s.admin.next;
       && k < |s.lanes[i].open|
       && s' == s.(admin := Sealing(s.admin.previous, k + 1), lanes := SetStripe(s.lanes, i, k, false))
  }

  predicate FinishSeal(s: Slot, s': Slot)
    requires |s.lanes| == 2
  {
    && s.admin.Sealing?
    && (s.admin.previous.Some? ==>
          s.admin.previous.value.index < 2 && s.admin.next == |s.lanes[s.admin.previous.value.index].open|)
    && s' == s.(admin := Retiring(s.admin.previous))
  }

  /** The wait on the retired lane returns. */
  predicate ObserveDrain(s: Slot, s': Slot)
    requires |s.lanes| == 2
  {
    && s.admin.Retiring?
    && (s.admin.previous.Some? ==>
          && s.admin.previous.value.index < 2
          && AllSealed(s.lanes[s.admin.previous.value.index]) && NoPermits(s.readers, s.admin.previous.value.index))
    && s' == s.(admin := Drained(s.admin.previous))
  }

  /** Clears the pointer and hands the owner out. */
  predicate Reclaim(s: Slot, s': Slot)
    requires |s.lanes| == 2
  {
    && s.admin.Drained? && (s.admin.previous.Some? ==> s.admin.previous.value.index < 2)
    && s' == match s.admin.previous
             case None => s.(admin := Finished)
             case Some(Owner(i, v)) =>
               s.(admin := Finished, delivered := s.delivered + [v], lanes := s.lanes[i := s.lanes[i].(published := None)])
  }

  predicate Unlock(s: Slot, s': Slot) {
    s.admin.Finished? && s' == s.(admin := Unlocked)
  }

  ghost predicate ReplaceStep(s: Slot, s': Slot)
    requires |s.lanes| == 2
  {
    || (exists candidate :: BeginReplace(s, candidate, s'))
    || Prepare(s, s') || Abort(s, s') || Install(s, s') || BeginReopen(s, s') || ReopenOne(s, s') || Switch(s, s')
  }

  ghost predicate RetireStep(s: Slot, s': Slot)
    requires |s.lanes| == 2
  {
    || BeginClose(s, s') || SwitchOff(s, s') || SealOne(s, s') || FinishSeal(s, s')
    || ObserveDrain(s, s') || Reclaim(s, s') || Unlock(s, s')
  }

  /** One step, or none: what stands still may be moving in a gate. */
  ghost predicate Step(s: Slot, s': Slot) {
    && |s.lanes| == 2
    && (s' == s || (exists r :: ReaderStep(s, r, s')) || ReplaceStep(s, s') || RetireStep(s, s'))
  }

  /** What `reset` tests, with the transition lock in hand. */
  predicate ResetSucceeds(s: Slot)
    requires |s.lanes| == 2
  {
    && s.active == NO_ACTIVE_LANE && s.current.None?
    && (forall i :: 0 <= i < 2 ==> TargetIsFree(s, i))
  }
}
