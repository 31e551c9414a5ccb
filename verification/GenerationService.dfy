/**
 The lazily initialized service of one generation, as an interleaving of any number
 of readers with the one initializer and the one teardown that the lifecycle state
 admits at a time. Steps that hold the lifecycle lock across several atomic updates
 are modelled update by update; waiting for the gate is one step, enabled once the
 gate is sealed and has no permit out.
 */
module GenerationService {
  import opened Options
  import opened Paths

  type Service = nat

  datatype State =
    | Closed
    | Cold
    | Initializing
    | Ready(service: Service)
    | Sealing
    | InitFaulted
    | TeardownFaulted(service: Service)

  /** The thread that runs the initialization; from `Publishing` on it holds the lifecycle lock. */
  datatype Initializer =
    | NoInitializer
    | Running
    | Publishing(service: Service)
    | Published(service: Service)
    | Reopening(service: Service, next: nat)

  /** The thread that tears the service down; it holds the lifecycle lock while it seals and clears. */
  datatype Teardown =
    | NoTeardown
    | SealingGate(service: Service, next: nat)
    | Withdrawn(service: Service)
    | Quiesced(service: Service)

  /** A read has a permit from `Entered` on; `Empty` found no pointer and is about to give it back. */
  datatype Reader = Outside | Entered | Empty | Reading(service: Service)

  datatype Slot = Slot(
    state: State,
    published: Option<Service>,
    open: seq<bool>,
    initializer: Initializer,
    teardown: Teardown,
    readers: map<nat, Reader>,
    used: set<Service>,
    delivered: seq<Service>)

  function Pc(s: Slot, r: nat): Reader {
    if r in s.readers then s.readers[r] else Outside
  }

  function Move(s: Slot, r: nat, pc: Reader): Slot {
    s.(readers := s.readers[r := pc])
  }

  predicate LockFree(s: Slot) {
    (s.initializer.NoInitializer? || s.initializer.Running?) && !s.teardown.SealingGate?
  }

  predicate NoPermits(readers: map<nat, Reader>) {
    forall r :: r in readers ==> readers[r].Outside?
  }

  predicate AllSealed(open: seq<bool>) {
    forall k :: 0 <= k < |open| ==> !open[k]
  }

  predicate AllOpen(open: seq<bool>) {
    forall k :: 0 <= k < |open| ==> open[k]
  }

  // Readers.

  predicate Enter(s: Slot, r: nat, k: nat, s': Slot) {
    && Pc(s, r).Outside? && k < |s.open| && s.open[k]
    && s' == Move(s, r, Entered)
  }

  predicate Load(s: Slot, r: nat, s': Slot) {
    && Pc(s, r).Entered?
    && s' == Move(s, r, if s.published.Some? then Reading(s.published.value) else Empty)
  }

  predicate Release(s: Slot, r: nat, s': Slot) {
    (Pc(s, r).Empty? || Pc(s, r).Reading?) && s' == Move(s, r, Outside)
  }

  // Lifecycle.

  /** What arming tests, with the lifecycle lock in hand. */
  predicate ArmSucceeds(s: Slot) {
    s.state.Closed? && AllSealed(s.open) && NoPermits(s.readers) && s.published.None?
  }

  predicate Arm(s: Slot, s': Slot) {
    LockFree(s) && ArmSucceeds(s) && s' == s.(state := Cold)
  }

  /** Disarming, and sealing what was never initialized. */
  predicate Disarm(s: Slot, s': Slot) {
    LockFree(s) && (s.state.Cold? || s.state.InitFaulted?) && s' == s.(state := Closed)
  }

  predicate BeginInit(s: Slot, s': Slot) {
    LockFree(s) && s.state.Cold? && s' == s.(state := Initializing, initializer := Running)
  }

  /** The initializer reports an error or panics. */
  predicate FailInit(s: Slot, s': Slot) {
    LockFree(s) && s.initializer.Running? && s' == s.(state := InitFaulted, initializer := NoInitializer)
  }

  predicate BeginCommit(s: Slot, v: Service, s': Slot) {
    && LockFree(s) && s.initializer.Running? && v !in s.used
    && s' == s.(state := Ready(v), initializer := Publishing(v), used := s.used + {v})
  }

  predicate StorePointer(s: Slot, s': Slot) {
    && s.initializer.Publishing?
    && s' == s.(published := Some(s.initializer.service), initializer := Published(s.initializer.service))
  }

  predicate BeginReopen(s: Slot, s': Slot) {
    && s.initializer.Published? && AllSealed(s.open) && NoPermits(s.readers)
    && s' == s.(initializer := Reopening(s.initializer.service, 0))
  }

  predicate ReopenOne(s: Slot, s': Slot) {
    && s.initializer.Reopening? && s.initializer.next < |s.open|
    && var k := s.initializer.next;
       s' == s.(open := s.open[k := true], initializer := Reopening(s.initializer.service, k + 1))
  }

  /** The initializer takes the first permit before it gives the lock up. */
  predicate Reserve(s: Slot, r: nat, k: nat, s': Slot) {
    && s.initializer.Reopening? && s.initializer.next == |s.open| && Pc(s, r).Outside?
    && k < |s.open| && s.open[k]
    && s' == Move(s, r, Reading(s.initializer.service)).(initializer := NoInitializer)
  }

  /** The gate is not sealed before it is reopened, or refuses the initializer's own permit: the process would stop. */
  predicate CommitWouldStop(s: Slot, k: nat) {
    || (s.initializer.Published? && !AllSealed(s.open))
    || (s.initializer.Reopening? && s.initializer.next == |s.open| && k < |s.open| && !s.open[k])
  }

  // Teardown.

  predicate BeginSeal(s: Slot, s': Slot) {
    && LockFree(s) && s.state.Ready?
    && s' == s.(state := Sealing, teardown := SealingGate(s.state.service, 0))
  }

  predicate SealOne(s: Slot, s': Slot) {
    && s.teardown.SealingGate? && s.teardown.next < |s.open|
    && var k := s.teardown.next;
       s' == s.(open := s.open[k := false], teardown := SealingGate(s.teardown.service, k + 1))
  }

  /** The pointer is withdrawn before the drain; a reader that comes later finds nothing. */
  predicate ClearPointer(s: Slot, s': Slot) {
    && s.teardown.SealingGate? && s.teardown.next == |s.open|
    && s' == s.(published := None, teardown := Withdrawn(s.teardown.service))
  }

  predicate ObserveDrain(s: Slot, s': Slot) {
    && s.teardown.Withdrawn? && AllSealed(s.open) && NoPermits(s.readers)
    && s' == s.(teardown := Quiesced(s.teardown.service))
  }

  /** Shutdown succeeded: the owner is handed out. */
  predicate Finish(s: Slot, s': Slot) {
    && LockFree(s) && s.teardown.Quiesced?
    && s' == s.(state := Closed, teardown := NoTeardown, delivered := s.delivered + [s.teardown.service])
  }

  /** Shutdown failed, or the teardown was abandoned before or after the drain: the owner is retained for good. */
  predicate Retain(s: Slot, s': Slot) {
    && LockFree(s) && (s.teardown.Withdrawn? || s.teardown.Quiesced?)
    && s' == s.(state := TeardownFaulted(s.teardown.service), teardown := NoTeardown)
  }

  ghost predicate ReaderStep(s: Slot, r: nat, s': Slot) {
    (exists k :: Enter(s, r, k, s')) || Load(s, r, s') || Release(s, r, s')
  }

  ghost predicate InitStep(s: Slot, s': Slot) {
    || Arm(s, s') || Disarm(s, s') || BeginInit(s, s') || FailInit(s, s') || (exists v :: BeginCommit(s, v, s'))
    || StorePointer(s, s') || BeginReopen(s, s') || ReopenOne(s, s') || (exists r, k :: Reserve(s, r, k, s'))
  }

  ghost predicate TeardownStep(s: Slot, s': Slot) {
    || BeginSeal(s, s') || SealOne(s, s') || ClearPointer(s, s') || ObserveDrain(s, s') || Finish(s, s') || Retain(s, s')
  }

  ghost predicate Step(s: Slot, s': Slot) {
    (exists r :: ReaderStep(s, r, s')) || InitStep(s, s') || TeardownStep(s, s')
  }

  // What every step keeps.

  /** The allocation that is published, being torn down or retained. */
  function Owner(state: State, teardown: Teardown): Option<Service> {
    match state
    case Ready(v) => Some(v)
    case TeardownFaulted(v) => Some(v)
    case Sealing => if teardown.NoTeardown? then None else Some(teardown.service)
    case _ => None
  }

  /** Nothing is published and nobody is inside. */
  predicate Unused(published: Option<Service>, open: seq<bool>, readers: map<nat, Reader>) {
    published.None? && AllSealed(open) && NoPermits(readers)
  }

  predicate Serving(v: Service, published: Option<Service>, open: seq<bool>, initializer: Initializer, readers: map<nat, Reader>) {
    match initializer
    case NoInitializer => published == Some(v) && AllOpen(open)
    case Running => false
    case Publishing(w) => w == v && Unused(published, open, readers)
    case Published(w) => w == v && published == Some(v) && AllSealed(open) && NoPermits(readers)
    case Reopening(w, next) =>
      w == v && published == Some(v) && next <= |open| && (forall k :: 0 <= k < next ==> open[k])
  }

  predicate Leaving(published: Option<Service>, open: seq<bool>, teardown: Teardown, readers: map<nat, Reader>) {
    match teardown
    case NoTeardown => false
    case SealingGate(v, next) =>
      published == Some(v) && next <= |open| && (forall k :: 0 <= k < next ==> !open[k])
    case Withdrawn(_) => published.None? && AllSealed(open)
    case Quiesced(_) => Unused(published, open, readers)
  }

  predicate Phase(s: Slot) {
    && (s.teardown.NoTeardown? <==> !s.state.Sealing?)
    && (s.initializer.NoInitializer? || s.state.Initializing? || s.state.Ready?)
    && match s.state
       case Closed => Unused(s.published, s.open, s.readers)
       case Cold => Unused(s.published, s.open, s.readers)
       case InitFaulted => Unused(s.published, s.open, s.readers)
       case Initializing => s.initializer.Running? && Unused(s.published, s.open, s.readers)
       case Ready(v) => Serving(v, s.published, s.open, s.initializer, s.readers)
       case Sealing => Leaving(s.published, s.open, s.teardown, s.readers)
       case TeardownFaulted(_) => s.published.None? && AllSealed(s.open)
  }

  /** A running read has the one allocation that the slot owns. */
  predicate Pinned(readers: map<nat, Reader>, owner: Option<Service>) {
    forall r :: r in readers && readers[r].Reading? ==> owner == Some(readers[r].service)
  }

  function Held(owner: Option<Service>): set<Service> {
    if owner.Some? then {owner.value} else {}
  }

  /** Every service ever committed is owned by the slot or was handed out once. */
  predicate Accounted(used: set<Service>, owner: Option<Service>, delivered: seq<Service>) {
    multiset(used) == multiset(Held(owner)) + multiset(delivered)
  }

  predicate Inv(s: Slot) {
    && Phase(s)
    && Pinned(s.readers, Owner(s.state, s.teardown))
    && Accounted(s.used, Owner(s.state, s.teardown), s.delivered)
  }

  lemma EnterKeepsInv(s: Slot, r: nat, k: nat, s': Slot)
    requires Inv(s) && Enter(s, r, k, s')
    ensures Inv(s')
  {
    assert !AllSealed(s.open);
  }

  lemma LoadKeepsInv(s: Slot, r: nat, s': Slot)
    requires Inv(s) && (Load(s, r, s') || Release(s, r, s'))
    ensures Inv(s')
  {
    if Load(s, r, s') {
      assert !NoPermits(s.readers);
    }
    assert NoPermits(s.readers) ==> NoPermits(s'.readers);
  }

  lemma InitStepKeepsInv(s: Slot, s': Slot)
    requires Inv(s) && InitStep(s, s')
    ensures Inv(s')
  {
    if v :| BeginCommit(s, v, s') {
      assert multiset(s'.used) == multiset(s.used) + multiset{v};
    }
  }

  lemma TeardownStepKeepsInv(s: Slot, s': Slot)
    requires Inv(s) && TeardownStep(s, s')
    ensures Inv(s')
  {
    if Finish(s, s') {
      assert multiset(s'.delivered) == multiset(s.delivered) + multiset{s.teardown.service};
    }
  }

  lemma StepKeepsInv(s: Slot, s': Slot)
    requires Inv(s) && Step(s, s')
    ensures Inv(s')
  {
    if r :| ReaderStep(s, r, s') {
      if k :| Enter(s, r, k, s') {
        EnterKeepsInv(s, r, k, s');
      } else {
        LoadKeepsInv(s, r, s');
      }
    } else if InitStep(s, s') {
      InitStepKeepsInv(s, s');
    } else {
      TeardownStepKeepsInv(s, s');
    }
  }

  // Whole runs.

  predicate Init(s: Slot) {
    && s.state.Closed? && s.published.None? && AllSealed(s.open)
    && s.initializer.NoInitializer? && s.teardown.NoTeardown?
    && s.readers == map[] && s.used == {} && s.delivered == []
  }

  ghost predicate StepsTo(run: seq<Slot>, n: nat)
    requires 0 < n < |run|
  {
    Step(run[n - 1], run[n])
  }

  ghost predicate IsRun(run: seq<Slot>) {
    && run != [] && Init(run[0])
    && (forall n: nat :: 0 < n < |run| ==> StepsTo(run, n))
  }

  lemma {:induction false} RunsKeepInv(run: seq<Slot>, n: nat)
    requires IsRun(run) && n < |run|
    ensures Inv(run[n])
  {
    if n > 0 {
      RunsKeepInv(run, n - 1);
      assert StepsTo(run, n);
      StepKeepsInv(run[n - 1], run[n]);
    }
  }

  /** While a read lives, its service is the slot's own: it was not handed out, and its shutdown has not begun. */
  lemma ReadsKeepTheOwner(run: seq<Slot>, n: nat, r: nat)
    requires IsRun(run) && n < |run| && Pc(run[n], r).Reading?
    ensures Owner(run[n].state, run[n].teardown) == Some(Pc(run[n], r).service)
    ensures Pc(run[n], r).service !in run[n].delivered && !run[n].teardown.Quiesced?
  {
    RunsKeepInv(run, n);
    var s, v := run[n], Pc(run[n], r).service;
    assert multiset(s.used)[v] == (multiset(Held(Some(v))) + multiset(s.delivered))[v];
  }

  /** Every committed service is owned by the slot or was handed out, exactly once. */
  lemma OwnersAreHandedOutOnce(run: seq<Slot>, n: nat, v: Service)
    requires IsRun(run) && n < |run|
    ensures (if Owner(run[n].state, run[n].teardown) == Some(v) then 1 else 0) + multiset(run[n].delivered)[v]
         == (if v in run[n].used then 1 else 0)
  {
    RunsKeepInv(run, n);
    var s := run[n];
    assert multiset(s.used)[v] == (multiset(Held(Owner(s.state, s.teardown))) + multiset(s.delivered))[v];
  }

  /** Publication finds the gate sealed, and the initializer gets its own permit. */
  lemma CommitNeverStops(run: seq<Slot>, n: nat, k: nat)
    requires IsRun(run) && n < |run|
    ensures !CommitWouldStop(run[n], k)
  {
    RunsKeepInv(run, n);
  }

  /** With the lock free, arming succeeds exactly in the closed state: the gate and the pointer never stand in its way. */
  lemma ArmSucceedsIffClosed(run: seq<Slot>, n: nat)
    requires IsRun(run) && n < |run|
    ensures ArmSucceeds(run[n]) <==> run[n].state.Closed?
  {
    RunsKeepInv(run, n);
  }

  /** A slot is armed again only through its closed state: a failed initialization is not tried again before that. */
  lemma {:induction false} ArmedOnlyFromClosed(run: seq<Slot>, a: nat, b: nat) returns (c: nat)
    requires IsRun(run) && a <= b < |run| && !run[a].state.Cold? && run[b].state.Cold?
    ensures a <= c <= b && run[c].state.Closed?
  {
    assert StepsTo(run, b);
    if run[b - 1].state.Cold? {
      c := ArmedOnlyFromClosed(run, a, b - 1);
    } else {
      RunsKeepInv(run, b - 1);
      c := b - 1;
    }
  }

  /** A service whose teardown failed is retained in every later state and never handed out. */
  lemma {:induction false} RetainedForGood(run: seq<Slot>, a: nat, b: nat)
    requires IsRun(run) && a <= b < |run| && run[a].state.TeardownFaulted?
    ensures run[b].state == run[a].state && run[a].state.service !in run[b].delivered
  {
    if a < b {
      RetainedForGood(run, a, b - 1);
      assert StepsTo(run, b);
      RunsKeepInv(run, b - 1);
    } else {
      OwnersAreHandedOutOnce(run, a, run[a].state.service);
    }
  }

  /** A running read ends only by giving its permit back. */
  lemma ReadsEndByTheirRelease(s: Slot, s': Slot, r: nat)
    requires Step(s, s') && Pc(s, r).Reading?
    ensures Pc(s', r) == Pc(s, r) || Pc(s', r).Outside?
  {
    if q :| ReaderStep(s, q, s') {
      assert q == r || Pc(s', r) == Pc(s, r);
    }
  }

  // What a call returns.

  /** A read with a permit that finds no service came while one was being torn down, or after that failed. */
  lemma NothingIsReadOnlyInTeardown(s: Slot, r: nat, s': Slot)
    requires Inv(s) && Load(s, r, s')
    ensures Pc(s', r).Empty? ==> s.state.Sealing? || s.state.TeardownFaulted?
    ensures s.state.Ready? ==> Pc(s', r) == Reading(s.state.service)
  {
    assert !NoPermits(s.readers);
  }

  ghost function ReaderAlone(r: nat): (Slot, Slot) -> bool {
    (a: Slot, b: Slot) => ReaderStep(a, r, b)
  }

  ghost predicate LifecycleStep(a: Slot, b: Slot) {
    InitStep(a, b) || TeardownStep(a, b)
  }

  /** A call alone reads the service that is ready. */
  lemma CallAloneReads(s: Slot, r: nat)
    requires Inv(s) && s.state.Ready? && s.initializer.NoInitializer? && |s.open| > 0 && Pc(s, r).Outside?
    ensures Leads(ReaderAlone(r), s, Move(s, r, Reading(s.state.service)))
  {
    var a, b := Move(s, r, Entered), Move(s, r, Reading(s.state.service));
    assert Enter(s, r, 0, a);
    OneStep(ReaderAlone(r), s, a);
    assert Load(a, r, b) by {
      assert s.readers[r := Entered][r := Reading(s.state.service)] == s.readers[r := Reading(s.state.service)];
    }
    OnwardStep(ReaderAlone(r), s, a, b);
  }

  /** Whatever a call has found, alone it gives its permit back. */
  lemma EveryCallAloneEnds(s: Slot, r: nat)
    requires !Pc(s, r).Outside?
    ensures Leads(ReaderAlone(r), s, Move(s, r, Outside))
  {
    var b := Move(s, r, Outside);
    if Pc(s, r).Entered? {
      var a := Move(s, r, if s.published.Some? then Reading(s.published.value) else Empty);
      assert Load(s, r, a);
      OneStep(ReaderAlone(r), s, a);
      assert a.readers[r := Outside] == s.readers[r := Outside];
      assert Release(a, r, b);
      OnwardStep(ReaderAlone(r), s, a, b);
    } else {
      assert Release(s, r, b);
      OneStep(ReaderAlone(r), s, b);
    }
  }

  function Painted(stripes: seq<bool>, k: nat, admits: bool): (r: seq<bool>)
    requires k <= |stripes|
    ensures |r| == |stripes|
    ensures forall i :: 0 <= i < |stripes| ==> r[i] == if i < k then admits else stripes[i]
  {
    if k == 0 then stripes else Painted(stripes, k - 1, admits)[k - 1 := admits]
  }

  lemma {:induction false} ReopensAlone(s: Slot, v: Service, k: nat)
    requires s.initializer == Reopening(v, 0) && k <= |s.open|
    ensures Leads(LifecycleStep, s, s.(initializer := Reopening(v, k), open := Painted(s.open, k, true)))
  {
    if k == 0 {
      NoStep(LifecycleStep, s);
    } else {
      ReopensAlone(s, v, k - 1);
      var a := s.(initializer := Reopening(v, k - 1), open := Painted(s.open, k - 1, true));
      var b := s.(initializer := Reopening(v, k), open := Painted(s.open, k, true));
      assert ReopenOne(a, b);
      OnwardStep(LifecycleStep, s, a, b);
    }
  }

  lemma {:induction false} SealsAlone(s: Slot, v: Service, k: nat)
    requires s.teardown == SealingGate(v, 0) && k <= |s.open|
    ensures Leads(LifecycleStep, s, s.(teardown := SealingGate(v, k), open := Painted(s.open, k, false)))
  {
    if k == 0 {
      NoStep(LifecycleStep, s);
    } else {
      SealsAlone(s, v, k - 1);
      var a := s.(teardown := SealingGate(v, k - 1), open := Painted(s.open, k - 1, false));
      var b := s.(teardown := SealingGate(v, k), open := Painted(s.open, k, false));
      assert SealOne(a, b);
      OnwardStep(LifecycleStep, s, a, b);
    }
  }

  /** The first caller of an armed slot, alone, initializes it and gets the first read. */
  lemma FirstCallAloneInitializes(s: Slot, r: nat, v: Service) returns (s': Slot)
    requires Inv(s) && s.state.Cold? && v !in s.used && Pc(s, r).Outside? && |s.open| > 0
    ensures Leads(LifecycleStep, s, s')
    ensures s'.state == Ready(v) && s'.initializer.NoInitializer? && AllOpen(s'.open) && s'.published == Some(v)
    ensures Pc(s', r) == Reading(v)
  {
    var n := |s.open|;
    var a := s.(state := Initializing, initializer := Running);
    assert BeginInit(s, a);
    OneStep(LifecycleStep, s, a);
    var b := a.(state := Ready(v), initializer := Publishing(v), used := s.used + {v});
    assert BeginCommit(a, v, b);
    OnwardStep(LifecycleStep, s, a, b);
    var c := b.(published := Some(v), initializer := Published(v));
    assert StorePointer(b, c);
    OnwardStep(LifecycleStep, s, b, c);
    var d := c.(initializer := Reopening(v, 0));
    assert BeginReopen(c, d);
    OnwardStep(LifecycleStep, s, c, d);
    ReopensAlone(d, v, n);
    var e := d.(initializer := Reopening(v, n), open := Painted(d.open, n, true));
    Onward(LifecycleStep, s, d, e);
    s' := Move(e, r, Reading(v)).(initializer := NoInitializer);
    assert Reserve(e, r, 0, s');
    OnwardStep(LifecycleStep, s, e, s');
  }

  /** A failed initialization is remembered; disarmed, the slot can be armed again. */
  lemma FailedInitializationCanBeRearmed(s: Slot) returns (s': Slot)
    requires Inv(s) && s.initializer.Running?
    ensures Leads(LifecycleStep, s, s.(state := InitFaulted, initializer := NoInitializer))
    ensures Leads(LifecycleStep, s, s') && s'.state.Cold? && s'.used == s.used
  {
    var a := s.(state := InitFaulted, initializer := NoInitializer);
    assert FailInit(s, a);
    OneStep(LifecycleStep, s, a);
    var b := a.(state := Closed);
    assert Disarm(a, b);
    OnwardStep(LifecycleStep, s, a, b);
    s' := b.(state := Cold);
    assert Arm(b, s');
    OnwardStep(LifecycleStep, s, b, s');
  }

  /** A teardown that fails or is abandoned, before or after the drain, leaves its owner retained. */
  lemma FailedTeardownRetains(s: Slot)
    requires Inv(s) && (s.teardown.Withdrawn? || s.teardown.Quiesced?)
    ensures Leads(LifecycleStep, s, s.(state := TeardownFaulted(s.teardown.service), teardown := NoTeardown))
  {
    var s' := s.(state := TeardownFaulted(s.teardown.service), teardown := NoTeardown);
    assert Retain(s, s');
    OneStep(LifecycleStep, s, s');
  }

  /** A teardown alone, with no read left, hands the service out and can be armed again. */
  lemma TeardownAloneDelivers(s: Slot) returns (s': Slot)
    requires Inv(s) && s.state.Ready? && s.initializer.NoInitializer? && NoPermits(s.readers)
    ensures Leads(LifecycleStep, s, s')
    ensures s'.delivered == s.delivered + [s.state.service] && ArmSucceeds(s')
  {
    var n, v := |s.open|, s.state.service;
    var a := s.(state := Sealing, teardown := SealingGate(v, 0));
    assert BeginSeal(s, a);
    OneStep(LifecycleStep, s, a);
    SealsAlone(a, v, n);
    var b := a.(teardown := SealingGate(v, n), open := Painted(s.open, n, false));
    Onward(LifecycleStep, s, a, b);
    var c := b.(published := None, teardown := Withdrawn(v));
    assert ClearPointer(b, c);
    OnwardStep(LifecycleStep, s, b, c);
    var d := c.(teardown := Quiesced(v));
    assert ObserveDrain(c, d);
    OnwardStep(LifecycleStep, s, c, d);
    s' := d.(state := Closed, teardown := NoTeardown, delivered := s.delivered + [v]);
    assert Finish(d, s');
    OnwardStep(LifecycleStep, s, d, s');
  }

  /** A run goes on wherever steps lead. */
  lemma Extended(run: seq<Slot>, s': Slot) returns (longer: seq<Slot>)
    requires IsRun(run) && Leads(Step, run[|run| - 1], s')
    ensures run <= longer && IsRun(longer) && longer[|longer| - 1] == s'
  {
    var path :| IsPath(Step, path) && path[0] == run[|run| - 1] && path[|path| - 1] == s';
    longer := run + path[1..];
    forall n: nat | 0 < n < |longer|
      ensures StepsTo(longer, n)
    {
      if n < |run| {
        assert StepsTo(run, n);
      } else {
        assert longer[n - 1] == path[n - |run|] && longer[n] == path[n - |run| + 1];
        assert Step(path[n - |run|], path[n - |run| + 1]);
      }
    }
  }

  lemma AloneAreSteps(r: nat)
    ensures forall a, b :: ReaderAlone(r)(a, b) ==> Step(a, b)
    ensures forall a, b :: LifecycleStep(a, b) ==> Step(a, b)
  {
  }

  /** What a thread reaches alone is reached in a run. */
  lemma AloneIsReachable(run: seq<Slot>, r: nat, s': Slot) returns (longer: seq<Slot>)
    requires IsRun(run) && (Leads(ReaderAlone(r), run[|run| - 1], s') || Leads(LifecycleStep, run[|run| - 1], s'))
    ensures run <= longer && IsRun(longer) && longer[|longer| - 1] == s'
  {
    AloneAreSteps(r);
    if Leads(ReaderAlone(r), run[|run| - 1], s') {
      LeadsAlso(ReaderAlone(r), Step, run[|run| - 1], s');
    } else {
      LeadsAlso(LifecycleStep, Step, run[|run| - 1], s');
    }
    longer := Extended(run, s');
  }
}
