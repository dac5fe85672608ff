/** How far a semaphore can be charged: funded admissions and the bound on dedicated memory. */
module SemaphoreBounds {
  import opened Wrappers
  import opened ReaderPermit
  import opened Semaphore
  import opened SemaphoreInvariant
  import opened SemaphoreSteps
  import opened SemaphoreOperations
  import opened SemaphoreRuns

  function Max(a: int, b: int): int {
    if a < b then b else a
  }

  // ---------- borrowing and repaying ----------

  /** A charge borrows only what it is short of, and leaves a deficit only when the pool has run dry. */
  lemma LoansCoverShortfalls(l: Local, units: Resources)
    requires units.NonNegative()
    ensures var l' := Take(l, units);
            && l'.sem.borrowed >= l.sem.borrowed
            && l'.pool.available == l.pool.available - (l'.sem.borrowed - l.sem.borrowed)
            && (l'.sem.borrowed > l.sem.borrowed ==>
                  l.sem.available.memory < units.memory && l'.sem.available.memory <= 0)
            && (l'.sem.available.memory < 0 ==> l'.pool.Free() == 0)
  {}

  /** Returned units refill a deficit before any loan is repaid, and repay loans before they become
      available. */
  lemma DeficitIsRecoveredFirst(l: Local, units: Resources)
    requires units.NonNegative() && 0 <= l.sem.borrowed && 0 <= l.sem.initial.memory
    ensures var l' := Give(l, units);
            && l'.sem.borrowed <= l.sem.borrowed
            && (l'.sem.borrowed < l.sem.borrowed ==> l'.sem.available.memory >= 0)
            && (l'.sem.borrowed > 0 ==> l'.sem.available.memory <= Max(l.sem.available.memory, 0))
  {}

  // ---------- admissions are funded ----------

  /** The accounts after a read with base units `r` was admitted from `l`. */
  predicate Funded(l: Local, l': Local, r: Resources) {
    && l'.sem.available == Resources(l.sem.available.count - r.count, Max(l.sem.available.memory - r.memory, 0))
    && l'.sem.available.NonNegative()
    && l'.sem.borrowed == l.sem.borrowed + Max(r.memory - l.sem.available.memory, 0)
    && l'.pool.available == l.pool.available - Max(r.memory - l.sem.available.memory, 0)
  }

  /** Outside the no-active-reader exception, units found available are charged without reaching
      the kill limit, borrowing exactly what is short. */
  lemma AdmissionIsFunded(c: Ctx)
    requires c.sem.initial.memory > 0 && c.sem.config.killLimitMultiplier != 1 && c.p.base.NonNegative()
    requires HasAvailableUnits(c.sem, c.pool, c.p.base) == AllOk && c.sem.available.count != c.sem.initial.count
    requires !c.p.baseConsumed
    ensures OnAdmission(c).ok
    ensures Funded(Local(c.sem, c.pool), Local(OnAdmission(c).c.sem, OnAdmission(c).c.pool), c.p.base)
  {
    hide LimitOf, OnActive;
    var c1 := OnActive(Check(c, !c.p.state.ActiveAwait?));
    BelowKillLimit(c1.sem, Exposure(c1.sem, c1.pool) + c.p.base.memory);
    assert !Kills(c1.sem, c1.pool, c.p.base);
  }

  lemma BelowKillLimit(s: Sem, consumed: int)
    requires s.initial.memory > 0 && s.config.killLimitMultiplier != 1 && consumed <= s.initial.memory
    ensures !KillLimit(s).ReachedBy(consumed)
  {
    var limit, m := s.initial.memory, s.config.killLimitMultiplier;
    if m > 1 {
      AtLeastTwice(limit, m);
    }
  }

  /** A read waiting for admission that is let in from the front of the queue is funded. */
  lemma QueuedAdmissionIsFunded(l: Local)
    requires Inv(l) && Allowed(l, Admit(false)) && l.sem.lists.memory == []
    requires l.sem.initial.memory > 0 && l.sem.config.killLimitMultiplier != 1
    requires l.sem.available.count != l.sem.initial.count
    ensures var l', i := Apply(l, Admit(false)), l.sem.lists.admission[0];
            && i < |l.sem.permits| && i < |l'.sem.permits|
            && l'.sem.permits[i].baseConsumed
            && Funded(l, l', l.sem.permits[i].base)
  {
    hide Inv, Sound, DequeuePermit, OnAdmission, ParkReady, Funded;
    var i := l.sem.lists.admission[0];
    BeginAt(l, AdmissionQueue);
    var c := Load(l, i);
    DequeueKeeps(c);
    var c1 := DequeuePermit(c);
    assert HasAvailableUnits(c1.sem, c1.pool, c1.p.base) == AllOk by { hide HasAvailableUnits; }
    AdmissionIsFunded(c1);
    SameFunding(Local(c1.sem, c1.pool), l, Local(OnAdmission(c1).c.sem, OnAdmission(c1).c.pool),
                Apply(l, Admit(false)), c.p.base);
  }

  lemma SameFunding(l: Local, l1: Local, l': Local, l1': Local, r: Resources)
    requires Funded(l, l', r)
    requires l1.pool == l.pool && l1.sem.available == l.sem.available && l1.sem.borrowed == l.sem.borrowed
    requires l1'.pool == l'.pool && l1'.sem.available == l'.sem.available && l1'.sem.borrowed == l'.sem.borrowed
    ensures Funded(l1, l1', r)
  {}

  /** A read admitted at once, by `do_wait_admission`, is funded too. */
  lemma ImmediateAdmissionIsFunded(c: Ctx)
    requires c.sem.initial.memory > 0 && c.sem.config.killLimitMultiplier != 1 && c.p.base.NonNegative()
    requires c.sem.available.count != c.sem.initial.count
    requires !c.p.baseConsumed && !c.p.state.WaitingForMemory?
    requires c.sem.lists.NoWaiter() && CanAdmitRead(c.sem, c.pool, c.p).decision == Yes
    ensures var c' := DoWaitAdmission(c);
            && c'.p.baseConsumed
            && Funded(Local(c.sem, c.pool), Local(c'.sem, c'.pool), c.p.base)
  {
    hide OnAdmission, ParkReady, Funded;
    var c0 := c.(p := c.p.(arrival := c.sem.requests), sem := c.sem.(requests := c.sem.requests + 1));
    assert CanAdmitRead(c0.sem, c0.pool, c0.p) == CanAdmitRead(c.sem, c.pool, c.p);
    AdmissionIsFunded(c0);
    var o := OnAdmission(c0);
    SameFunding(Local(c0.sem, c0.pool), Local(c.sem, c.pool), Local(o.c.sem, o.c.pool),
                Local(DoWaitAdmission(c).sem, DoWaitAdmission(c).pool), c.p.base);
  }

  // ---------- the bound on dedicated memory ----------

  /** Memory the semaphore must cover from its own limit. */
  function Dedicated(s: Sem): int {
    s.Consumed().memory
  }

  /** How far single charges of at most `m` can take the dedicated consumption. */
  function Cap(s: Sem, poolTotal: int, m: nat): int
    requires KillLimit(s).At?
  {
    Max(s.initial.memory + m,
        Max(KillLimit(s).n + poolTotal, s.unreduced * s.config.killLimitMultiplier))
  }

  /** No single charge made by the operation exceeds `m`. */
  predicate Small(l: Local, op: Op, m: nat)
    requires Allowed(l, op)
  {
    match op
    case Obtain(base, _) => base.memory <= m
    case Readmit(i) => l.sem.permits[i].base.memory <= m
    case Admit(_) =>
      var p := l.sem.permits[l.sem.lists.Front()];
      p.base.memory <= m && p.requested <= m
    case Charge(_, r) => r.memory <= m
    case Request(i, memory) => l.sem.permits[i].requested + memory <= m
    case _ => true
  }

  predicate KeepsLimits(op: Op) {
    !op.Resize? && !op.Configure?
  }

  /** The limits are as before and dedicated consumption grew, if at all, only within the cap. */
  predicate Capped(s: Sem, s': Sem, cap: int) {
    && s'.initial == s.initial && s'.config == s.config && s'.unreduced == s.unreduced
    && Dedicated(s') <= Max(Dedicated(s), cap)
  }

  lemma ConsumeCapped(c: Ctx, units: Resources, m: nat)
    requires KillLimit(c.sem).At? && units.NonNegative() && units.memory <= m
    requires c.pool.available <= c.pool.total && 0 <= c.pool.total
    ensures Capped(c.sem, Consume(c, units).c.sem, Cap(c.sem, c.pool.total, m))
  {}

  lemma SignalCapped(c: Ctx, units: Resources, cap: int)
    requires units.NonNegative() && 0 <= cap && 0 <= c.sem.borrowed
    ensures Capped(c.sem, Signal(c, units).sem, cap)
  {}

  lemma ReleaseBaseCapped(c: Ctx, cap: int)
    requires c.p.base.NonNegative() && 0 <= cap && 0 <= c.sem.borrowed
    ensures Capped(c.sem, ReleaseBase(c).sem, cap)
  {
    if c.p.baseConsumed {
      SignalCapped(c.(p := c.p.(baseConsumed := false)), c.p.base, cap);
    }
  }

  /** What the charging lemmas need to know about a state. */
  predicate Chargeable(l: Local) {
    && KillLimit(l.sem).At? && 0 <= l.sem.borrowed && 0 <= l.sem.initial.memory
    && l.pool.available <= l.pool.total && 0 <= l.pool.total
  }

  lemma AdmissionCapped(c: Ctx, m: nat)
    requires Chargeable(Local(c.sem, c.pool)) && c.p.base.NonNegative() && c.p.base.memory <= m
    ensures Capped(c.sem, OnAdmission(c).c.sem, Cap(c.sem, c.pool.total, m))
  {
    hide Consume;
    var c1 := OnActive(Check(c, !c.p.state.ActiveAwait?));
    ConsumeCapped(c1, c1.p.base, m);
  }

  lemma GrantCapped(c: Ctx, m: nat)
    requires Chargeable(Local(c.sem, c.pool)) && 0 <= c.p.requested <= m
    ensures Capped(c.sem, OnGrantedMemory(c).c.sem, Cap(c.sem, c.pool.total, m))
  {
    hide Consume;
    var c1 := if c.p.state.WaitingForMemory? then OnActive(c) else c;
    ConsumeCapped(c1.(p := c1.p.(requested := 0)), Resources(0, c1.p.requested), m);
  }

  lemma DoWaitAdmissionCapped(c: Ctx, m: nat)
    requires Chargeable(Local(c.sem, c.pool)) && c.p.base.NonNegative() && c.p.base.memory <= m
    ensures Capped(c.sem, DoWaitAdmission(c).sem, Cap(c.sem, c.pool.total, m))
  {
    hide OnAdmission, EnqueueWaiter, ParkReady, CanAdmitRead;
    var c0 := c.(p := c.p.(arrival := c.sem.requests), sem := c.sem.(requests := c.sem.requests + 1));
    AdmissionCapped(c0, m);
  }

  lemma AdmitFrontCapped(c: Ctx, shed: bool, m: nat)
    requires Chargeable(Local(c.sem, c.pool)) && PermitOk(c.p) && c.p.base.memory <= m && c.p.requested <= m
    ensures Capped(c.sem, AdmitFront(c, shed).sem, Cap(c.sem, c.pool.total, m))
  {
    hide OnAdmission, OnGrantedMemory, ParkReady, DequeuePermit;
    var c1 := DequeuePermit(c);
    AdmissionCapped(c1, m);
    GrantCapped(c1.(sem := c1.sem.(blessed := Some(c1.i))), m);
  }

  lemma RequestCapped(c: Ctx, memory: nat, m: nat)
    requires Chargeable(Local(c.sem, c.pool)) && PermitOk(c.p) && c.p.requested + memory <= m
    ensures Capped(c.sem, RequestMemory(c, memory).sem, Cap(c.sem, c.pool.total, m))
  {
    hide OnGrantedMemory, EnqueueWaiter, SerializeLimit, Exposure;
    var c0 := c.(p := c.p.(requested := c.p.requested + memory));
    GrantCapped(c0, m);
    GrantCapped(c0.(sem := c0.sem.(blessed := Some(c0.i))), m);
  }

  lemma RegisterCapped(c: Ctx, cap: int)
    requires PermitOk(c.p) && 0 <= cap && 0 <= c.sem.borrowed
    ensures Capped(c.sem, RegisterInactiveRead(c).sem, cap)
  {
    hide ReleaseBase, Retire, ShouldEvictInactiveRead, MoveTo, OnEvicted;
    if c.p.aborted {
      ReleaseBaseCapped(c, cap);
    } else {
      EvictedCapped(Retire(c), cap);
    }
  }

  lemma EvictedCapped(c: Ctx, cap: int)
    requires c.p.base.NonNegative() && 0 <= cap && 0 <= c.sem.borrowed
    ensures Capped(c.sem, OnEvicted(c).sem, cap)
  {
    hide ReleaseBase;
    ReleaseBaseCapped(SetState(Check(c, c.p.state.Inactive?), Evicted), cap);
  }

  lemma TimeoutCapped(c: Ctx, cap: int)
    requires PermitOk(c.p) && 0 <= cap && 0 <= c.sem.borrowed
    ensures Capped(c.sem, OnTimeout(c).sem, cap)
  {
    hide DequeuePermit, OnInactive, OnEvicted;
    EvictedCapped(DequeuePermit(c.(p := c.p.(aborted := true))), cap);
  }

  lemma DestroyCapped(c: Ctx, cap: int)
    requires PermitOk(c.p) && Unguarded(c.p) && 0 <= cap && 0 <= c.sem.borrowed
    ensures Capped(c.sem, Destroy(c).sem, cap)
  {
    hide ReleaseBase, OnNotNeedCpu, OnNotAwaits;
    ReleaseBaseCapped(c, cap);
  }

  /** One operation takes dedicated consumption beyond the cap only if it was beyond before. */
  lemma ApplyCapped(l: Local, op: Op, m: nat)
    requires Inv(l) && Allowed(l, op) && KeepsLimits(op) && Small(l, op, m)
    requires KillLimit(l.sem).At? && 0 <= l.pool.total
    ensures Capped(l.sem, Apply(l, op).sem, Cap(l.sem, l.pool.total, m))
  {
    if Charges(op) {
      ChargeCapped(l, op, m);
    } else {
      OtherCapped(l, op, m);
    }
  }

  /** Operations that may charge a permit. */
  predicate Charges(op: Op) {
    op.Obtain? || op.Readmit? || op.Admit? || op.Charge? || op.Request?
  }

  lemma ChargeCapped(l: Local, op: Op, m: nat)
    requires Inv(l) && Allowed(l, op) && Charges(op) && Small(l, op, m)
    requires KillLimit(l.sem).At? && 0 <= l.pool.total
    ensures Capped(l.sem, Apply(l, op).sem, Cap(l.sem, l.pool.total, m))
  {
    hide DoWaitAdmission, AdmitFront, Consume, RequestMemory, CanAdmitRead, PermitOk, LimitOf, Inv, Cap;
    CapCovers(l, m);
    match op
    case Obtain(base, hasFunc) =>
      ObtainCapped(l, base, hasFunc, m);
    case Readmit(i) => PermitBase(l.sem.permits[i]); DoWaitAdmissionCapped(Load(l, i), m);
    case Admit(shed) => AdmitFrontCapped(Load(l, l.sem.lists.Front()), shed, m);
    case Charge(i, r) => ConsumeCapped(Load(l, i), r, m);
    case Request(i, memory) => RequestCapped(Load(l, i), memory, m);
  }

  lemma OtherCapped(l: Local, op: Op, m: nat)
    requires Inv(l) && Allowed(l, op) && KeepsLimits(op) && !Charges(op)
    requires KillLimit(l.sem).At? && 0 <= l.pool.total
    ensures Capped(l.sem, Apply(l, op).sem, Cap(l.sem, l.pool.total, m))
  {
    if Returns(op) {
      ReturnCapped(l, op, m);
    } else {
      QuietCapped(l, op, m);
    }
  }

  /** Operations that may return units. */
  predicate Returns(op: Op) {
    op.Refund? || op.DropBase? || op.Register? || op.EvictOne? || op.DropHandle? || op.Expire? || op.End?
  }

  lemma QuietCapped(l: Local, op: Op, m: nat)
    requires Inv(l) && Allowed(l, op) && KeepsLimits(op) && !Charges(op) && !Returns(op)
    requires KillLimit(l.sem).At? && 0 <= l.pool.total
    ensures Capped(l.sem, Apply(l, op).sem, Cap(l.sem, l.pool.total, m))
  {
    hide Execute, WithReadyPermit, UnregisterInactiveRead, Mark, PermitOk, LimitOf, Inv, Cap;
    var cap := Cap(l.sem, l.pool.total, m);
    CapCovers(l, m);
    match op
    case Track =>
    case Run => ExecuteCapped(Load(l, l.sem.lists.ready[0]), cap);
    case RunReady(i) => var c := Load(l, i); ReadyCapped(c.(p := c.p.(hasFunc := true)), cap);
    case Unregister(i) => UnregisterCapped(Load(l, i), cap);
    case SetGuard(i, g) => MarkCapped(Load(l, i), g, cap);
  }

  lemma ReturnCapped(l: Local, op: Op, m: nat)
    requires Inv(l) && Allowed(l, op) && Returns(op)
    requires KillLimit(l.sem).At? && 0 <= l.pool.total
    ensures Capped(l.sem, Apply(l, op).sem, Cap(l.sem, l.pool.total, m))
  {
    hide Signal, ReleaseBase, RegisterInactiveRead, Evict, Abandon, OnTimeout, Destroy, PermitOk, LimitOf, Inv, Cap;
    var cap := Cap(l.sem, l.pool.total, m);
    CapCovers(l, m);
    match op
    case Refund(i, r) => SignalCapped(Load(l, i), r, cap);
    case DropBase(i) => PermitBase(l.sem.permits[i]); ReleaseBaseCapped(Load(l, i), cap);
    case Register(i) => RegisterCapped(Load(l, i), cap);
    case EvictOne(i) => PermitBase(l.sem.permits[i]); EvictCapped(Load(l, i), cap);
    case DropHandle(i) => AbandonCapped(Load(l, i), cap);
    case Expire(i) => TimeoutCapped(Load(l, i), cap);
    case End(i) => DestroyCapped(Load(l, i), cap);
  }

  lemma ObtainCapped(l: Local, base: Resources, hasFunc: bool, m: nat)
    requires Chargeable(l) && base.NonNegative() && base.memory <= m
    ensures var l' := Store(DoWaitAdmission(Load(Create(l, base, hasFunc), |l.sem.permits|)));
            Capped(l.sem, l'.sem, Cap(l.sem, l.pool.total, m))
  {
    hide DoWaitAdmission;
    DoWaitAdmissionCapped(Load(Create(l, base, hasFunc), |l.sem.permits|), m);
  }

  lemma PermitBase(p: Permit)
    requires PermitOk(p)
    ensures p.base.NonNegative()
  {}

  lemma CapCovers(l: Local, m: nat)
    requires Inv(l) && KillLimit(l.sem).At? && 0 <= l.pool.total
    ensures Chargeable(l) && 0 <= Cap(l.sem, l.pool.total, m) && 0 <= l.sem.borrowed
    ensures forall i: nat | i < |l.sem.permits| :: PermitOk(l.sem.permits[i])
    ensures !l.sem.lists.NoWaiter() ==> l.sem.lists.Front() < |l.sem.permits|
    ensures l.sem.lists.ready != [] ==> l.sem.lists.ready[0] < |l.sem.permits|
  {
    assert forall q: Queue, j | j in l.sem.lists.At(q) :: j < |l.sem.permits|;
    assert !l.sem.lists.NoWaiter() ==>
             l.sem.lists.Front() in l.sem.lists.At(if l.sem.lists.memory == [] then AdmissionQueue else MemoryQueue);
    assert l.sem.lists.ready != [] ==> l.sem.lists.ready[0] in l.sem.lists.At(ReadyList);
  }

  lemma ExecuteCapped(c: Ctx, cap: int)
    ensures Capped(c.sem, Execute(c).sem, cap)
  {
    hide DequeuePermit, OnActive;
  }

  lemma ReadyCapped(c: Ctx, cap: int)
    ensures Capped(c.sem, WithReadyPermit(c).sem, cap)
  {
    hide ParkReady;
  }

  lemma UnregisterCapped(c: Ctx, cap: int)
    ensures Capped(c.sem, UnregisterInactiveRead(c).sem, cap)
  {
    hide DequeuePermit, OnActive;
  }

  lemma EvictCapped(c: Ctx, cap: int)
    requires c.p.base.NonNegative() && 0 <= cap && 0 <= c.sem.borrowed
    ensures Capped(c.sem, Evict(c).sem, cap)
  {
    hide DequeuePermit, OnEvicted;
    EvictedCapped(DequeuePermit(c), cap);
  }

  lemma AbandonCapped(c: Ctx, cap: int)
    requires PermitOk(c.p) && Unguarded(c.p) && 0 <= cap && 0 <= c.sem.borrowed
    ensures Capped(c.sem, Abandon(c).sem, cap)
  {
    hide DequeuePermit, ReleaseBase, OnNotNeedCpu, OnNotAwaits;
    ReleaseBaseCapped(DequeuePermit(c), cap);
  }

  lemma MarkCapped(c: Ctx, g: Guard, cap: int)
    ensures Capped(c.sem, Mark(c, g).sem, cap)
  {}

  /** Where the semaphore at `k` is after the event: those behind a removed one move up. */
  function Moved(e: Event, k: nat): nat {
    if e.RemoveSem? && e.k < k then k - 1 else k
  }

  /** Where the semaphore at `k` before event `a` is before event `b`. */
  function Place(es: seq<Event>, a: nat, b: nat, k: nat): nat
    requires a <= b <= |es|
  {
    if a == b then k else Moved(es[b - 1], Place(es, a, b - 1, k))
  }

  lemma PlaceStep(es: seq<Event>, a: nat, b: nat, k: nat)
    requires a <= b <= |es|
    ensures Place(es, a, b, k) == if a == b then k else Moved(es[b - 1], Place(es, a, b - 1, k))
  {}

  /** The event leaves semaphore `k` and its limits in place and charges it at most `m` at a time. */
  predicate Steady(w: World, e: Event, k: nat, m: nat)
    requires Possible(w, e)
  {
    match e
    case On(j, op) => j == k ==> KeepsLimits(op) && Small(Local(w.sems[j], w.pool), op, m)
    case AddSem(_, _) => true
    case ResizePool(_) => false
    case RemoveSem(j) => j != k
  }

  /** While neither the semaphore nor the pool is resized and single charges are at most `m`,
      dedicated consumption stays within the cap. */
  lemma {:induction false} DedicatedMemoryIsBounded(ws: seq<World>, es: seq<Event>, k: nat, m: nat, a: nat, b: nat)
    requires IsRun(ws, es) && a <= b < |ws| && k < |ws[a].sems|
    requires forall t | a <= t < b :: Steady(ws[t], es[t], Place(es, a, t, k), m)
    requires KillLimit(ws[a].sems[k]).At? && 0 <= ws[a].pool.total
    requires Dedicated(ws[a].sems[k]) <= Cap(ws[a].sems[k], ws[a].pool.total, m)
    ensures Place(es, a, b, k) < |ws[b].sems|
    ensures ws[b].pool.total == ws[a].pool.total
    ensures Dedicated(ws[b].sems[Place(es, a, b, k)]) <= Cap(ws[a].sems[k], ws[a].pool.total, m)
    ensures Capped(ws[a].sems[k], ws[b].sems[Place(es, a, b, k)], Cap(ws[a].sems[k], ws[a].pool.total, m))
    decreases b
  {
    hide Next, WorldOk, Possible, Steady, Place, Moved;
    PlaceStep(es, a, b, k);
    if a < b {
      DedicatedMemoryIsBounded(ws, es, k, m, a, b - 1);
      RunOk(ws, es, b - 1);
      var j := Place(es, a, b - 1, k);
      assert Steady(ws[b - 1], es[b - 1], j, m);
      NextCapped(ws[b - 1], es[b - 1], j, m);
    }
  }

  lemma NextCapped(w: World, e: Event, k: nat, m: nat)
    requires WorldOk(w) && Possible(w, e) && k < |w.sems| && Steady(w, e, k, m)
    requires KillLimit(w.sems[k]).At? && 0 <= w.pool.total
    ensures var w', k' := Next(w, e), Moved(e, k);
            && k' < |w'.sems|
            && w'.pool.total == w.pool.total
            && Capped(w.sems[k], w'.sems[k'], Cap(w.sems[k], w.pool.total, m))
  {
    hide WorldOk, Apply, Allowed, Small, Cap, LimitOf;
    match e
    case On(j, op) =>
      LocalView(w, j);
      ApplyKeeps(Local(w.sems[j], w.pool), op);
      if j == k {
        ApplyCapped(Local(w.sems[k], w.pool), op, m);
      }
    case AddSem(_, _) =>
    case RemoveSem(_) =>
  }
}
