/** Reads are admitted in the order in which they asked, and the blessed permit never waits. */
module SemaphoreFairness {
  import opened Wrappers
  import opened ReaderPermit
  import opened Semaphore
  import opened SemaphoreInvariant
  import opened SemaphoreSteps
  import opened SemaphoreOperations
  import opened SemaphoreRuns
  import opened SemaphoreConditions

  /** The permit an operation works on. */
  function Focus(l: Local, op: Op): nat
    requires Allowed(l, op)
  {
    match op
    case Obtain(_, _) => |l.sem.permits|
    case Track => |l.sem.permits|
    case Admit(_) => l.sem.lists.Front()
    case Run => l.sem.lists.ready[0]
    case Resize(_, _) => |l.sem.permits|
    case Configure(_) => |l.sem.permits|
    case Readmit(i) => i
    case RunReady(i) => i
    case Charge(i, _) => i
    case Refund(i, _) => i
    case DropBase(i) => i
    case Request(i, _) => i
    case Register(i) => i
    case Unregister(i) => i
    case EvictOne(i) => i
    case DropHandle(i) => i
    case Expire(i) => i
    case SetGuard(i, _) => i
    case End(i) => i
  }

  predicate AsksForAdmission(op: Op) {
    op.Obtain? || op.Readmit?
  }

  /** How one permit may change in an operation that is not about its admission. */
  predicate Ordinary(p: Permit, p': Permit) {
    && p'.arrival == p.arrival
    && (p'.baseConsumed ==> p.baseConsumed)
  }

  /** The context's semaphore still holds the old table, and no request was counted. */
  predicate SameTable(c: Ctx, c': Ctx) {
    c'.i == c.i && c'.sem.permits == c.sem.permits && c'.sem.requests == c.sem.requests
  }

  lemma MarkTouches(c: Ctx, g: Guard)
    ensures var c' := Mark(c, g);
            SameTable(c, c') && Ordinary(c.p, c'.p) && c'.p.hook == c.p.hook && c'.p.live == c.p.live
  {}

  lemma RequestTouches(c: Ctx, memory: nat)
    ensures var c' := RequestMemory(c, memory); SameTable(c, c') && Ordinary(c.p, c'.p)
  {
    hide EnqueueWaiter, SerializeLimit, Exposure, Kills, Take;
  }

  lemma RegisterTouches(c: Ctx)
    ensures var c' := RegisterInactiveRead(c); SameTable(c, c') && Ordinary(c.p, c'.p)
    ensures c.p.aborted ==> RegisterInactiveRead(c).p.hook == c.p.hook && RegisterInactiveRead(c).p.live == c.p.live
  {
    hide ReleaseBase, Retire, ShouldEvictInactiveRead, MoveTo, OnEvicted;
  }

  lemma TimeoutTouches(c: Ctx)
    ensures var c' := OnTimeout(c); SameTable(c, c') && Ordinary(c.p, c'.p)
  {
    hide DequeuePermit, OnInactive, OnEvicted;
  }

  lemma DestroyTouches(c: Ctx)
    ensures var c' := Destroy(c); SameTable(c, c') && Ordinary(c.p, c'.p)
  {
    hide ReleaseBase, OnNotNeedCpu, OnNotAwaits, Signal, Unlink;
  }

  lemma AdmitTouches(c: Ctx, shed: bool)
    ensures var c' := AdmitFront(c, shed); SameTable(c, c') && c'.p.arrival == c.p.arrival
    ensures c.p.state.WaitingForMemory? ==> AdmitFront(c, shed).p.baseConsumed == c.p.baseConsumed
  {
    hide DequeuePermit, OnAdmission, OnGrantedMemory, ParkReady;
    AdmissionTable(DequeuePermit(c));
    GrantTable(DequeuePermit(c).(sem := DequeuePermit(c).sem.(blessed := Some(c.i))));
  }

  lemma AdmissionTable(c: Ctx)
    ensures OnAdmission(c).c.sem.requests == c.sem.requests
  {
    hide Kills, Take, OnActive;
  }

  lemma GrantTable(c: Ctx)
    ensures OnGrantedMemory(c).c.sem.requests == c.sem.requests
  {
    hide Kills, Take, OnActive;
  }

  lemma WaitTouches(c: Ctx)
    ensures var c' := DoWaitAdmission(c);
            && c'.i == c.i && c'.sem.permits == c.sem.permits && c'.sem.requests == c.sem.requests + 1
            && c'.p.arrival == c.sem.requests
            && (c'.p.baseConsumed && !c.p.baseConsumed ==> c.sem.lists.NoWaiter())
  {
    hide OnAdmission, EnqueueWaiter, ParkReady, CanAdmitRead;
    AdmissionTable(c.(p := c.p.(arrival := c.sem.requests), sem := c.sem.(requests := c.sem.requests + 1)));
  }

  /** An operation changes one permit; requests for admission are numbered in order and an
      arrival number never changes otherwise; only admissions charge base units. */
  ghost predicate Touches(l: Local, op: Op)
    requires Allowed(l, op)
  {
    var l', f := Apply(l, op), Focus(l, op);
    && |l'.sem.permits| == |l.sem.permits| + (if op.Obtain? || op.Track? then 1 else 0)
    && (forall j: nat | j < |l.sem.permits| && j != f :: l'.sem.permits[j] == l.sem.permits[j])
    && (AsksForAdmission(op) ==>
          f < |l'.sem.permits| && l'.sem.permits[f].arrival == l.sem.requests && l'.sem.requests == l.sem.requests + 1)
    && (!AsksForAdmission(op) ==>
          && l'.sem.requests == l.sem.requests
          && (f < |l.sem.permits| ==> l'.sem.permits[f].arrival == l.sem.permits[f].arrival))
    && (!AsksForAdmission(op) && !op.Admit? && f < |l.sem.permits| ==>
          (l'.sem.permits[f].baseConsumed ==> l.sem.permits[f].baseConsumed))
    && (op.Track? ==> !l'.sem.permits[f].baseConsumed)
  }

  predicate Light(op: Op) {
    op.Unregister? || op.EvictOne? || op.RunReady? || op.Run?
  }

  predicate Paying(op: Op) {
    op.Charge? || op.Refund? || op.DropBase?
  }

  /** Requests for admission, and their grants. */
  predicate Admitting(op: Op) {
    op.Obtain? || op.Readmit? || op.Admit?
  }

  lemma ApplyTouches(l: Local, op: Op)
    requires Allowed(l, op)
    ensures Touches(l, op)
  {
    if Light(op) {
      LightTouches(l, op);
    } else if Paying(op) {
      PayingTouches(l, op);
    } else if op.Resize? || op.Configure? {
      SizingTouches(l, op);
    } else if Admitting(op) {
      AdmittingTouches(l, op);
    } else {
      HeavyTouches(l, op);
    }
  }

  lemma LightTouches(l: Local, op: Op)
    requires Allowed(l, op) && Light(op)
    ensures Touches(l, op)
  {
    hide DequeuePermit, OnActive, OnEvicted, ParkReady;
  }

  lemma SizingTouches(l: Local, op: Op)
    requires Allowed(l, op) && (op.Resize? || op.Configure?)
    ensures Touches(l, op)
  {}

  lemma PayingTouches(l: Local, op: Op)
    requires Allowed(l, op) && Paying(op)
    ensures Touches(l, op)
  {
    hide Consume, Signal, ReleaseBase;
  }

  lemma AdmittingTouches(l: Local, op: Op)
    requires Allowed(l, op) && Admitting(op)
    ensures Touches(l, op)
  {
    hide DoWaitAdmission, AdmitFront, CanAdmitRead;
    match op
    case Obtain(base, hasFunc) => WaitTouches(Load(Create(l, base, hasFunc), |l.sem.permits|));
    case Readmit(i) => WaitTouches(Load(l, i));
    case Admit(shed) => AdmitTouches(Load(l, l.sem.lists.Front()), shed);
  }

  lemma HeavyTouches(l: Local, op: Op)
    requires Allowed(l, op) && !Light(op) && !Paying(op) && !Admitting(op) && !op.Resize? && !op.Configure?
    ensures Touches(l, op)
  {
    hide RequestMemory, RegisterInactiveRead, OnTimeout, Mark, Destroy, DequeuePermit;
    match op
    case Track =>
    case Request(i, memory) => RequestTouches(Load(l, i), memory);
    case Register(i) => RegisterTouches(Load(l, i));
    case DropHandle(i) => DestroyTouches(DequeuePermit(Load(l, i)));
    case Expire(i) => TimeoutTouches(Load(l, i));
    case SetGuard(i, g) => MarkTouches(Load(l, i), g);
    case End(i) => DestroyTouches(Load(l, i));
  }

  // ---------- no overtaking ----------

  /** The operation charges permit `j` its base units: the read is admitted. */
  predicate Admits(l: Local, op: Op, j: nat)
    requires Allowed(l, op)
  {
    && j < |Apply(l, op).sem.permits|
    && Apply(l, op).sem.permits[j].baseConsumed
    && !(j < |l.sem.permits| && l.sem.permits[j].baseConsumed)
  }

  /** Whoever is still queued when a read is admitted asked after it. */
  lemma AdmissionFollowsArrival(l: Local, op: Op, j: nat)
    requires Inv(l) && Allowed(l, op) && Admits(l, op, j)
    ensures var s := Apply(l, op).sem;
            forall i | i in s.lists.admission :: i < |s.permits| && s.permits[j].arrival < s.permits[i].arrival
  {
    hide Inv, Apply;
    ApplyTouches(l, op);
    ApplyKeeps(l, op);
    var l' := Apply(l, op);
    assert j == Focus(l, op) && (AsksForAdmission(op) || op.Admit?);
    if AsksForAdmission(op) {
      NoneWaiting(l, op, j);
    } else {
      forall i | i in l'.sem.lists.admission
        ensures i < |l'.sem.permits| && l'.sem.permits[j].arrival < l'.sem.permits[i].arrival
      {
        FrontFirst(l, op.shed, i);
      }
    }
  }

  lemma QueuedHere(l: Local, i: nat)
    requires Inv(l) && i in l.sem.lists.admission
    ensures i < |l.sem.permits| && l.sem.permits[i].live && l.sem.permits[i].state.WaitingForAdmission?
    ensures !l.sem.permits[i].baseConsumed && l.sem.permits[i].hook == AdmissionQueue
  {
    assert i in l.sem.lists.At(AdmissionQueue);
    assert Linked(l.sem.permits[i], AdmissionQueue);
    assert PermitOk(l.sem.permits[i]);
  }

  lemma AdmittedLeaves(l: Local, j: nat)
    requires Inv(l) && j < |l.sem.permits| && l.sem.permits[j].baseConsumed
    ensures j !in l.sem.lists.admission
  {
    if j in l.sem.lists.admission {
      QueuedHere(l, j);
    }
  }

  lemma StillQueued(l: Local, i: nat)
    requires Inv(l) && i < |l.sem.permits| && Linked(l.sem.permits[i], AdmissionQueue)
    ensures i in l.sem.lists.admission
  {
    assert i in l.sem.lists.At(AdmissionQueue);
  }

  lemma FrontFirst(l: Local, shed: bool, i: nat)
    requires Inv(l) && Allowed(l, Admit(shed)) && Admits(l, Admit(shed), l.sem.lists.Front())
    requires var l' := Apply(l, Admit(shed));
             Inv(l') && i in l'.sem.lists.admission
    ensures var l', j := Apply(l, Admit(shed)), l.sem.lists.Front();
            && i < |l'.sem.permits| && j < |l'.sem.permits|
            && l'.sem.permits[j].arrival < l'.sem.permits[i].arrival
  {
    hide Inv, Apply;
    var l', j := Apply(l, Admit(shed)), l.sem.lists.Front();
    ApplyTouches(l, Admit(shed));
    QueuedHere(l', i);
    AdmittedLeaves(l', j);
    StillQueued(l, i);
    MemoryGrantIsNoAdmission(l, shed);
    HeadArrivedFirst(l, i);
  }

  lemma HeadArrivedFirst(l: Local, i: nat)
    requires Inv(l) && i in l.sem.lists.admission && i != l.sem.lists.admission[0]
    ensures var j := l.sem.lists.admission[0];
            j < |l.sem.permits| && i < |l.sem.permits| && l.sem.permits[j].arrival < l.sem.permits[i].arrival
  {
    hide Listed, PermitsOk;
    var a :| 0 <= a < |l.sem.lists.admission| && l.sem.lists.admission[a] == i;
  }

  lemma MemoryGrantIsNoAdmission(l: Local, shed: bool)
    requires Inv(l) && Allowed(l, Admit(shed)) && Admits(l, Admit(shed), l.sem.lists.Front())
    ensures l.sem.lists.memory == []
  {
    hide Inv, AdmitFront, CanAdmitRead;
    if l.sem.lists.memory != [] {
      MemoryFront(l);
      AdmitTouches(Load(l, l.sem.lists.Front()), shed);
    }
  }

  lemma MemoryFront(l: Local)
    requires Inv(l) && l.sem.lists.memory != []
    ensures var i := l.sem.lists.Front(); i < |l.sem.permits| && l.sem.permits[i].state.WaitingForMemory?
  {
    assert l.sem.lists.Front() in l.sem.lists.At(MemoryQueue);
    assert Linked(l.sem.permits[l.sem.lists.Front()], MemoryQueue);
    assert PermitOk(l.sem.permits[l.sem.lists.Front()]);
  }

  /** A read is admitted on the spot only if nobody waits. */
  lemma NoneWaiting(l: Local, op: Op, j: nat)
    requires Inv(l) && Allowed(l, op) && AsksForAdmission(op) && Admits(l, op, j) && j == Focus(l, op)
    requires Inv(Apply(l, op))
    ensures Apply(l, op).sem.lists.admission == []
  {
    hide Inv, DoWaitAdmission;
    var l' := Apply(l, op);
    ApplyTouches(l, op);
    match op {
      case Obtain(base, hasFunc) => WaitTouches(Load(Create(l, base, hasFunc), |l.sem.permits|));
      case Readmit(k) => WaitTouches(Load(l, k));
    }
    if l'.sem.lists.admission != [] {
      var i := l'.sem.lists.admission[0];
      QueuedHere(l', i);
      AdmittedLeaves(l', j);
      StillQueued(l, i);
    }
  }

  lemma WaitNeedsSlot(c: Ctx)
    requires !c.p.state.WaitingForMemory? && !c.p.baseConsumed && DoWaitAdmission(c).p.baseConsumed
    ensures DoWaitAdmission(c).p.base == c.p.base
    ensures c.sem.lists.ready == [] && !CpuConcurrencyLimitReached(c.sem)
    ensures HasAvailableUnits(c.sem, c.pool, c.p.base) == AllOk
  {
    hide OnAdmission, EnqueueWaiter, ParkReady, LimitOf, Exposure;
    AdmissionTable(c.(p := c.p.(arrival := c.sem.requests), sem := c.sem.(requests := c.sem.requests + 1)));
  }

  /** A read is admitted only while no read waits to be run, a CPU slot is free and its base units
      are available. */
  lemma AdmissionHasSlot(l: Local, op: Op, j: nat)
    requires Inv(l) && Allowed(l, op) && Admits(l, op, j)
    ensures l.sem.lists.ready == [] && SlotsTaken(l.sem.permits) < l.sem.config.cpuConcurrency
    ensures Affordable(l, Apply(l, op).sem.permits[j].base)
  {
    hide Inv, Apply, Allowed, SlotsTaken, Affordable, CpuConcurrencyLimitReached, HasAvailableUnits;
    AdmissionIsDecided(l, op, j);
    SlotsMean(l);
    UnitsMean(l, Apply(l, op).sem.permits[j].base);
  }

  lemma AdmissionIsDecided(l: Local, op: Op, j: nat)
    requires Inv(l) && Allowed(l, op) && Admits(l, op, j)
    ensures l.sem.lists.ready == [] && !CpuConcurrencyLimitReached(l.sem)
    ensures HasAvailableUnits(l.sem, l.pool, Apply(l, op).sem.permits[j].base) == AllOk
  {
    hide Inv, DoWaitAdmission, AdmitFront, LimitOf, Exposure;
    ApplyTouches(l, op);
    assert j == Focus(l, op) && (AsksForAdmission(op) || op.Admit?);
    match op
    case Obtain(base, hasFunc) =>
      WaitTouches(Load(Create(l, base, hasFunc), |l.sem.permits|));
      WaitNeedsSlot(Load(Create(l, base, hasFunc), |l.sem.permits|));
    case Readmit(i) =>
      WaitTouches(Load(l, i));
      WaitNeedsSlot(Load(l, i));
    case Admit(shed) =>
      MemoryGrantIsNoAdmission(l, shed);
      FrontIsForAdmission(l);
      AdmitKeepsBase(Load(l, j), shed);
  }

  lemma FrontIsForAdmission(l: Local)
    requires Inv(l) && !l.sem.lists.NoWaiter() && l.sem.lists.memory == []
    ensures var i := l.sem.lists.Front();
            i < |l.sem.permits| && l.sem.permits[i].state.WaitingForAdmission?
  {
    var i := l.sem.lists.Front();
    assert i in l.sem.lists.At(AdmissionQueue);
    assert PermitOk(l.sem.permits[i]);
  }

  lemma AdmitKeepsBase(c: Ctx, shed: bool)
    ensures AdmitFront(c, shed).p.base == c.p.base && AdmitFront(c, shed).i == c.i
  {
    hide Kills, Take, OnActive, OnInactive;
  }

  /** In every run, a read is admitted only when every earlier request for admission has left the
      queue; requests are numbered in the order in which they were made. */
  lemma NoOvertaking(ws: seq<World>, es: seq<Event>, t: nat, k: nat, op: Op, j: nat)
    requires IsRun(ws, es) && t < |es| && es[t] == On(k, op)
    requires Admits(Local(ws[t].sems[k], ws[t].pool), op, j)
    ensures var s := ws[t + 1].sems[k];
            forall i | i in s.lists.admission :: i < |s.permits| && s.permits[j].arrival < s.permits[i].arrival
  {
    hide WorldOk, Inv, Apply, Admits;
    RunOk(ws, es, t);
    LocalView(ws[t], k);
    AdmissionFollowsArrival(Local(ws[t].sems[k], ws[t].pool), op, j);
  }

  /** A queued read leaves the queue only at its front, by being admitted, refused by the kill
      limit or shed, or by timing out. */
  lemma LeavingTheQueue(l: Local, op: Op, i: nat)
    requires Inv(l) && Allowed(l, op)
    requires i in l.sem.lists.admission && i !in Apply(l, op).sem.lists.admission
    ensures op == Expire(i) || (op.Admit? && i == l.sem.lists.admission[0] && l.sem.lists.memory == [])
  {
    hide Inv, Apply;
    QueuedHere(l, i);
    ApplyTouches(l, op);
    ApplyKeeps(l, op);
    var l' := Apply(l, op);
    if Focus(l, op) != i {
      StillQueued(l', i);
    } else if op.Admit? {
      FrontIsWaiting(l, i);
    } else {
      StaysInPlace(l, op, i);
      if op != Expire(i) {
        StillQueued(l', i);
      }
    }
  }

  lemma FrontIsWaiting(l: Local, i: nat)
    requires Inv(l) && !l.sem.lists.NoWaiter() && l.sem.lists.Front() == i && i in l.sem.lists.admission
    ensures l.sem.lists.memory == []
  {
    QueuedHere(l, i);
    assert l.sem.lists.memory != [] ==> l.sem.lists.memory[0] in l.sem.lists.At(MemoryQueue);
  }

  lemma StaysInPlace(l: Local, op: Op, i: nat)
    requires Inv(l) && Allowed(l, op) && Focus(l, op) == i && i < |l.sem.permits| && !op.Admit?
    requires l.sem.permits[i].hook == AdmissionQueue && l.sem.permits[i].live
    ensures op == Expire(i) ||
            var l' := Apply(l, op);
            i < |l'.sem.permits| && l'.sem.permits[i].live && l'.sem.permits[i].hook == AdmissionQueue
  {
    hide Mark, Consume, Signal, ReleaseBase, RegisterInactiveRead, Listed, InOrder, DoWaitAdmission, AdmitFront,
      RequestMemory, Destroy, OnTimeout, OnEvicted, OnActive, DequeuePermit, CanAdmitRead, ParkReady;
    assert PermitOk(l.sem.permits[i]);
    match op
    case SetGuard(_, g) => MarkTouches(Load(l, i), g);
    case Register(_) => RegisterTouches(Load(l, i));
    case Run =>
      assert i in l.sem.lists.At(ReadyList);
      ReadyHook(l, i);
    case _ =>
  }

  lemma ReadyHook(l: Local, i: nat)
    requires Inv(l) && i in l.sem.lists.ready
    ensures i < |l.sem.permits| && l.sem.permits[i].hook == ReadyList
  {
    assert i in l.sem.lists.At(ReadyList);
    assert Linked(l.sem.permits[i], ReadyList);
  }

  lemma ListedAt(s: Sem, q: Queue)
    requires SemOk(s)
    ensures forall j | j in s.lists.At(q) :: j < |s.permits| && Linked(s.permits[j], q)
  {}

  /** In every state of every run the blessed permit is alive and waits neither for admission nor
      for memory. */
  lemma BlessedNeverWaits(ws: seq<World>, es: seq<Event>, t: nat, k: nat)
    requires IsRun(ws, es) && t < |ws| && k < |ws[t].sems|
    ensures var s := ws[t].sems[k];
            s.blessed.Some? ==>
              && s.blessed.value < |s.permits| && s.permits[s.blessed.value].live
              && s.blessed.value !in s.lists.admission && s.blessed.value !in s.lists.memory
  {
    RunOk(ws, es, t);
    var s := ws[t].sems[k];
    assert SemOk(s);
    if s.blessed.Some? {
      var b := s.blessed.value;
      assert PermitOk(s.permits[b]);
      ListedAt(s, AdmissionQueue);
      ListedAt(s, MemoryQueue);
    }
  }
}
