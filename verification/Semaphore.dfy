/** What each operation of `reader_concurrency_semaphore` and `reader_permit::impl` does to the
    fields, as functions on values.  An operation on one permit works on a context that holds the
    semaphore, the pool and the permit itself. */
module Semaphore {
  import opened Wrappers
  import opened ReaderPermit

  /** Operation context: permit number `i` is being changed and its current value is `p`; the
      entry `sem.permits[i]` is stale until `Store`. */
  datatype Ctx = Ctx(sem: Sem, pool: Pool, i: nat, p: Permit)

  /** A semaphore together with the pool it borrows from. */
  datatype Local = Local(sem: Sem, pool: Pool)

  /** The context after a charge that may throw `memory_limit_reached`. */
  datatype Outcome = Outcome(c: Ctx, ok: bool)

  function Load(l: Local, i: nat): Ctx
    requires i < |l.sem.permits|
  {
    Ctx(l.sem, l.pool, i, l.sem.permits[i])
  }

  function Store(c: Ctx): Local {
    if c.i < |c.sem.permits| then Local(c.sem.(permits := c.sem.permits[c.i := c.p]), c.pool)
    else Local(c.sem, c.pool)
  }

  function Check(c: Ctx, ok: bool): Ctx {
    if ok then c else c.(sem := c.sem.(fault := true))
  }

  // ---------- lists ----------

  function Without(l: seq<nat>, i: nat): seq<nat> {
    if l == [] then [] else if l[0] == i then l[1..] else [l[0]] + Without(l[1..], i)
  }

  function Cut(ls: Lists, q: Queue, i: nat): Lists {
    ls.With(q, Without(ls.At(q), i))
  }

  function Append(ls: Lists, q: Queue, i: nat): Lists {
    ls.With(q, ls.At(q) + [i])
  }

  function Unlink(c: Ctx): (r: Ctx)
    ensures r == c.(sem := c.sem.(lists := r.sem.lists))
  {
    c.(sem := c.sem.(lists := Cut(c.sem.lists, c.p.hook, c.i)))
  }

  /** Unlink the permit and append it to another list. */
  function MoveTo(c: Ctx, q: Queue): (r: Ctx)
    ensures r == c.(sem := c.sem.(lists := r.sem.lists), p := c.p.(hook := q))
  {
    var u := Unlink(c);
    u.(sem := u.sem.(lists := Append(u.sem.lists, q, c.i)), p := c.p.(hook := q))
  }

  /** The permit no longer counts as waiting or inactive. */
  function Uncounted(c: Ctx): (r: Ctx)
    ensures r == c.(sem := c.sem.(waiters := r.sem.waiters, inactiveReads := r.sem.inactiveReads, fault := r.sem.fault))
  {
    match c.p.state
    case WaitingForAdmission | WaitingForMemory | WaitingForExecution =>
      if c.sem.waiters > 0 then c.(sem := c.sem.(waiters := c.sem.waiters - 1)) else Check(c, false)
    case Inactive | Evicted => c.(sem := c.sem.(inactiveReads := c.sem.inactiveReads - 1))
    case _ => Check(c, false)
  }

  /** Only the lists and the two queue counters change. */
  function DequeuePermit(c: Ctx): (r: Ctx)
    ensures r == c.(sem := c.sem.(lists := r.sem.lists, waiters := r.sem.waiters,
                                  inactiveReads := r.sem.inactiveReads, fault := r.sem.fault),
                    p := c.p.(hook := PermitList))
  {
    MoveTo(Uncounted(c), PermitList)
  }

  // ---------- CPU slots ----------

  function OnNeedCpu(c: Ctx): Ctx {
    c.(sem := c.sem.(needCpuPermits := c.sem.needCpuPermits + 1), p := c.p.(needCpu := true))
  }

  function OnNotNeedCpu(c: Ctx): (r: Ctx)
    ensures r == c.(sem := c.sem.(needCpuPermits := c.sem.needCpuPermits - 1, fault := r.sem.fault),
                    p := c.p.(needCpu := false))
  {
    var c1 := Check(c, c.sem.needCpuPermits != 0);
    var c2 := c1.(sem := c1.sem.(needCpuPermits := c1.sem.needCpuPermits - 1));
    var c3 := Check(c2, c2.sem.needCpuPermits >= c2.sem.awaitsPermits);
    c3.(p := c3.p.(needCpu := false))
  }

  function OnAwaits(c: Ctx): (r: Ctx)
    ensures r == c.(sem := c.sem.(awaitsPermits := c.sem.awaitsPermits + 1, fault := r.sem.fault),
                    p := c.p.(awaits := true))
  {
    var c1 := c.(sem := c.sem.(awaitsPermits := c.sem.awaitsPermits + 1));
    var c2 := Check(c1, c1.sem.needCpuPermits >= c1.sem.awaitsPermits);
    c2.(p := c2.p.(awaits := true))
  }

  function OnNotAwaits(c: Ctx): (r: Ctx)
    ensures r == c.(sem := c.sem.(awaitsPermits := c.sem.awaitsPermits - 1, fault := r.sem.fault),
                    p := c.p.(awaits := false))
  {
    var c1 := Check(c, c.sem.awaitsPermits != 0);
    c1.(sem := c1.sem.(awaitsPermits := c1.sem.awaitsPermits - 1), p := c1.p.(awaits := false))
  }

  function SetState(c: Ctx, st: State): Ctx {
    c.(p := c.p.(state := st))
  }

  function NeedCpuNow(c: Ctx): (r: Ctx)
    ensures r == c.(sem := c.sem.(needCpuPermits := c.sem.needCpuPermits + 1),
                    p := c.p.(state := ActiveNeedCpu, needCpu := true))
  {
    OnNeedCpu(SetState(c, ActiveNeedCpu))
  }

  function AwaitNow(c: Ctx): (r: Ctx)
    ensures r == c.(sem := c.sem.(awaitsPermits := c.sem.awaitsPermits + 1, fault := r.sem.fault),
                    p := c.p.(state := ActiveAwait, awaits := true))
  {
    OnAwaits(SetState(c, ActiveAwait))
  }

  /** Only the permit's state and the CPU marks change. */
  function OnActive(c: Ctx): (r: Ctx)
    ensures r.p.state.Running()
    ensures r == c.(sem := c.sem.(needCpuPermits := r.sem.needCpuPermits, awaitsPermits := r.sem.awaitsPermits,
                                  fault := r.sem.fault),
                    p := c.p.(state := r.p.state, needCpu := r.p.needCpu, awaits := r.p.awaits))
  {
    if c.p.needCpuBranches != 0 then
      var c1 := NeedCpuNow(c);
      if c.p.awaitsBranches != 0 then AwaitNow(c1) else c1
    else
      SetState(c, Active)
  }

  function OnInactive(c: Ctx, st: State): (r: Ctx)
    ensures r == c.(sem := c.sem.(needCpuPermits := r.sem.needCpuPermits, awaitsPermits := r.sem.awaitsPermits,
                                  fault := r.sem.fault),
                    p := c.p.(state := st, needCpu := false, awaits := false, requested := r.p.requested))
  {
    Unmarked(c.(p := c.p.(state := st, requested := if c.p.state.WaitingForMemory? then 0 else c.p.requested)))
  }

  /** Neither need_cpu nor awaits any longer. */
  function Unmarked(c: Ctx): (r: Ctx)
    ensures r == c.(sem := c.sem.(needCpuPermits := r.sem.needCpuPermits, awaitsPermits := r.sem.awaitsPermits,
                                  fault := r.sem.fault),
                    p := c.p.(needCpu := false, awaits := false))
  {
    var c1 := if c.p.awaits then OnNotAwaits(c) else c;
    if c1.p.needCpu then OnNotNeedCpu(c1) else c1
  }

  function MarkNeedCpu(c: Ctx): Ctx {
    var c1 := c.(p := c.p.(needCpuBranches := c.p.needCpuBranches + 1));
    if !c1.p.needCpu && c1.p.state.Active? then
      MaybeAwait(NeedCpuNow(c1))
    else
      c1
  }

  function MaybeAwait(c: Ctx): Ctx {
    if c.p.awaitsBranches != 0 && !c.p.awaits then AwaitNow(c) else c
  }

  function MarkNotNeedCpu(c: Ctx): Ctx {
    var c0 := Check(c, c.p.needCpuBranches != 0);
    var c1 := c0.(p := c0.p.(needCpuBranches := c0.p.needCpuBranches - 1));
    if c1.p.needCpu && c1.p.needCpuBranches == 0 then StopNeedingCpu(c1) else c1
  }

  function StopNeedingCpu(c: Ctx): Ctx {
    var c1 := if c.p.awaits then OnNotAwaits(c) else c;
    OnNotNeedCpu(SetState(c1, Active))
  }

  function MarkAwaits(c: Ctx): Ctx {
    var c1 := c.(p := c.p.(awaitsBranches := c.p.awaitsBranches + 1));
    if c1.p.awaitsBranches == 1 && c1.p.state.ActiveNeedCpu? then AwaitNow(c1) else c1
  }

  function MarkNotAwaits(c: Ctx): Ctx {
    var c0 := Check(c, c.p.awaitsBranches != 0);
    var c1 := c0.(p := c0.p.(awaitsBranches := c0.p.awaitsBranches - 1));
    if c1.p.awaits && c1.p.awaitsBranches == 0 then OnNotAwaits(SetState(c1, ActiveNeedCpu)) else c1
  }

  // ---------- charging and repaying ----------

  /** A memory threshold; a disabled one is never reached. */
  datatype Limit = Disabled | At(n: int) {
    predicate ReachedBy(x: int) {
      At? && x >= n
    }
  }

  function LimitOf(s: Sem, multiplier: nat): Limit {
    if multiplier == 0 || multiplier == UINT32_MAX || s.Unlimited() || s.initial.memory * multiplier < 0
    then Disabled
    else At(s.initial.memory * multiplier)
  }

  function SerializeLimit(s: Sem): Limit {
    LimitOf(s, s.config.serializeLimitMultiplier)
  }

  function KillLimit(s: Sem): Limit {
    LimitOf(s, s.config.killLimitMultiplier)
  }

  /** `oom_protection_consumed_memory`. */
  function Exposure(s: Sem, pool: Pool): int {
    s.Consumed().memory - pool.Free()
  }

  predicate Kills(s: Sem, pool: Pool, r: Resources) {
    && s.available.memory <= 0
    && KillLimit(s).ReachedBy(Exposure(s, pool) + r.memory)
    && s.Consumed().memory + r.memory >= s.unreduced * s.config.killLimitMultiplier
  }

  function Min(a: int, b: int): int {
    if a < b then a else b
  }

  /** `reader_concurrency_semaphore::consume` past the kill check. */
  function Take(l: Local, units: Resources): (r: Local)
    ensures r.sem == l.sem.(available := r.sem.available, borrowed := r.sem.borrowed)
  {
    var l1 :=
      if l.sem.available.memory < units.memory && l.pool.Free() > 0 then
        var fromPool := Min(units.memory - l.sem.available.memory, l.pool.Free());
        Local(l.sem.(borrowed := l.sem.borrowed + fromPool,
                     available := l.sem.available.Plus(Resources(0, fromPool))),
              l.pool.Borrow(fromPool))
      else l;
    l1.(sem := l1.sem.(available := l1.sem.available.Minus(units)))
  }

  /** The part of returned memory that only refills the deficit. */
  function DeficitRecovery(s: Sem, r: Resources): int {
    if -s.available.memory < 0 then 0 else Min(-s.available.memory, r.memory)
  }

  /** The part of returned memory that goes back to the pool. */
  function PoolReturn(s: Sem, r: Resources): int {
    Min(r.memory - DeficitRecovery(s, r), s.borrowed)
  }

  function RepaySharedPool(l: Local, r: Resources): (Local, Resources) {
    var back := PoolReturn(l.sem, r);
    var l1 :=
      if back > 0 then Local(l.sem.(borrowed := l.sem.borrowed - back), l.pool.Repay(back)) else l;
    (l1, Resources(r.count, r.memory - back))
  }

  /** `reader_concurrency_semaphore::signal`. */
  function Give(l: Local, units: Resources): (r: Local)
    ensures r.sem == l.sem.(available := r.sem.available, borrowed := r.sem.borrowed, fault := r.sem.fault)
  {
    var (l1, returned) := if l.sem.borrowed > 0 then RepaySharedPool(l, units) else (l, units);
    l1.(sem := Credit(l1.sem, returned))
  }

  /** The units become available; more than the limits is a leak that is clamped. */
  function Credit(s: Sem, units: Resources): (r: Sem)
    ensures r == s.(available := r.available, fault := r.fault)
  {
    var a := s.available.Plus(units);
    if a.count > s.initial.count || a.memory > s.initial.memory then
      s.(available := Resources(Min(a.count, s.initial.count), Min(a.memory, s.initial.memory)), fault := true)
    else
      s.(available := a)
  }

  function Lift(c: Ctx, l: Local): Ctx {
    c.(sem := l.sem, pool := l.pool)
  }

  /** Only the accounts change; a killed charge changes nothing. */
  function Consume(c: Ctx, units: Resources): (r: Outcome)
    ensures r.c == c.(sem := c.sem.(available := r.c.sem.available, borrowed := r.c.sem.borrowed), pool := r.c.pool,
                      p := c.p.(charged := if r.ok then c.p.charged.Plus(units) else c.p.charged))
    ensures !r.ok ==> r.c == c
  {
    if Kills(c.sem, c.pool, units) then Outcome(c, false)
    else
      var c1 := Lift(c, Take(Local(c.sem, c.pool), units));
      Outcome(c1.(p := c1.p.(charged := c1.p.charged.Plus(units))), true)
  }

  function Signal(c: Ctx, units: Resources): (r: Ctx)
    ensures r == c.(sem := c.sem.(available := r.sem.available, borrowed := r.sem.borrowed, fault := r.sem.fault),
                    pool := r.pool, p := c.p.(charged := c.p.charged.Minus(units)))
  {
    var c1 := c.(p := c.p.(charged := c.p.charged.Minus(units)));
    Lift(c1, Give(Local(c1.sem, c1.pool), units))
  }

  function ReleaseBase(c: Ctx): (r: Ctx)
    ensures r == c.(sem := c.sem.(available := r.sem.available, borrowed := r.sem.borrowed, fault := r.sem.fault),
                    pool := r.pool,
                    p := c.p.(charged := c.p.charged.Minus(c.p.Owed()), baseConsumed := false))
  {
    if c.p.baseConsumed then Signal(c.(p := c.p.(baseConsumed := false)), c.p.base) else c
  }

  // ---------- admission ----------

  datatype Reason = AllOk | ReadyListBusy | NeedCpuPermits | MemoryResources | CountResources
  datatype Decision = No | Maybe | Yes
  datatype Admission = Admission(decision: Decision, why: Reason)

  function HasAvailableUnits(s: Sem, pool: Pool, r: Resources): Reason {
    if s.available.NonZero() && s.available.count >= r.count && s.available.memory >= r.memory then AllOk
    else if s.available.count == s.initial.count then AllOk
    else if s.available.count < r.count then CountResources
    else if pool.Free() >= r.memory - s.available.memory then AllOk
    else MemoryResources
  }

  predicate CpuConcurrencyLimitReached(s: Sem) {
    s.needCpuPermits - s.awaitsPermits >= s.config.cpuConcurrency
  }

  function CanAdmitRead(s: Sem, pool: Pool, p: Permit): Admission {
    if s.available.memory < 0 && KillLimit(s).ReachedBy(Exposure(s, pool)) then
      Admission(No, MemoryResources)
    else if s.available.memory < 0 && SerializeLimit(s).ReachedBy(Exposure(s, pool)) then
      if s.blessed.None? && p.state.WaitingForMemory? then Admission(Yes, AllOk)
      else Admission(No, MemoryResources)
    else if p.state.WaitingForMemory? then Admission(Yes, AllOk)
    else if s.lists.ready != [] then Admission(No, ReadyListBusy)
    else if CpuConcurrencyLimitReached(s) then Admission(No, NeedCpuPermits)
    else
      var reason := HasAvailableUnits(s, pool, p.base);
      if reason == AllOk then Admission(Yes, AllOk)
      else if s.lists.inactive == [] then Admission(No, reason)
      else Admission(Maybe, reason)
  }

  /** The current value of permit `j` inside a context. */
  function Lookup(c: Ctx, j: nat): Permit {
    if j < |c.sem.permits| && j != c.i then c.sem.permits[j] else c.p
  }

  predicate ShouldEvictInactiveRead(c: Ctx) {
    || c.sem.available.memory < 0
    || c.sem.available.count < 0
    || (&& !c.sem.lists.NoWaiter()
        && CanAdmitRead(c.sem, c.pool, Lookup(c, c.sem.lists.Front())).why in {MemoryResources, CountResources})
  }

  function OnAdmission(c: Ctx): (r: Outcome)
    ensures r.c.sem.lists == c.sem.lists && r.c.sem.permits == c.sem.permits && r.c.sem.blessed == c.sem.blessed
    ensures r.c.i == c.i && r.c.p.hook == c.p.hook && r.c.p.hasFunc == c.p.hasFunc && r.c.p.arrival == c.p.arrival
    ensures r.c.p.state.Running() && r.c.p.base == c.p.base
    ensures r.ok ==> r.c.p.baseConsumed
  {
    var c1 := OnActive(Check(c, !c.p.state.ActiveAwait?));
    if c1.p.baseConsumed then Outcome(Check(c1, false), false)
    else
      var o := Consume(c1, c1.p.base);
      if o.ok then o.(c := o.c.(p := o.c.p.(baseConsumed := true))) else o
  }

  function OnGrantedMemory(c: Ctx): (r: Outcome)
    ensures r.c.sem.lists == c.sem.lists && r.c.sem.permits == c.sem.permits && r.c.sem.blessed == c.sem.blessed
    ensures r.c.i == c.i && r.c.p.hook == c.p.hook && r.c.p.hasFunc == c.p.hasFunc && r.c.p.requested == 0
    ensures r.c.p.baseConsumed == c.p.baseConsumed && r.c.p.arrival == c.p.arrival
    ensures r.c.p.state == c.p.state || (c.p.state.WaitingForMemory? && r.c.p.state.Running())
  {
    var c1 := if c.p.state.WaitingForMemory? then OnActive(c) else c;
    Consume(c1.(p := c1.p.(requested := 0)), Resources(0, c1.p.requested))
  }

  /** Link the permit into the ready list. */
  function ParkReady(c: Ctx): (r: Ctx)
    ensures r == c.(sem := c.sem.(lists := r.sem.lists, waiters := c.sem.waiters + 1,
                                  needCpuPermits := r.sem.needCpuPermits, awaitsPermits := r.sem.awaitsPermits,
                                  fault := r.sem.fault),
                    p := c.p.(hook := ReadyList, state := WaitingForExecution, needCpu := false, awaits := false,
                              requested := r.p.requested))
  {
    var c1 := OnInactive(MoveTo(c, ReadyList), WaitingForExecution);
    c1.(sem := c1.sem.(waiters := c1.sem.waiters + 1))
  }

  /** `with_ready_permit`: the read is rejected when the queues are full. */
  function WithReadyPermit(c: Ctx): Ctx {
    if c.sem.waiters >= c.sem.config.maxQueueLength then c else ParkReady(c)
  }

  function EnqueueWaiter(c: Ctx, st: State): (r: Ctx)
    ensures r == c
         || r == c.(sem := c.sem.(lists := r.sem.lists, waiters := c.sem.waiters + 1,
                                  needCpuPermits := r.sem.needCpuPermits, awaitsPermits := r.sem.awaitsPermits,
                                  fault := r.sem.fault),
                    p := c.p.(hook := QueueOf(st), state := st, needCpu := false, awaits := false,
                              requested := r.p.requested))
  {
    if c.sem.waiters >= c.sem.config.maxQueueLength then c
    else
      var c1 := MoveTo(OnInactive(c, st), QueueOf(st));
      c1.(sem := c1.sem.(waiters := c1.sem.waiters + 1))
  }

  function DoWaitAdmission(c: Ctx): Ctx {
    EnterOrQueue(c.(p := c.p.(arrival := c.sem.requests), sem := c.sem.(requests := c.sem.requests + 1)))
  }

  /** Admit the permit at once if nobody waits and it is admissible, else queue it. */
  function EnterOrQueue(c: Ctx): Ctx {
    if CanAdmitRead(c.sem, c.pool, c.p).decision != Yes || !c.sem.lists.NoWaiter()
    then EnqueueWaiter(c, WaitingForAdmission)
    else
      var o := OnAdmission(c);
      if o.ok && o.c.p.hasFunc then WithReadyPermit(o.c) else o.c
  }

  /** `on_preemptive_aborted`. */
  function OnPreemptiveAborted(c: Ctx): Ctx {
    var c1 := Check(c, c.p.state.WaitingForAdmission?);
    c1.(p := c1.p.(aborted := true, state := PreemptiveAborted))
  }

  /** The permit at the front of the wait list was found admissible: one turn of the loop in
      `maybe_admit_waiters`.  `shed` says that the read is judged unlikely to finish in time. */
  function AdmitFront(c: Ctx, shed: bool): Ctx {
    var c1 := DequeuePermit(c);
    if c1.p.state.WaitingForAdmission? && shed then OnPreemptiveAborted(c1)
    else
      var o := Serve(c1);
      if o.ok && o.c.p.hasFunc then ParkReady(o.c) else o.c
  }

  /** Grants the memory waited for, blessing the permit, or admits the read. */
  function Serve(c: Ctx): Outcome {
    if c.p.state.WaitingForMemory? then OnGrantedMemory(c.(sem := c.sem.(blessed := Some(c.i)))) else OnAdmission(c)
  }

  /** One turn of the execution loop. */
  function Execute(c: Ctx): Ctx {
    var c1 := OnActive(DequeuePermit(c));
    c1.(p := c1.p.(hasFunc := false))
  }

  function RequestMemory(c: Ctx, memory: nat): Ctx {
    var c0 := c.(p := c.p.(requested := c.p.requested + memory));
    if c0.p.state.WaitingForMemory? then c0
    else if || c0.sem.available.memory > 0
            || !SerializeLimit(c0.sem).ReachedBy(Exposure(c0.sem, c0.pool) + memory)
    then OnGrantedMemory(c0).c
    else Contend(c0)
  }

  /** Above the serialize limit only the blessed permit is granted memory; the others queue. */
  function Contend(c: Ctx): Ctx {
    var c1 := if c.sem.blessed.None? then c.(sem := c.sem.(blessed := Some(c.i))) else c;
    if c1.sem.blessed == Some(c1.i) then OnGrantedMemory(c1).c
    else EnqueueWaiter(c1, WaitingForMemory)
  }

  // ---------- inactive reads, timeouts, end of life ----------

  function OnEvicted(c: Ctx): (r: Ctx)
    ensures r == c.(sem := c.sem.(available := r.sem.available, borrowed := r.sem.borrowed, fault := r.sem.fault),
                    pool := r.pool,
                    p := c.p.(charged := c.p.charged.Minus(c.p.Owed()), baseConsumed := false, state := Evicted))
  {
    var c1 := Check(c, c.p.state.Inactive?);
    ReleaseBase(SetState(c1, Evicted))
  }

  /** The first half of registering a read as inactive: it stops waiting and being blessed. */
  function Retire(c: Ctx): (r: Ctx)
    ensures r.i == c.i && r.pool == c.pool
    ensures r.sem == c.sem.(lists := r.sem.lists, waiters := r.sem.waiters, inactiveReads := r.sem.inactiveReads,
                            needCpuPermits := r.sem.needCpuPermits, awaitsPermits := r.sem.awaitsPermits,
                            blessed := r.sem.blessed, fault := r.sem.fault)
    ensures r.p == c.p.(state := Inactive, needCpu := false, awaits := false,
                        requested := r.p.requested, hook := r.p.hook)
  {
    hide Waitless, OnInactive;
    Unbless(OnInactive(Waitless(c), Inactive))
  }

  /** A read that is to become inactive no longer waits for memory. */
  function Waitless(c: Ctx): (r: Ctx)
    ensures r == c.(sem := c.sem.(lists := r.sem.lists, waiters := r.sem.waiters,
                                  inactiveReads := r.sem.inactiveReads, fault := r.sem.fault),
                    p := c.p.(hook := r.p.hook))
  {
    var c1 := if c.p.state.WaitingForMemory? then DequeuePermit(c) else c;
    Check(c1, c1.p.state in {Active, ActiveNeedCpu, WaitingForMemory})
  }

  function Unbless(c: Ctx): Ctx {
    if c.sem.blessed == Some(c.i) then c.(sem := c.sem.(blessed := None)) else c
  }

  function RegisterInactiveRead(c: Ctx): Ctx {
    if c.p.aborted then ReleaseBase(c)
    else
      var retired := Retire(c);
      if !ShouldEvictInactiveRead(retired) then
        var parked := MoveTo(retired, InactiveReads);
        parked.(sem := parked.sem.(inactiveReads := parked.sem.inactiveReads + 1))
      else OnEvicted(retired)
  }

  function UnregisterInactiveRead(c: Ctx): Ctx {
    var c1 := DequeuePermit(c);
    OnActive(Check(c1, c1.p.state.Inactive?))
  }

  function Evict(c: Ctx): Ctx {
    OnEvicted(DequeuePermit(c))
  }

  function OnTimeout(c: Ctx): Ctx {
    var c0 := c.(p := c.p.(aborted := true));
    match c0.p.state
    case Inactive => Evict(c0)
    case WaitingForAdmission | WaitingForMemory | WaitingForExecution =>
      OnInactive(DequeuePermit(c0), PreemptiveAborted)
    case _ => OnInactive(c0, PreemptiveAborted)
  }

  function ReportLeak(c: Ctx): Ctx {
    c.(sem := c.sem.(leaks := c.sem.leaks + 1))
  }

  /** `~impl`. */
  function Destroy(c: Ctx): Ctx {
    Bury(DropGuards(Repaid(c)))
  }

  /** Everything charged is returned; what was charged beyond the base units is a leak. */
  function Repaid(c: Ctx): Ctx {
    var c1 := ReleaseBase(c);
    if c1.p.charged.NonZero() then Signal(ReportLeak(c1), c1.p.charged) else c1
  }

  function DropGuards(c: Ctx): Ctx {
    var c1 := if c.p.needCpuBranches != 0 then OnNotNeedCpu(Check(c, false)) else c;
    if c1.p.awaitsBranches != 0 then OnNotAwaits(Check(c1, false)) else c1
  }

  function Bury(c: Ctx): Ctx {
    Unbless(Unlink(c).(p := c.p.(live := false)))
  }

  /** Dropping an `inactive_read_handle`, taken as the end of the permit's life. */
  function Abandon(c: Ctx): Ctx {
    Destroy(DequeuePermit(c))
  }

  function SetResources(s: Sem, r: Resources, unreduced: nat): Sem {
    s.(unreduced := unreduced, initial := r, available := s.available.Plus(r.Minus(s.initial)))
  }

  function Create(l: Local, base: Resources, hasFunc: bool): Local {
    l.(sem := l.sem.(permits := l.sem.permits + [NewPermit(base, hasFunc)],
                     lists := Append(l.sem.lists, PermitList, |l.sem.permits|)))
  }
}
