/** The semaphore, its permits and the pool as objects that are updated in place.  Each method is
    proved to take the fields where the operations of module `Semaphore` say. */
module SemaphoreObjects {
  import opened Wrappers
  import opened ReaderPermit
  import opened Semaphore
  import opened SemaphoreInvariant
  import opened SemaphoreOperations
  import opened SemaphoreRuns
  import opened SemaphoreBroken

  class SharedPool {
    var available: int
    var total: int
    ghost var fault: bool

    ghost function Value(): Pool
      reads this
    {
      Pool(available, total, fault)
    }

    constructor (memory: int)
      ensures Value() == Pool(memory, memory, false)
    {
      available, total, fault := memory, memory, false;
    }

    function AvailableMemory(): (r: int)
      reads this
      ensures r == Value().Free() >= 0
    {
      if available < 0 then 0 else available
    }

    method Borrow(amount: int)
      modifies this
      ensures Value() == old(Value()).Borrow(amount)
    {
      available := available - amount;
      if available < 0 {
        fault := true;
        available := 0;
      }
    }

    method Repay(amount: int)
      modifies this
      ensures Value() == old(Value()).Repay(amount)
    {
      available := available + amount;
      if available > total {
        fault := true;
        available := total;
      }
    }

    method SetTotalMemory(memory: int)
      modifies this
      ensures Value() == old(Value()).SetTotal(memory)
    {
      var diff := memory - total;
      total := memory;
      available := available + diff;
    }
  }

  /** `reader_permit::impl`. */
  class PermitObject {
    const base: Resources
    var charged: Resources
    var baseConsumed: bool
    var requested: int
    var needCpuBranches: int
    var awaitsBranches: int
    var needCpu: bool
    var awaits: bool
    var state: State
    var hook: Queue
    var hasFunc: bool
    var aborted: bool
    var live: bool
    ghost var arrival: nat

    ghost function Value(): Permit
      reads this
    {
      Permit(base, charged, baseConsumed, requested, needCpuBranches, awaitsBranches, needCpu, awaits, state, hook,
             hasFunc, aborted, live, arrival)
    }

    constructor (base: Resources, hasFunc: bool)
      ensures Value() == NewPermit(base, hasFunc)
    {
      this.base, this.hasFunc := base, hasFunc;
      charged, baseConsumed, requested := NOTHING, false, 0;
      needCpuBranches, awaitsBranches, needCpu, awaits := 0, 0, false, false;
      state, hook, aborted, live, arrival := Active, PermitList, false, true, 0;
    }
  }

  ghost function Values(ps: seq<PermitObject>): (r: seq<Permit>)
    reads ps
    ensures |r| == |ps| && forall k | 0 <= k < |ps| :: r[k] == ps[k].Value()
  {
    if ps == [] then [] else Values(ps[..|ps| - 1]) + [ps[|ps| - 1].Value()]
  }

  class ReaderConcurrencySemaphore {
    const pool: SharedPool
    var config: Config
    var initial: Resources
    var available: Resources
    var unreduced: nat
    var borrowed: int
    var permits: seq<PermitObject>
    var lists: Lists
    var waiters: int
    var inactiveReads: int
    var needCpuPermits: int
    var awaitsPermits: int
    var blessed: Option<nat>
    ghost var requests: nat
    ghost var leaks: nat
    ghost var fault: bool

    /** The fields, with the given values standing for the permits. */
    ghost function Fields(table: seq<Permit>): Sem
      reads this
    {
      Sem(config, initial, available, unreduced, borrowed, table, lists, waiters, inactiveReads,
          needCpuPermits, awaitsPermits, blessed, requests, leaks, fault)
    }

    ghost function Value(): Local
      reads this, pool, permits
    {
      Local(Fields(Values(permits)), pool.Value())
    }

    /** An operation on permit `p`, number `i`, that started with the permits as in `table`. */
    ghost function View(table: seq<Permit>, i: nat, p: PermitObject): Ctx
      reads this, pool, p
    {
      Ctx(Fields(table), pool.Value(), i, p.Value())
    }

    /** Permits are distinct objects. */
    ghost predicate Distinct()
      reads this
    {
      forall a, b | 0 <= a < b < |permits| :: permits[a] != permits[b]
    }

    /** What holds between operations: the invariant of the semaphore and its pool. */
    ghost predicate Valid()
      reads this, pool, permits
    {
      Distinct() && Inv(Value())
    }

    constructor (config: Config, limits: Resources, pool: SharedPool)
      requires 0 <= limits.memory && PoolOk(NewSem(config, limits), pool.Value())
      ensures Valid() && this.pool == pool && permits == []
      ensures Value() == Local(NewSem(config, limits), pool.Value())
    {
      this.config, this.pool := config, pool;
      initial, available, unreduced, borrowed := limits, limits, 0, 0;
      permits, lists := [], Lists([], [], [], [], []);
      waiters, inactiveReads, needCpuPermits, awaitsPermits := 0, 0, 0, 0;
      blessed, requests, leaks, fault := None, 0, 0, false;
      new;
      hide Inv;
      NewSemInv(config, limits, pool.Value());
    }

    // ---------- lists ----------

    method Unlink(p: PermitObject, i: nat, ghost table: seq<Permit>)
      modifies this`lists
      ensures View(table, i, p) == Semaphore.Unlink(old(View(table, i, p)))
    {
      lists := Cut(lists, p.hook, i);
    }

    method MoveTo(p: PermitObject, i: nat, q: Queue, ghost table: seq<Permit>)
      modifies this`lists, p`hook
      ensures View(table, i, p) == Semaphore.MoveTo(old(View(table, i, p)), q)
    {
      Unlink(p, i, table);
      lists := Append(lists, q, i);
      p.hook := q;
    }

    method DequeuePermit(p: PermitObject, i: nat, ghost table: seq<Permit>)
      modifies this`lists, this`waiters, this`inactiveReads, this`fault, p`hook
      ensures View(table, i, p) == Semaphore.DequeuePermit(old(View(table, i, p)))
    {
      hide Semaphore.MoveTo, Uncounted;
      Uncount(p, i, table);
      MoveTo(p, i, PermitList, table);
    }

    method Uncount(p: PermitObject, i: nat, ghost table: seq<Permit>)
      modifies this`waiters, this`inactiveReads, this`fault
      ensures View(table, i, p) == Uncounted(old(View(table, i, p)))
    {
      match p.state {
        case WaitingForAdmission | WaitingForMemory | WaitingForExecution =>
          if waiters > 0 {
            waiters := waiters - 1;
          } else {
            fault := true;
          }
        case Inactive | Evicted =>
          inactiveReads := inactiveReads - 1;
        case _ =>
          fault := true;
      }
    }

    // ---------- CPU slots ----------

    method OnPermitNeedCpu(p: PermitObject, i: nat, ghost table: seq<Permit>)
      modifies this`needCpuPermits, p`needCpu
      ensures View(table, i, p) == OnNeedCpu(old(View(table, i, p)))
    {
      needCpuPermits := needCpuPermits + 1;
      p.needCpu := true;
    }

    method OnPermitNotNeedCpu(p: PermitObject, i: nat, ghost table: seq<Permit>)
      modifies this`needCpuPermits, this`fault, p`needCpu
      ensures View(table, i, p) == OnNotNeedCpu(old(View(table, i, p)))
    {
      fault := fault || needCpuPermits == 0;
      needCpuPermits := needCpuPermits - 1;
      fault := fault || needCpuPermits < awaitsPermits;
      p.needCpu := false;
    }

    method OnPermitAwaits(p: PermitObject, i: nat, ghost table: seq<Permit>)
      modifies this`awaitsPermits, this`fault, p`awaits
      ensures View(table, i, p) == OnAwaits(old(View(table, i, p)))
    {
      awaitsPermits := awaitsPermits + 1;
      fault := fault || needCpuPermits < awaitsPermits;
      p.awaits := true;
    }

    method OnPermitNotAwaits(p: PermitObject, i: nat, ghost table: seq<Permit>)
      modifies this`awaitsPermits, this`fault, p`awaits
      ensures View(table, i, p) == OnNotAwaits(old(View(table, i, p)))
    {
      fault := fault || awaitsPermits == 0;
      awaitsPermits := awaitsPermits - 1;
      p.awaits := false;
    }

    method OnPermitActive(p: PermitObject, i: nat, ghost table: seq<Permit>)
      modifies this`needCpuPermits, this`awaitsPermits, this`fault, p`needCpu, p`awaits, p`state
      ensures View(table, i, p) == OnActive(old(View(table, i, p)))
    {
      hide NeedCpuNow, AwaitNow;
      if p.needCpuBranches != 0 {
        StartNeedingCpu(p, i, table);
        if p.awaitsBranches != 0 {
          StartAwaiting(p, i, table);
        }
      } else {
        p.state := Active;
      }
    }

    method StartNeedingCpu(p: PermitObject, i: nat, ghost table: seq<Permit>)
      modifies this`needCpuPermits, p`needCpu, p`state
      ensures View(table, i, p) == NeedCpuNow(old(View(table, i, p)))
    {
      p.state := ActiveNeedCpu;
      OnPermitNeedCpu(p, i, table);
    }

    method StartAwaiting(p: PermitObject, i: nat, ghost table: seq<Permit>)
      modifies this`awaitsPermits, this`fault, p`awaits, p`state
      ensures View(table, i, p) == AwaitNow(old(View(table, i, p)))
    {
      hide OnAwaits;
      p.state := ActiveAwait;
      OnPermitAwaits(p, i, table);
    }

    method OnPermitInactive(p: PermitObject, i: nat, st: State, ghost table: seq<Permit>)
      modifies this`needCpuPermits, this`awaitsPermits, this`fault, p`needCpu, p`awaits, p`state, p`requested
      ensures View(table, i, p) == OnInactive(old(View(table, i, p)), st)
    {
      hide Unmarked;
      if p.state == WaitingForMemory {
        p.requested := 0;
      }
      p.state := st;
      Unmark(p, i, table);
    }

    method Unmark(p: PermitObject, i: nat, ghost table: seq<Permit>)
      modifies this`needCpuPermits, this`awaitsPermits, this`fault, p`needCpu, p`awaits
      ensures View(table, i, p) == Unmarked(old(View(table, i, p)))
    {
      hide OnNotNeedCpu, OnNotAwaits;
      if p.awaits {
        OnPermitNotAwaits(p, i, table);
      }
      if p.needCpu {
        OnPermitNotNeedCpu(p, i, table);
      }
    }

    // ---------- charging and repaying ----------

    function LimitOfMemory(multiplier: nat): (r: Limit)
      reads this
      ensures forall table :: r == LimitOf(Fields(table), multiplier)
    {
      if || multiplier == 0
         || multiplier == UINT32_MAX
         || initial == Resources(INT_MAX, SSIZE_MAX)
         || initial.memory * multiplier < 0
      then Disabled
      else At(initial.memory * multiplier)
    }

    function OomProtectionConsumedMemory(): (r: int)
      reads this, pool
      ensures forall table :: r == Exposure(Fields(table), pool.Value())
    {
      initial.Minus(available).memory - pool.AvailableMemory()
    }

    predicate WouldKill(units: Resources): (r: bool)
      reads this, pool
      ensures forall table :: r == Kills(Fields(table), pool.Value(), units)
    {
      && available.memory <= 0
      && LimitOfMemory(config.killLimitMultiplier).ReachedBy(OomProtectionConsumedMemory() + units.memory)
      && initial.Minus(available).memory + units.memory >= unreduced * config.killLimitMultiplier
    }

    /** `ok` is false when `memory_limit_reached` is thrown. */
    method ConsumeUnits(p: PermitObject, i: nat, units: Resources, ghost table: seq<Permit>) returns (ok: bool)
      modifies this`available, this`borrowed, pool, p`charged
      ensures Outcome(View(table, i, p), ok) == Consume(old(View(table, i, p)), units)
    {
      hide Take, Kills, WouldKill;
      assert Fields(table) == old(View(table, i, p)).sem;
      ok := !WouldKill(units);
      if ok {
        TakeUnits(units, table);
        p.charged := p.charged.Plus(units);
      }
    }

    method TakeUnits(units: Resources, ghost table: seq<Permit>)
      modifies this`available, this`borrowed, pool
      ensures Local(Fields(table), pool.Value()) == Take(Local(old(Fields(table)), old(pool.Value())), units)
    {
      hide Pool.Borrow;
      if available.memory < units.memory && pool.AvailableMemory() > 0 {
        var neededFromShared := units.memory - available.memory;
        var fromPool := Min(neededFromShared, pool.AvailableMemory());
        pool.Borrow(fromPool);
        borrowed := borrowed + fromPool;
        available := available.Plus(Resources(0, fromPool));
      }
      available := available.Minus(units);
    }

    method RepaySharedPool(units: Resources, ghost table: seq<Permit>) returns (returned: Resources)
      modifies this`borrowed, pool
      ensures (Local(Fields(table), pool.Value()), returned)
                == Semaphore.RepaySharedPool(Local(old(Fields(table)), old(pool.Value())), units)
    {
      var deficitRecovery := if -available.memory < 0 then 0 else Min(-available.memory, units.memory);
      var remaining := units.memory - deficitRecovery;
      var memoryReturn := Min(remaining, borrowed);
      if memoryReturn > 0 {
        pool.Repay(memoryReturn);
        borrowed := borrowed - memoryReturn;
      }
      returned := Resources(units.count, units.memory - memoryReturn);
    }

    method SignalUnits(p: PermitObject, i: nat, units: Resources, ghost table: seq<Permit>)
      modifies this`available, this`borrowed, this`fault, pool, p`charged
      ensures View(table, i, p) == Signal(old(View(table, i, p)), units)
    {
      hide Semaphore.RepaySharedPool, Credit;
      p.charged := p.charged.Minus(units);
      var returned := units;
      if borrowed > 0 {
        returned := RepaySharedPool(units, table);
      }
      CreditUnits(returned, table);
    }

    method CreditUnits(units: Resources, ghost table: seq<Permit>)
      modifies this`available, this`fault
      ensures Fields(table) == Credit(old(Fields(table)), units)
    {
      available := available.Plus(units);
      if available.count > initial.count || available.memory > initial.memory {
        fault := true;
        available := Resources(Min(available.count, initial.count), Min(available.memory, initial.memory));
      }
    }

    method ReleaseBaseResources(p: PermitObject, i: nat, ghost table: seq<Permit>)
      modifies this`available, this`borrowed, this`fault, pool, p`charged, p`baseConsumed
      ensures View(table, i, p) == ReleaseBase(old(View(table, i, p)))
    {
      hide Signal;
      if p.baseConsumed {
        p.baseConsumed := false;
        SignalUnits(p, i, p.base, table);
      }
    }

    // ---------- admission ----------

    function HasAvailableUnits(units: Resources): (r: Reason)
      reads this, pool
      ensures forall table :: r == Semaphore.HasAvailableUnits(Fields(table), pool.Value(), units)
    {
      if available.NonZero() && available.count >= units.count && available.memory >= units.memory then AllOk
      else if available.count == initial.count then AllOk
      else if available.count < units.count then CountResources
      else if pool.AvailableMemory() >= units.memory - available.memory then AllOk
      else MemoryResources
    }

    function CanAdmitRead(p: PermitObject): (r: Admission)
      reads this, pool, p
      ensures forall table :: r == Semaphore.CanAdmitRead(Fields(table), pool.Value(), p.Value())
    {
      var consumed := OomProtectionConsumedMemory();
      if available.memory < 0 && LimitOfMemory(config.killLimitMultiplier).ReachedBy(consumed) then
        Admission(No, MemoryResources)
      else if available.memory < 0 && LimitOfMemory(config.serializeLimitMultiplier).ReachedBy(consumed) then
        if blessed.None? && p.state == WaitingForMemory then Admission(Yes, AllOk)
        else Admission(No, MemoryResources)
      else if p.state == WaitingForMemory then Admission(Yes, AllOk)
      else if lists.ready != [] then Admission(No, ReadyListBusy)
      else if needCpuPermits - awaitsPermits >= config.cpuConcurrency then Admission(No, NeedCpuPermits)
      else
        var reason := HasAvailableUnits(p.base);
        if reason == AllOk then Admission(Yes, AllOk)
        else if lists.inactive == [] then Admission(No, reason)
        else Admission(Maybe, reason)
    }

    method OnPermitAdmission(p: PermitObject, i: nat, ghost table: seq<Permit>) returns (ok: bool)
      modifies this`needCpuPermits, this`awaitsPermits, this`fault, this`available, this`borrowed, pool
      modifies p`needCpu, p`awaits, p`state, p`charged, p`baseConsumed
      ensures Outcome(View(table, i, p), ok) == OnAdmission(old(View(table, i, p)))
    {
      hide OnActive, Consume;
      fault := fault || p.state == ActiveAwait;
      OnPermitActive(p, i, table);
      if p.baseConsumed {
        fault := true;
        return false;
      }
      ok := ConsumeUnits(p, i, p.base, table);
      if ok {
        p.baseConsumed := true;
      }
    }

    method GrantMemory(p: PermitObject, i: nat, ghost table: seq<Permit>) returns (ok: bool)
      modifies this`needCpuPermits, this`awaitsPermits, this`fault, this`available, this`borrowed, pool
      modifies p`needCpu, p`awaits, p`state, p`charged, p`requested
      ensures Outcome(View(table, i, p), ok) == OnGrantedMemory(old(View(table, i, p)))
    {
      hide OnActive, Consume;
      if p.state == WaitingForMemory {
        OnPermitActive(p, i, table);
      }
      var units := Resources(0, p.requested);
      p.requested := 0;
      ok := ConsumeUnits(p, i, units, table);
    }

    method PushReady(p: PermitObject, i: nat, ghost table: seq<Permit>)
      modifies this`lists, this`waiters, this`needCpuPermits, this`awaitsPermits, this`fault
      modifies p`hook, p`needCpu, p`awaits, p`state, p`requested
      ensures View(table, i, p) == ParkReady(old(View(table, i, p)))
    {
      hide Semaphore.MoveTo, OnInactive;
      MoveTo(p, i, ReadyList, table);
      OnPermitInactive(p, i, WaitingForExecution, table);
      waiters := waiters + 1;
    }

    method WithReady(p: PermitObject, i: nat, ghost table: seq<Permit>)
      modifies this`lists, this`waiters, this`needCpuPermits, this`awaitsPermits, this`fault
      modifies p`hook, p`needCpu, p`awaits, p`state, p`requested
      ensures View(table, i, p) == WithReadyPermit(old(View(table, i, p)))
    {
      hide ParkReady;
      if waiters < config.maxQueueLength {
        PushReady(p, i, table);
      }
    }

    method Enqueue(p: PermitObject, i: nat, st: State, ghost table: seq<Permit>)
      modifies this`lists, this`waiters, this`needCpuPermits, this`awaitsPermits, this`fault
      modifies p`hook, p`needCpu, p`awaits, p`state, p`requested
      ensures View(table, i, p) == EnqueueWaiter(old(View(table, i, p)), st)
    {
      hide Semaphore.MoveTo, OnInactive;
      if waiters < config.maxQueueLength {
        OnPermitInactive(p, i, st, table);
        MoveTo(p, i, QueueOf(st), table);
        waiters := waiters + 1;
      }
    }

    method AskAdmission(p: PermitObject, i: nat, ghost table: seq<Permit>)
      modifies this, pool, p
      ensures permits == old(permits)
      ensures View(table, i, p) == DoWaitAdmission(old(View(table, i, p)))
    {
      hide EnterOrQueue;
      p.arrival := requests;
      requests := requests + 1;
      EnterOrWait(p, i, table);
    }

    method EnterOrWait(p: PermitObject, i: nat, ghost table: seq<Permit>)
      modifies this, pool, p
      ensures permits == old(permits)
      ensures View(table, i, p) == EnterOrQueue(old(View(table, i, p)))
    {
      hide Semaphore.CanAdmitRead, OnAdmission, EnqueueWaiter, WithReadyPermit;
      if CanAdmitRead(p).decision != Yes || !lists.NoWaiter() {
        Enqueue(p, i, WaitingForAdmission, table);
      } else {
        var ok := OnPermitAdmission(p, i, table);
        if ok && p.hasFunc {
          WithReady(p, i, table);
        }
      }
    }

    method AskMemory(p: PermitObject, i: nat, memory: nat, ghost table: seq<Permit>)
      modifies this, pool, p
      ensures permits == old(permits)
      ensures View(table, i, p) == Semaphore.RequestMemory(old(View(table, i, p)), memory)
    {
      hide OnGrantedMemory, Contend, LimitOf, Exposure, Limit.ReachedBy;
      p.requested := p.requested + memory;
      if p.state == WaitingForMemory {
        return;
      }
      assert Fields(table) == old(View(table, i, p)).sem;
      if || available.memory > 0
         || !LimitOfMemory(config.serializeLimitMultiplier).ReachedBy(OomProtectionConsumedMemory() + memory) {
        var _ := GrantMemory(p, i, table);
      } else {
        ContendForMemory(p, i, table);
      }
    }

    method ContendForMemory(p: PermitObject, i: nat, ghost table: seq<Permit>)
      modifies this, pool, p
      ensures permits == old(permits)
      ensures View(table, i, p) == Contend(old(View(table, i, p)))
    {
      hide OnGrantedMemory, EnqueueWaiter;
      if blessed == None {
        blessed := Some(i);
      }
      if blessed == Some(i) {
        var _ := GrantMemory(p, i, table);
      } else {
        Enqueue(p, i, WaitingForMemory, table);
      }
    }

    method AdmitPermit(p: PermitObject, i: nat, shed: bool, ghost table: seq<Permit>)
      modifies this, pool, p
      ensures permits == old(permits)
      ensures View(table, i, p) == AdmitFront(old(View(table, i, p)), shed)
    {
      hide Semaphore.DequeuePermit, Serve, ParkReady;
      DequeuePermit(p, i, table);
      if p.state == WaitingForAdmission && shed {
        p.aborted := true;
        p.state := PreemptiveAborted;
        return;
      }
      var ok := ServePermit(p, i, table);
      if ok && p.hasFunc {
        PushReady(p, i, table);
      }
    }

    method ServePermit(p: PermitObject, i: nat, ghost table: seq<Permit>) returns (ok: bool)
      modifies this, pool, p
      ensures permits == old(permits)
      ensures Outcome(View(table, i, p), ok) == Serve(old(View(table, i, p)))
    {
      hide OnAdmission, OnGrantedMemory;
      if p.state == WaitingForMemory {
        blessed := Some(i);
        ok := GrantMemory(p, i, table);
      } else {
        ok := OnPermitAdmission(p, i, table);
      }
    }

    method ExecutePermit(p: PermitObject, i: nat, ghost table: seq<Permit>)
      modifies this, pool, p
      ensures permits == old(permits)
      ensures View(table, i, p) == Execute(old(View(table, i, p)))
    {
      hide Semaphore.DequeuePermit, OnActive;
      DequeuePermit(p, i, table);
      OnPermitActive(p, i, table);
      p.hasFunc := false;
    }

    // ---------- guards ----------

    method AddNeedCpu(p: PermitObject, i: nat, ghost table: seq<Permit>)
      modifies this, p
      ensures permits == old(permits)
      ensures View(table, i, p) == MarkNeedCpu(old(View(table, i, p)))
    {
      hide NeedCpuNow, MaybeAwait;
      p.needCpuBranches := p.needCpuBranches + 1;
      if !p.needCpu && p.state == Active {
        StartNeedingCpu(p, i, table);
        MaybeStartAwaiting(p, i, table);
      }
    }

    method MaybeStartAwaiting(p: PermitObject, i: nat, ghost table: seq<Permit>)
      modifies this`awaitsPermits, this`fault, p`awaits, p`state
      ensures View(table, i, p) == MaybeAwait(old(View(table, i, p)))
    {
      hide AwaitNow;
      if p.awaitsBranches != 0 && !p.awaits {
        StartAwaiting(p, i, table);
      }
    }

    method DropNeedCpu(p: PermitObject, i: nat, ghost table: seq<Permit>)
      modifies this, p
      ensures permits == old(permits)
      ensures View(table, i, p) == MarkNotNeedCpu(old(View(table, i, p)))
    {
      hide StopNeedingCpu;
      fault := fault || p.needCpuBranches == 0;
      p.needCpuBranches := p.needCpuBranches - 1;
      if p.needCpu && p.needCpuBranches == 0 {
        StopNeeding(p, i, table);
      }
    }

    method StopNeeding(p: PermitObject, i: nat, ghost table: seq<Permit>)
      modifies this`needCpuPermits, this`awaitsPermits, this`fault, p`needCpu, p`awaits, p`state
      ensures View(table, i, p) == StopNeedingCpu(old(View(table, i, p)))
    {
      hide OnNotNeedCpu, OnNotAwaits;
      if p.awaits {
        OnPermitNotAwaits(p, i, table);
      }
      p.state := Active;
      OnPermitNotNeedCpu(p, i, table);
    }

    method AddAwaits(p: PermitObject, i: nat, ghost table: seq<Permit>)
      modifies this, p
      ensures permits == old(permits)
      ensures View(table, i, p) == MarkAwaits(old(View(table, i, p)))
    {
      hide AwaitNow;
      p.awaitsBranches := p.awaitsBranches + 1;
      if p.awaitsBranches == 1 && p.state == ActiveNeedCpu {
        StartAwaiting(p, i, table);
      }
    }

    method DropAwaits(p: PermitObject, i: nat, ghost table: seq<Permit>)
      modifies this, p
      ensures permits == old(permits)
      ensures View(table, i, p) == MarkNotAwaits(old(View(table, i, p)))
    {
      hide OnNotAwaits;
      fault := fault || p.awaitsBranches == 0;
      p.awaitsBranches := p.awaitsBranches - 1;
      if p.awaits && p.awaitsBranches == 0 {
        p.state := ActiveNeedCpu;
        OnPermitNotAwaits(p, i, table);
      }
    }

    // ---------- inactive reads, timeouts, end of life ----------

    method EvictPermit(p: PermitObject, i: nat, ghost table: seq<Permit>)
      modifies this`available, this`borrowed, this`fault, pool, p`charged, p`baseConsumed, p`state
      ensures View(table, i, p) == OnEvicted(old(View(table, i, p)))
    {
      hide ReleaseBase;
      fault := fault || p.state != Inactive;
      p.state := Evicted;
      ReleaseBaseResources(p, i, table);
    }

    method TakeOut(p: PermitObject, i: nat, ghost table: seq<Permit>)
      modifies this, pool, p
      ensures permits == old(permits)
      ensures View(table, i, p) == Evict(old(View(table, i, p)))
    {
      hide Semaphore.DequeuePermit, OnEvicted;
      DequeuePermit(p, i, table);
      EvictPermit(p, i, table);
    }

    /** The read at the front of the wait list lacks memory or count. */
    predicate ShouldEvict()
      requires !lists.NoWaiter() ==> lists.Front() < |permits|
      reads this, pool, permits
    {
      || available.memory < 0
      || available.count < 0
      || (!lists.NoWaiter() && CanAdmitRead(permits[lists.Front()]).why in {MemoryResources, CountResources})
    }

    /** The other permits are as in `table`, and the wait list holds existing permits. */
    ghost predicate Tracks(p: PermitObject, i: nat, table: seq<Permit>)
      reads this, permits
    {
      && Distinct() && i < |permits| == |table| && permits[i] == p
      && (forall k | 0 <= k < |permits| && k != i :: permits[k].Value() == table[k])
      && (forall j | j in lists.admission :: j < |permits|)
      && (forall j | j in lists.memory :: j < |permits|)
    }

    /** Park the read as inactive, or evict it on the spot. */
    method Settle(p: PermitObject, i: nat, ghost table: seq<Permit>)
      requires Tracks(p, i, table)
      modifies this, pool, p
      ensures permits == old(permits)
      ensures View(table, i, p) ==
              var c := old(View(table, i, p));
              if ShouldEvictInactiveRead(c) then OnEvicted(c)
              else
                var m := Semaphore.MoveTo(c, InactiveReads);
                m.(sem := m.sem.(inactiveReads := m.sem.inactiveReads + 1))
    {
      hide Semaphore.CanAdmitRead, Semaphore.MoveTo, OnEvicted;
      assert !lists.NoWaiter() ==> lists.Front() in lists.admission || lists.Front() in lists.memory;
      var evict := ShouldEvict();
      assert evict == ShouldEvictInactiveRead(View(table, i, p)) by {
        if !lists.NoWaiter() {
          var f := lists.Front();
          assert Lookup(View(table, i, p), f) == permits[f].Value();
          assert CanAdmitRead(permits[f]) == Semaphore.CanAdmitRead(Fields(table), pool.Value(), permits[f].Value());
        }
      }
      if evict {
        EvictPermit(p, i, table);
      } else {
        MoveTo(p, i, InactiveReads, table);
        inactiveReads := inactiveReads + 1;
      }
    }

    method Register(p: PermitObject, i: nat, ghost table: seq<Permit>)
      requires Tracks(p, i, table)
      modifies this, pool, p
      ensures permits == old(permits)
      ensures View(table, i, p) == Semaphore.RegisterInactiveRead(old(View(table, i, p)))
    {
      hide Retire, ReleaseBase, ShouldEvictInactiveRead, Semaphore.MoveTo, OnEvicted;
      if p.aborted {
        ReleaseBaseResources(p, i, table);
      } else {
        RetireShrinks(View(table, i, p));
        RetirePermit(p, i, table);
        Settle(p, i, table);
      }
    }

    method RetirePermit(p: PermitObject, i: nat, ghost table: seq<Permit>)
      modifies this, p
      ensures permits == old(permits)
      ensures View(table, i, p) == Retire(old(View(table, i, p)))
    {
      hide Waitless, OnInactive;
      StopWaiting(p, i, table);
      OnPermitInactive(p, i, Inactive, table);
      if blessed == Some(i) {
        blessed := None;
      }
    }

    method StopWaiting(p: PermitObject, i: nat, ghost table: seq<Permit>)
      modifies this`lists, this`waiters, this`inactiveReads, this`fault, p`hook
      ensures View(table, i, p) == Waitless(old(View(table, i, p)))
    {
      hide Semaphore.DequeuePermit;
      if p.state == WaitingForMemory {
        DequeuePermit(p, i, table);
      }
      fault := fault || p.state !in {Active, ActiveNeedCpu, WaitingForMemory};
    }

    method TimeOut(p: PermitObject, i: nat, ghost table: seq<Permit>)
      modifies this, pool, p
      ensures permits == old(permits)
      ensures View(table, i, p) == OnTimeout(old(View(table, i, p)))
    {
      hide Semaphore.DequeuePermit, OnInactive, OnEvicted;
      p.aborted := true;
      if p.state == Inactive {
        DequeuePermit(p, i, table);
        EvictPermit(p, i, table);
        return;
      }
      if p.state == WaitingForAdmission || p.state == WaitingForMemory || p.state == WaitingForExecution {
        DequeuePermit(p, i, table);
      }
      OnPermitInactive(p, i, PreemptiveAborted, table);
    }

    /** Everything charged is returned; what goes beyond the base units is reported as a leak. */
    method ReturnCharges(p: PermitObject, i: nat, ghost table: seq<Permit>)
      modifies this`available, this`borrowed, this`fault, this`leaks, pool, p`charged, p`baseConsumed
      ensures View(table, i, p) == Repaid(old(View(table, i, p)))
    {
      hide ReleaseBase, Signal;
      ReleaseBaseResources(p, i, table);
      if p.charged.NonZero() {
        leaks := leaks + 1;
        SignalUnits(p, i, p.charged, table);
      }
    }

    method RemoveGuards(p: PermitObject, i: nat, ghost table: seq<Permit>)
      modifies this`needCpuPermits, this`awaitsPermits, this`fault, p`needCpu, p`awaits
      ensures View(table, i, p) == DropGuards(old(View(table, i, p)))
    {
      hide OnNotNeedCpu, OnNotAwaits;
      if p.needCpuBranches != 0 {
        fault := true;
        OnPermitNotNeedCpu(p, i, table);
      }
      if p.awaitsBranches != 0 {
        fault := true;
        OnPermitNotAwaits(p, i, table);
      }
    }

    method BuryPermit(p: PermitObject, i: nat, ghost table: seq<Permit>)
      modifies this`lists, this`blessed, p`live
      ensures View(table, i, p) == Bury(old(View(table, i, p)))
    {
      hide Semaphore.Unlink;
      Unlink(p, i, table);
      p.live := false;
      if blessed == Some(i) {
        blessed := None;
      }
    }

    /** `~impl` */
    method DestroyPermit(p: PermitObject, i: nat, ghost table: seq<Permit>)
      modifies this, pool, p
      ensures permits == old(permits)
      ensures View(table, i, p) == Destroy(old(View(table, i, p)))
    {
      hide Repaid, DropGuards, Bury;
      ReturnCharges(p, i, table);
      RemoveGuards(p, i, table);
      BuryPermit(p, i, table);
    }

    method Unregister(p: PermitObject, i: nat, ghost table: seq<Permit>)
      modifies this, p
      ensures permits == old(permits)
      ensures View(table, i, p) == UnregisterInactiveRead(old(View(table, i, p)))
    {
      hide Semaphore.DequeuePermit, OnActive;
      DequeuePermit(p, i, table);
      fault := fault || p.state != Inactive;
      OnPermitActive(p, i, table);
    }

    // ---------- whole operations ----------

    /** Once only permit `i` has changed, the new state is the stored view. */
    twostate lemma Settled(i: nat)
      requires old(Distinct()) && i < |permits| && permits == old(permits)
      requires forall k | 0 <= k < |permits| && k != i :: permits[k].Value() == old(permits[k].Value())
      ensures Distinct() && Value() == Store(View(old(Values(permits)), i, permits[i]))
    {
      assert Values(permits) == old(Values(permits))[i := permits[i].Value()];
    }

    /** A permit that was just created or evicted asks for admission. */
    method WaitAdmission(i: nat)
      requires Valid() && i < |permits| && permits[i].live && permits[i].state in {Active, Evicted}
      requires !permits[i].baseConsumed && blessed != Some(i)
      modifies this, pool, permits[i]
      ensures Valid() && permits == old(permits)
      ensures Value() == Store(DoWaitAdmission(Load(old(Value()), i))) && Conserved(old(Value()), Value())
    {
      hide DoWaitAdmission, Store, Inv;
      Begin(Value(), i);
      DoWaitAdmissionKeeps(Value(), i);
      AskAdmission(permits[i], i, Values(permits));
      Settled(i);
    }

    method RequestMemory(i: nat, memory: nat)
      requires Valid() && Allowed(Value(), Request(i, memory))
      modifies this, pool, permits[i]
      ensures Valid() && permits == old(permits)
      ensures Value() == Apply(old(Value()), Request(i, memory)) && Conserved(old(Value()), Value())
    {
      hide Semaphore.RequestMemory, Store, Inv;
      RequestMemoryKeeps(Value(), i, memory);
      AskMemory(permits[i], i, memory, Values(permits));
      Settled(i);
    }

    /** Admit waiters from the front of the wait list while the front one is admissible. */
    method MaybeAdmitWaiters(unlikely: set<nat>)
      requires Valid()
      modifies this, pool, permits
      ensures Valid() && permits == old(permits)
      ensures Value() == AdmitAll(old(Value()), unlikely) && Conserved(old(Value()), Value())
    {
      hide Inv, AdmitFront, Store, Semaphore.CanAdmitRead;
      ghost var start := Value();
      while !lists.NoWaiter()
        invariant Valid() && permits == old(permits)
        invariant AdmitAll(Value(), unlikely) == AdmitAll(start, unlikely)
        decreases |lists.admission| + |lists.memory|
      {
        var i := lists.Front();
        ghost var now := Value();
        AdmitFrontKeeps(now, i in unlikely);
        if CanAdmitRead(permits[i]).decision != Yes {
          break;
        }
        AdmitShrinks(now, i in unlikely);
        Admit(i, i in unlikely);
      }
    }

    method Admit(i: nat, shed: bool)
      requires Distinct() && i < |permits|
      modifies this, pool, permits[i]
      ensures Distinct() && permits == old(permits)
      ensures Value() == Store(AdmitFront(Load(old(Value()), i), shed))
    {
      hide AdmitFront, Store;
      AdmitPermit(permits[i], i, shed, Values(permits));
      Settled(i);
    }

    method RegisterInactiveRead(i: nat)
      requires Valid() && Allowed(Value(), Op.Register(i))
      modifies this, pool, permits[i]
      ensures Valid() && permits == old(permits)
      ensures Value() == Apply(old(Value()), Op.Register(i)) && Conserved(old(Value()), Value())
    {
      hide Semaphore.RegisterInactiveRead, Store, Inv;
      RegisterKeeps(Value(), i);
      WaitersExist(Value());
      Register(permits[i], i, Values(permits));
      Settled(i);
    }

    method OnPermitTimeout(i: nat)
      requires Valid() && Allowed(Value(), Expire(i))
      modifies this, pool, permits[i]
      ensures Valid() && permits == old(permits)
      ensures Value() == Apply(old(Value()), Expire(i)) && Conserved(old(Value()), Value())
    {
      hide OnTimeout, Store, Inv;
      OnTimeoutKeeps(Value(), i);
      TimeOut(permits[i], i, Values(permits));
      Settled(i);
    }

    /** Evict all inactive reads, front first. */
    method ClearInactiveReads()
      requires Valid()
      modifies this, pool, permits
      ensures Valid() && permits == old(permits)
      ensures Conserved(old(Value()), Value()) && lists.inactive == []
    {
      hide Inv, Value;
      while lists.inactive != []
        invariant Valid() && permits == old(permits)
        invariant Conserved(old(Value()), Value())
        decreases |lists.inactive|
      {
        EvictFirst();
      }
    }

    method EvictFirst()
      requires Valid() && lists.inactive != []
      modifies this, pool, permits
      ensures Valid() && permits == old(permits)
      ensures Conserved(old(Value()), Value()) && |lists.inactive| < |old(lists.inactive)|
    {
      hide Inv, Allowed, Apply, Values;
      FirstInactive(Value());
      EvictInactiveRead(lists.inactive[0]);
    }

    method EvictInactiveRead(i: nat)
      requires Valid() && Allowed(Value(), EvictOne(i))
      modifies this, pool, permits[i]
      ensures Valid() && permits == old(permits)
      ensures Value() == Apply(old(Value()), EvictOne(i)) && Conserved(old(Value()), Value())
    {
      hide Evict, Store, Inv;
      EvictKeeps(Value(), i);
      TakeOut(permits[i], i, Values(permits));
      Settled(i);
    }

    method EndPermit(i: nat)
      requires Valid() && Allowed(Value(), Op.End(i))
      modifies this, pool, permits[i]
      ensures Valid() && permits == old(permits)
      ensures Value() == Apply(old(Value()), Op.End(i)) && Conserved(old(Value()), Value())
    {
      hide Destroy, Store, Inv;
      DestroyKeeps(Value(), i);
      DestroyPermit(permits[i], i, Values(permits));
      Settled(i);
    }

    /** Dropping the handle of an inactive read ends its permit. */
    method DropInactiveHandle(i: nat)
      requires Valid() && Allowed(Value(), DropHandle(i))
      modifies this, pool, permits[i]
      ensures Valid() && permits == old(permits)
      ensures Value() == Apply(old(Value()), DropHandle(i)) && Conserved(old(Value()), Value())
    {
      hide Semaphore.DequeuePermit, Destroy, Store, Inv;
      AbandonKeeps(Value(), i);
      ghost var table := Values(permits);
      DequeuePermit(permits[i], i, table);
      DestroyPermit(permits[i], i, table);
      Settled(i);
    }

    /** Every waiter fails: the wait list is emptied from the front. */
    method BreakWaiters()
      requires Valid()
      modifies this, permits
      ensures Distinct() && permits == old(permits) && Breaking(old(Value()).sem)
      ensures Value() == Broken(old(Value()))
    {
      hide Inv, Semaphore.DequeuePermit, Store, Breaking;
      InvBreaks(Value());
      ghost var start := Value();
      while !lists.NoWaiter()
        invariant Distinct() && permits == old(permits)
        invariant Breaking(Value().sem) && Broken(Value()) == Broken(start)
        decreases |lists.admission| + |lists.memory|
      {
        var i := lists.Front();
        DequeueFront(Value());
        BreakFront(Value());
        DropWaiter(i);
      }
    }

    method DropWaiter(i: nat)
      requires Distinct() && i < |permits|
      modifies this, permits[i]
      ensures Distinct() && permits == old(permits)
      ensures Value() == Store(Semaphore.DequeuePermit(Load(old(Value()), i)))
    {
      hide Semaphore.DequeuePermit, Store;
      DequeuePermit(permits[i], i, Values(permits));
      Settled(i);
    }

    method UpdateResources(r: Resources, unreducedMemory: nat)
      requires Valid() && 0 <= r.memory
      modifies this`unreduced, this`initial, this`available
      ensures Valid() && Conserved(old(Value()), Value())
      ensures Value() == old(Value()).(sem := SetResources(old(Value()).sem, r, unreducedMemory))
    {
      hide Inv;
      SetResourcesKeeps(Value(), r, unreducedMemory);
      unreduced := unreducedMemory;
      var delta := r.Minus(initial);
      initial := r;
      available := available.Plus(delta);
    }

    method CreatePermit(base: Resources, hasFunc: bool) returns (i: nat)
      requires Valid() && base.NonNegative()
      modifies this`permits, this`lists
      ensures Valid() && i == |old(permits)| && |permits| == i + 1 && fresh(permits[i])
      ensures Value() == Create(old(Value()), base, hasFunc)
    {
      hide Inv, Append, Values;
      CreateKeeps(Value(), base, hasFunc);
      i := |permits|;
      var p := new PermitObject(base, hasFunc);
      permits := permits + [p];
      lists := Append(lists, PermitList, i);
      assert Values(permits) == old(Values(permits)) + [NewPermit(base, hasFunc)];
    }
  }

  lemma WaitersExist(l: Local)
    requires Inv(l)
    ensures forall j | j in l.sem.lists.admission || j in l.sem.lists.memory :: j < |l.sem.permits|
  {
    assert l.sem.lists.admission == l.sem.lists.At(AdmissionQueue);
    assert l.sem.lists.memory == l.sem.lists.At(MemoryQueue);
  }

  /** Unlinking adds nothing to the wait list. */
  lemma RetireShrinks(c: Ctx)
    ensures forall j | j in Retire(c).sem.lists.admission :: j in c.sem.lists.admission
    ensures forall j | j in Retire(c).sem.lists.memory :: j in c.sem.lists.memory
  {
    hide DequeuePermit, OnInactive;
    DequeueShrinks(c);
  }

  lemma DequeueShrinks(c: Ctx)
    ensures var ls := Semaphore.DequeuePermit(c).sem.lists;
            && (forall j | j in ls.admission :: j in c.sem.lists.admission)
            && (forall j | j in ls.memory :: j in c.sem.lists.memory)
  {
    hide Without;
    WithoutShrinks(c.sem.lists.admission, c.i);
    WithoutShrinks(c.sem.lists.memory, c.i);
  }

  lemma {:induction false} WithoutShrinks(l: seq<nat>, i: nat)
    ensures forall j | j in Without(l, i) :: j in l
  {
    if l != [] && l[0] != i {
      WithoutShrinks(l[1..], i);
    }
  }

  /** The first inactive read can be evicted, which leaves fewer. */
  lemma FirstInactive(l: Local)
    requires Inv(l) && l.sem.lists.inactive != []
    ensures var i := l.sem.lists.inactive[0];
            && i < |l.sem.permits| && Allowed(l, EvictOne(i))
            && |Apply(l, EvictOne(i)).sem.lists.inactive| < |l.sem.lists.inactive|
  {
    hide Inv, Evict, Store;
    BeginAt(l, InactiveReads);
    EvictShrinks(l, l.sem.lists.inactive[0]);
  }

  lemma EvictShrinks(l: Local, i: nat)
    requires Inv(l) && i < |l.sem.permits| && InList(l.sem, i, InactiveReads)
    ensures |Store(Evict(Load(l, i))).sem.lists.inactive| < |l.sem.lists.inactive|
  {
    hide Inv, Sound, MoveTo, OnEvicted;
    Begin(l, i);
    DequeueKeeps(Load(l, i));
  }
}
