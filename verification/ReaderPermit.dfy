/** The values behind `reader_permit` and `reader_concurrency_semaphore`: resources, the nine
    permit states, one permit's bookkeeping, the semaphore's fields and the pool that several
    semaphores share.  Memory amounts and counters are mathematical integers. */
module ReaderPermit {
  import opened Wrappers

  /** `reader_resources`: the two dimensions in which reads are limited. */
  datatype Resources = Resources(count: int, memory: int) {
    function Plus(o: Resources): Resources {
      Resources(count + o.count, memory + o.memory)
    }

    function Minus(o: Resources): Resources {
      Resources(count - o.count, memory - o.memory)
    }

    predicate NonZero() {
      count > 0 || memory > 0
    }

    predicate NonNegative() {
      0 <= count && 0 <= memory
    }

    predicate AtMost(o: Resources) {
      count <= o.count && memory <= o.memory
    }
  }

  const NOTHING := Resources(0, 0)

  const INT_MAX := 0x7fff_ffff
  const UINT32_MAX := 0xffff_ffff
  const SSIZE_MAX := 0x7fff_ffff_ffff_ffff

  datatype State =
    | WaitingForAdmission
    | WaitingForMemory
    | WaitingForExecution
    | Active
    | ActiveNeedCpu
    | ActiveAwait
    | Inactive
    | Evicted
    | PreemptiveAborted
  {
    predicate Running() {
      Active? || ActiveNeedCpu? || ActiveAwait?
    }
  }

  /** The five intrusive lists a permit can be linked into. */
  datatype Queue = AdmissionQueue | MemoryQueue | ReadyList | InactiveReads | PermitList

  /** The list in which a permit of the given state belongs. */
  function QueueOf(st: State): Queue {
    match st
    case WaitingForAdmission => AdmissionQueue
    case WaitingForMemory => MemoryQueue
    case WaitingForExecution => ReadyList
    case Inactive => InactiveReads
    case _ => PermitList
  }

  /** `reader_permit::impl`.  `hook` is the list the permit is linked into, `live` is false once
      the permit is destroyed and `arrival` numbers its latest request for admission. */
  datatype Permit = Permit(
    base: Resources,
    charged: Resources,
    baseConsumed: bool,
    requested: int,
    needCpuBranches: int,
    awaitsBranches: int,
    needCpu: bool,
    awaits: bool,
    state: State,
    hook: Queue,
    hasFunc: bool,
    aborted: bool,
    live: bool,
    arrival: nat)
  {
    /** What the permit owes for its admission. */
    function Owed(): Resources {
      if baseConsumed then base else NOTHING
    }
  }

  function NewPermit(base: Resources, hasFunc: bool): Permit {
    Permit(base, NOTHING, false, 0, 0, 0, false, false, Active, PermitList, hasFunc, false, true, 0)
  }

  datatype Config = Config(
    maxQueueLength: nat,
    serializeLimitMultiplier: nat,
    killLimitMultiplier: nat,
    cpuConcurrency: nat)

  /** The contents of the five lists: permit numbers, front first. */
  datatype Lists = Lists(
    admission: seq<nat>,
    memory: seq<nat>,
    ready: seq<nat>,
    inactive: seq<nat>,
    others: seq<nat>)
  {
    function At(q: Queue): seq<nat> {
      match q
      case AdmissionQueue => admission
      case MemoryQueue => memory
      case ReadyList => ready
      case InactiveReads => inactive
      case PermitList => others
    }

    function With(q: Queue, l: seq<nat>): Lists {
      match q
      case AdmissionQueue => this.(admission := l)
      case MemoryQueue => this.(memory := l)
      case ReadyList => this.(ready := l)
      case InactiveReads => this.(inactive := l)
      case PermitList => this.(others := l)
    }

    /** The wait list is empty. */
    predicate NoWaiter() {
      admission == [] && memory == []
    }

    /** `wait_queue::front`: permits waiting for memory go first. */
    function Front(): nat
      requires !NoWaiter()
    {
      if memory == [] then admission[0] else memory[0]
    }
  }

  /** The fields of `reader_concurrency_semaphore`.  Permits are numbered in order of creation.
      `requests` counts requests for admission.  `leaks` counts permits destroyed with units still
      charged, the leak that `~impl` reports before it returns them.  `fault` records that an
      assertion, any other internal error or the leak clamp of `signal` was reached. */
  datatype Sem = Sem(
    config: Config,
    initial: Resources,
    available: Resources,
    unreduced: nat,
    borrowed: int,
    permits: seq<Permit>,
    lists: Lists,
    waiters: int,
    inactiveReads: int,
    needCpuPermits: int,
    awaitsPermits: int,
    blessed: Option<nat>,
    requests: nat,
    leaks: nat,
    fault: bool)
  {
    function Consumed(): Resources {
      initial.Minus(available)
    }

    predicate Unlimited() {
      initial == Resources(INT_MAX, SSIZE_MAX)
    }
  }

  function NewSem(config: Config, limits: Resources): Sem {
    Sem(config, limits, limits, 0, 0, [], Lists([], [], [], [], []), 0, 0, 0, 0, None, 0, 0, false)
  }

  /** `reader_concurrency_semaphore_shared_pool`.  `available` may be negative after the pool was
      shrunk; `fault` records that one of its two clamps was reached. */
  datatype Pool = Pool(available: int, total: int, fault: bool) {
    function Free(): nat {
      if available < 0 then 0 else available
    }

    function Borrow(amount: int): Pool {
      var left := available - amount;
      if left < 0 then Pool(0, total, true) else Pool(left, total, fault)
    }

    function Repay(amount: int): Pool {
      var now := available + amount;
      if now > total then Pool(total, total, true) else Pool(now, total, fault)
    }

    function SetTotal(memory: int): Pool {
      Pool(available + (memory - total), memory, fault)
    }
  }
}
