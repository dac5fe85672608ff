/** Any number of semaphores that share one pool, and every sequence of operations on them. */
module SemaphoreRuns {
  import opened Wrappers
  import opened ReaderPermit
  import opened Semaphore
  import opened SemaphoreInvariant
  import opened SemaphoreSteps
  import opened SemaphoreOperations

  // ---------- operations on one semaphore ----------

  datatype Op =
    | Obtain(base: Resources, hasFunc: bool)
    | Track
    | Readmit(i: nat)
    | Admit(shed: bool)
    | Run
    | RunReady(i: nat)
    | Charge(i: nat, r: Resources)
    | Refund(i: nat, r: Resources)
    | DropBase(i: nat)
    | Request(i: nat, memory: nat)
    | Register(i: nat)
    | Unregister(i: nat)
    | EvictOne(i: nat)
    | DropHandle(i: nat)
    | Expire(i: nat)
    | SetGuard(i: nat, g: Guard)
    | End(i: nat)
    | Resize(r: Resources, unreduced: nat)
    | Configure(config: Config)

  predicate Live(s: Sem, i: nat) {
    i < |s.permits| && s.permits[i].live
  }

  predicate InList(s: Sem, i: nat, q: Queue) {
    Live(s, i) && s.permits[i].hook == q
  }

  /** What the semaphore asks of its callers. */
  predicate Allowed(l: Local, op: Op) {
    var s := l.sem;
    match op
    case Obtain(base, _) => base.NonNegative()
    case Track => true
    case Readmit(i) => Live(s, i) && s.permits[i].state.Evicted?
    case Admit(_) =>
      && !s.lists.NoWaiter()
      && s.lists.Front() < |s.permits|
      && CanAdmitRead(s, l.pool, s.permits[s.lists.Front()]).decision == Yes
    case Run => s.lists.ready != [] && s.lists.ready[0] < |s.permits|
    case RunReady(i) => InList(s, i, PermitList)
    case Charge(i, r) => Live(s, i) && r.NonNegative()
    case Refund(i, r) => Live(s, i) && r.NonNegative() && s.permits[i].Owed().Plus(r).AtMost(s.permits[i].charged)
    case DropBase(i) => Live(s, i)
    case Request(i, _) =>
      && Live(s, i)
      && (s.permits[i].state.Running() || s.permits[i].state in {WaitingForMemory, PreemptiveAborted})
    case Register(i) =>
      && Live(s, i)
      && (s.permits[i].aborted || s.permits[i].state in {Active, ActiveNeedCpu, WaitingForMemory})
    case Unregister(i) => InList(s, i, InactiveReads)
    case EvictOne(i) => InList(s, i, InactiveReads)
    case DropHandle(i) => InList(s, i, InactiveReads) && Unguarded(s.permits[i])
    case Expire(i) => Live(s, i)
    case SetGuard(i, g) => Live(s, i) && GuardHeld(s.permits[i], g)
    case End(i) => InList(s, i, PermitList) && Unguarded(s.permits[i])
    case Resize(r, _) => 0 <= r.memory
    case Configure(_) => true
  }

  function Apply(l: Local, op: Op): Local
    requires Allowed(l, op)
  {
    match op
    case Obtain(base, hasFunc) => Store(DoWaitAdmission(Load(Create(l, base, hasFunc), |l.sem.permits|)))
    case Track => Create(l, NOTHING, false)
    case Readmit(i) => Store(DoWaitAdmission(Load(l, i)))
    case Admit(shed) => Store(AdmitFront(Load(l, l.sem.lists.Front()), shed))
    case Run => Store(Execute(Load(l, l.sem.lists.ready[0])))
    case RunReady(i) => var c := Load(l, i); Store(WithReadyPermit(c.(p := c.p.(hasFunc := true))))
    case Charge(i, r) => Store(Consume(Load(l, i), r).c)
    case Refund(i, r) => Store(Signal(Load(l, i), r))
    case DropBase(i) => Store(ReleaseBase(Load(l, i)))
    case Request(i, memory) => Store(RequestMemory(Load(l, i), memory))
    case Register(i) => Store(RegisterInactiveRead(Load(l, i)))
    case Unregister(i) => Store(UnregisterInactiveRead(Load(l, i)))
    case EvictOne(i) => Store(Evict(Load(l, i)))
    case DropHandle(i) => Store(Abandon(Load(l, i)))
    case Expire(i) => Store(OnTimeout(Load(l, i)))
    case SetGuard(i, g) => Store(Mark(Load(l, i), g))
    case End(i) => Store(Destroy(Load(l, i)))
    case Resize(r, unreduced) => l.(sem := SetResources(l.sem, r, unreduced))
    case Configure(config) => l.(sem := l.sem.(config := config))
  }

  /** Every operation keeps the invariant, and memory only moves between pool and loan. */
  lemma ApplyKeeps(l: Local, op: Op)
    requires Inv(l) && Allowed(l, op)
    ensures Inv(Apply(l, op))
    ensures Conserved(l, Apply(l, op)) && 0 <= Apply(l, op).sem.borrowed
  {
    hide Inv, Conserved;
    StepKeeps(l, op);
    NoNegativeLoan(Apply(l, op));
  }

  lemma NoNegativeLoan(l: Local)
    requires Inv(l)
    ensures 0 <= l.sem.borrowed
  {}

  lemma ObtainKeeps(l: Local, base: Resources, hasFunc: bool)
    requires Inv(l) && base.NonNegative()
    ensures var l' := Store(DoWaitAdmission(Load(Create(l, base, hasFunc), |l.sem.permits|)));
            Inv(l') && Conserved(l, l')
  {
    hide DoWaitAdmission, Listed, InOrder, Tally, PermitOk, Store;
    CreateKeeps(l, base, hasFunc);
    DoWaitAdmissionKeeps(Create(l, base, hasFunc), |l.sem.permits|);
  }

  lemma ReadmitKeeps(l: Local, i: nat)
    requires Inv(l) && Live(l.sem, i) && l.sem.permits[i].state.Evicted?
    ensures var l' := Store(DoWaitAdmission(Load(l, i)));
            Inv(l') && Conserved(l, l')
  {
    hide DoWaitAdmission, Listed, InOrder, Tally, Store;
    assert PermitOk(l.sem.permits[i]);
    DoWaitAdmissionKeeps(l, i);
  }

  lemma ConfigureKeeps(l: Local, config: Config)
    requires Inv(l)
    ensures var l' := l.(sem := l.sem.(config := config));
            Inv(l') && Conserved(l, l')
  {
    hide Listed, InOrder, Tally, PermitOk;
  }

  lemma StepKeeps(l: Local, op: Op)
    requires Inv(l) && Allowed(l, op)
    ensures Inv(Apply(l, op)) && Conserved(l, Apply(l, op))
  {
    hide Inv, Conserved, Store, DoWaitAdmission, AdmitFront, Execute, WithReadyPermit, Consume, Signal, ReleaseBase,
      RequestMemory, RegisterInactiveRead, UnregisterInactiveRead, Evict, Abandon, OnTimeout, Mark, Destroy,
      CanAdmitRead;
    match op
    case Obtain(base, hasFunc) => ObtainKeeps(l, base, hasFunc);
    case Track => CreateKeeps(l, NOTHING, false);
    case Readmit(i) => ReadmitKeeps(l, i);
    case Admit(shed) => AdmitFrontKeeps(l, shed);
    case Run => ExecuteKeeps(l);
    case RunReady(i) => WithReadyPermitKeeps(l, i);
    case Charge(i, r) => ConsumeOpKeeps(l, i, r);
    case Refund(i, r) => SignalOpKeeps(l, i, r);
    case DropBase(i) => ReleaseBaseOpKeeps(l, i);
    case Request(i, memory) => RequestMemoryKeeps(l, i, memory);
    case Register(i) => RegisterKeeps(l, i);
    case Unregister(i) => UnregisterKeeps(l, i);
    case EvictOne(i) => EvictKeeps(l, i);
    case DropHandle(i) => AbandonKeeps(l, i);
    case Expire(i) => OnTimeoutKeeps(l, i);
    case SetGuard(i, g) => MarkKeeps(l, i, g);
    case End(i) => DestroyKeeps(l, i);
    case Resize(r, unreduced) => SetResourcesKeeps(l, r, unreduced);
    case Configure(config) => ConfigureKeeps(l, config);
  }

  // ---------- the admission loop ----------

  /** The wait list is empty or its front cannot be admitted. */
  predicate NothingToAdmit(l: Local) {
    || l.sem.lists.NoWaiter()
    || (&& l.sem.lists.Front() < |l.sem.permits|
        && CanAdmitRead(l.sem, l.pool, l.sem.permits[l.sem.lists.Front()]).decision != Yes)
  }

  /** `maybe_admit_waiters`: admit from the front while the front is admissible.  `unlikely` holds
      the reads that would not finish in time. */
  ghost function AdmitAll(l: Local, unlikely: set<nat>): (r: Local)
    requires Inv(l)
    ensures Inv(r) && Conserved(l, r)
    ensures NothingToAdmit(r)
    decreases |l.sem.lists.admission| + |l.sem.lists.memory|
  {
    if l.sem.lists.NoWaiter() then l
    else
      var i := l.sem.lists.Front();
      AdmitFrontKeeps(l, i in unlikely);
      if CanAdmitRead(l.sem, l.pool, l.sem.permits[i]).decision != Yes then l
      else
        AdmitShrinks(l, i in unlikely);
        AdmitAll(Store(AdmitFront(Load(l, i), i in unlikely)), unlikely)
  }

  /** `ls` are the states that the operations `ops` lead through. */
  ghost predicate IsPath(ls: seq<Local>, ops: seq<Op>) {
    && |ls| == |ops| + 1
    && forall t | 0 <= t < |ops| :: Allowed(ls[t], ops[t]) && ls[t + 1] == Apply(ls[t], ops[t])
  }

  /** The loop takes only admission steps, so whatever holds over all runs holds over it. */
  lemma {:induction false} AdmitAllIsAPath(l: Local, unlikely: set<nat>) returns (ls: seq<Local>, ops: seq<Op>)
    requires Inv(l)
    ensures IsPath(ls, ops) && ls[0] == l && ls[|ops|] == AdmitAll(l, unlikely)
    ensures forall t | 0 <= t < |ops| :: ops[t].Admit?
    decreases |l.sem.lists.admission| + |l.sem.lists.memory|
  {
    hide Inv, AdmitFront, CanAdmitRead, Store, Allowed, Apply;
    if NothingToAdmit(l) {
      ls, ops := [l], [];
    } else {
      var i := l.sem.lists.Front();
      AdmitFrontKeeps(l, i in unlikely);
      AdmitShrinks(l, i in unlikely);
      AdmitIsAStep(l, i in unlikely);
      var l' := Store(AdmitFront(Load(l, i), i in unlikely));
      var ls', ops' := AdmitAllIsAPath(l', unlikely);
      ls, ops := [l] + ls', [Admit(i in unlikely)] + ops';
      assert Allowed(l, ops[0]) && ls[1] == Apply(l, ops[0]);
      assert forall t | 0 < t < |ops| :: ops[t] == ops'[t - 1] && ls[t] == ls'[t - 1] && ls[t + 1] == ls'[t];
    }
  }

  lemma AdmitIsAStep(l: Local, shed: bool)
    requires !NothingToAdmit(l) && l.sem.lists.Front() < |l.sem.permits|
    ensures Allowed(l, Admit(shed)) && Apply(l, Admit(shed)) == Store(AdmitFront(Load(l, l.sem.lists.Front()), shed))
  {
    hide AdmitFront, CanAdmitRead, Store;
  }

  lemma AdmitShrinks(l: Local, shed: bool)
    requires Inv(l) && !l.sem.lists.NoWaiter() && l.sem.lists.Front() < |l.sem.permits|
    ensures var l' := Store(AdmitFront(Load(l, l.sem.lists.Front()), shed));
            |l'.sem.lists.admission| + |l'.sem.lists.memory| < |l.sem.lists.admission| + |l.sem.lists.memory|
  {
    hide Inv, Sound, DequeuePermit, OnAdmission, OnGrantedMemory, ParkReady;
    BeginAt(l, if l.sem.lists.memory == [] then AdmissionQueue else MemoryQueue);
    var c := Load(l, l.sem.lists.Front());
    DequeueKeeps(c);
    var c1 := DequeuePermit(c);
    var o := if c1.p.state.WaitingForMemory?
             then OnGrantedMemory(c1.(sem := c1.sem.(blessed := Some(c1.i))))
             else OnAdmission(c1);
    ParkLists(o.c);
  }

  lemma ParkLists(c: Ctx)
    requires c.p.hook == PermitList
    ensures var ls := ParkReady(c).sem.lists; ls.admission == c.sem.lists.admission && ls.memory == c.sem.lists.memory
  {
    hide OnInactive;
  }

  // ---------- many semaphores, one pool ----------

  datatype World = World(sems: seq<Sem>, pool: Pool)

  datatype Event =
    | On(k: nat, op: Op)
    | ResizePool(total: int)
    | AddSem(config: Config, count: int)
    | RemoveSem(k: nat)

  predicate Possible(w: World, e: Event) {
    match e
    case On(k, op) => k < |w.sems| && Allowed(Local(w.sems[k], w.pool), op)
    case ResizePool(total) => true
    case AddSem(config, count) => true
    case RemoveSem(k) => k < |w.sems| && forall i | 0 <= i < |w.sems[k].permits| :: !w.sems[k].permits[i].live
  }

  /** A semaphore of the group is created with no memory of its own. */
  function Next(w: World, e: Event): World
    requires Possible(w, e)
  {
    match e
    case On(k, op) =>
      var l := Apply(Local(w.sems[k], w.pool), op);
      World(w.sems[k := l.sem], l.pool)
    case ResizePool(total) => w.(pool := w.pool.SetTotal(total))
    case AddSem(config, count) => w.(sems := w.sems + [NewSem(config, Resources(count, 0))])
    case RemoveSem(k) => w.(sems := w.sems[..k] + w.sems[k + 1..])
  }

  function Loans(sems: seq<Sem>): int {
    if sems == [] then 0 else Loans(sems[..|sems| - 1]) + sems[|sems| - 1].borrowed
  }

  lemma {:induction false} LoansUpdate(sems: seq<Sem>, k: nat, s: Sem)
    requires k < |sems|
    ensures Loans(sems[k := s]) == Loans(sems) - sems[k].borrowed + s.borrowed
  {
    var n := |sems| - 1;
    if k < n {
      LoansUpdate(sems[..n], k, s);
      assert sems[k := s][..n] == sems[..n][k := s];
    } else {
      assert sems[k := s][..n] == sems[..n];
    }
  }

  lemma {:induction false} LoansRemove(sems: seq<Sem>, k: nat)
    requires k < |sems|
    ensures Loans(sems[..k] + sems[k + 1..]) == Loans(sems) - sems[k].borrowed
  {
    var n := |sems| - 1;
    var rest := sems[..k] + sems[k + 1..];
    if k < n {
      LoansRemove(sems[..n], k);
      assert rest[..n - 1] == sems[..n][..k] + sems[..n][k + 1..];
    } else {
      assert rest == sems[..n];
    }
  }

  /** One semaphore's loan is at most all loans together. */
  lemma {:induction false} LoansCover(sems: seq<Sem>, k: nat)
    requires k < |sems| && forall j | 0 <= j < |sems| :: 0 <= sems[j].borrowed
    ensures sems[k].borrowed <= Loans(sems)
  {
    var n := |sems| - 1;
    if k < n {
      LoansCover(sems[..n], k);
    } else if n > 0 {
      LoansCover(sems[..n], n - 1);
    }
  }

  ghost predicate WorldOk(w: World) {
    && !w.pool.fault
    && (forall k | 0 <= k < |w.sems| :: SemOk(w.sems[k]))
    && w.pool.available + Loans(w.sems) == w.pool.total
  }

  lemma {:induction false} DeadTally(ps: seq<Permit>)
    requires forall j | 0 <= j < |ps| :: PermitOk(ps[j]) && !ps[j].live
    ensures Tally(ps).memory == 0
  {
    if ps != [] {
      DeadTally(ps[..|ps| - 1]);
    }
  }

  lemma LocalView(w: World, k: nat)
    requires WorldOk(w) && k < |w.sems|
    ensures Inv(Local(w.sems[k], w.pool))
  {
    forall j | 0 <= j < |w.sems| ensures 0 <= w.sems[j].borrowed {
      assert SemOk(w.sems[j]);
    }
    LoansCover(w.sems, k);
  }

  lemma NextKeeps(w: World, e: Event)
    requires WorldOk(w) && Possible(w, e)
    ensures WorldOk(Next(w, e))
  {
    hide SemOk, Apply, Loans, NewSem;
    match e
    case On(k, op) =>
      LocalView(w, k);
      ApplyKeeps(Local(w.sems[k], w.pool), op);
      LoansUpdate(w.sems, k, Apply(Local(w.sems[k], w.pool), op).sem);
    case ResizePool(total) =>
    case AddSem(config, count) =>
      NewSemOk(config, Resources(count, 0));
      LoansAdd(w.sems, config, Resources(count, 0));
    case RemoveSem(k) => RemoveKeeps(w, k);
  }

  lemma RemoveKeeps(w: World, k: nat)
    requires WorldOk(w) && Possible(w, RemoveSem(k))
    ensures WorldOk(Next(w, RemoveSem(k)))
  {
    hide SemOk, Loans;
    NoLoanWithoutPermits(w.sems[k]);
    LoansRemove(w.sems, k);
  }

  lemma LoansAdd(sems: seq<Sem>, config: Config, limits: Resources)
    ensures Loans(sems + [NewSem(config, limits)]) == Loans(sems)
  {
    assert (sems + [NewSem(config, limits)])[..|sems|] == sems;
  }

  lemma NewSemOk(config: Config, limits: Resources)
    requires 0 <= limits.memory
    ensures SemOk(NewSem(config, limits))
  {
    hide Listed, PermitOk, InOrder, Tally;
    NothingListed();
    NothingWaits(0);
  }

  lemma NothingListed()
    ensures Listed(Lists([], [], [], [], []), [])
  {}

  lemma NothingWaits(requests: nat)
    ensures InOrder([], [], requests) && Tally([]) == Totals(0, 0, 0, 0)
  {}

  lemma NewSemInv(config: Config, limits: Resources, pool: Pool)
    requires 0 <= limits.memory && PoolOk(NewSem(config, limits), pool)
    ensures Inv(Local(NewSem(config, limits), pool))
  {
    hide SemOk;
    NewSemOk(config, limits);
  }

  lemma NoLoanWithoutPermits(s: Sem)
    requires SemOk(s) && forall i | 0 <= i < |s.permits| :: !s.permits[i].live
    ensures s.borrowed == 0
  {
    DeadTally(s.permits);
  }

  // ---------- runs ----------

  /** `ws` lists the states of a run from an empty group, `es` the events between them. */
  ghost predicate IsRun(ws: seq<World>, es: seq<Event>) {
    && |ws| == |es| + 1
    && ws[0] == World([], Pool(0, 0, false))
    && forall t | 0 <= t < |es| :: Possible(ws[t], es[t]) && ws[t + 1] == Next(ws[t], es[t])
  }

  lemma EmptyWorldOk()
    ensures WorldOk(World([], Pool(0, 0, false)))
  {}

  lemma {:induction false} RunOk(ws: seq<World>, es: seq<Event>, t: nat)
    requires IsRun(ws, es) && t < |ws|
    ensures WorldOk(ws[t])
  {
    hide WorldOk, Possible, Next;
    if t > 0 {
      RunOk(ws, es, t - 1);
      NextKeeps(ws[t - 1], es[t - 1]);
    } else {
      EmptyWorldOk();
    }
  }
}
