/** The facts that hold of a semaphore between any two operations. */
module SemaphoreInvariant {
  import opened Wrappers
  import opened ReaderPermit
  import opened Semaphore

  // ---------- totals over all permits ----------

  /** What the permits add up to: charged units and the two CPU marks. */
  datatype Totals = Totals(count: int, memory: int, needCpu: int, awaits: int) {
    function Plus(o: Totals): Totals {
      Totals(count + o.count, memory + o.memory, needCpu + o.needCpu, awaits + o.awaits)
    }

    function Minus(o: Totals): Totals {
      Totals(count - o.count, memory - o.memory, needCpu - o.needCpu, awaits - o.awaits)
    }
  }

  function TotalsOf(p: Permit): Totals {
    Totals(p.charged.count, p.charged.memory, if p.needCpu then 1 else 0, if p.awaits then 1 else 0)
  }

  function Tally(ps: seq<Permit>): Totals {
    if ps == [] then Totals(0, 0, 0, 0) else Tally(ps[..|ps| - 1]).Plus(TotalsOf(ps[|ps| - 1]))
  }

  lemma {:induction false} TallyUpdate(ps: seq<Permit>, i: nat, p: Permit)
    requires i < |ps|
    ensures Tally(ps[i := p]) == Tally(ps).Minus(TotalsOf(ps[i])).Plus(TotalsOf(p))
  {
    var n := |ps| - 1;
    if i < n {
      TallyUpdate(ps[..n], i, p);
      assert ps[i := p][..n] == ps[..n][i := p];
    } else {
      assert ps[i := p][..n] == ps[..n];
    }
  }

  lemma TallyAppend(ps: seq<Permit>, p: Permit)
    ensures Tally(ps + [p]) == Tally(ps).Plus(TotalsOf(p))
  {
    assert (ps + [p])[..|ps|] == ps;
  }

  /** No permit accounts for more than all permits together. */
  lemma {:induction false} TallyCovers(ps: seq<Permit>, i: nat)
    requires i < |ps|
    requires forall j | 0 <= j < |ps| :: ps[j].charged.NonNegative() && (ps[j].awaits ==> ps[j].needCpu)
    ensures var t := Tally(ps).Minus(TotalsOf(ps[i]));
            0 <= t.count && 0 <= t.memory && 0 <= t.awaits <= t.needCpu
  {
    var n := |ps| - 1;
    if i < n {
      TallyCovers(ps[..n], i);
    } else if n > 0 {
      TallyCovers(ps[..n], n - 1);
    }
  }

  // ---------- the invariant ----------

  /** What is true of one permit between operations. */
  predicate PermitOk(p: Permit) {
    && p.base.NonNegative()
    && 0 <= p.requested
    && 0 <= p.needCpuBranches
    && 0 <= p.awaitsBranches
    && p.Owed().NonNegative()
    && p.Owed().AtMost(p.charged)
    && (p.awaits <==> p.live && p.state.ActiveAwait?)
    && (p.needCpu <==> p.live && (p.state.ActiveNeedCpu? || p.state.ActiveAwait?))
    && (p.live ==>
          && p.hook == QueueOf(p.state)
          && (p.state.Active? ==> p.needCpuBranches == 0)
          && (p.state.ActiveNeedCpu? ==> p.needCpuBranches > 0 && p.awaitsBranches == 0)
          && (p.state.ActiveAwait? ==> p.needCpuBranches > 0 && p.awaitsBranches > 0)
          && (p.state.WaitingForAdmission? || p.state.Evicted? ==> !p.baseConsumed))
    && (!p.live ==> p.charged == NOTHING && !p.baseConsumed)
  }

  predicate NoDuplicates(l: seq<nat>) {
    forall a, b | 0 <= a < b < |l| :: l[a] != l[b]
  }

  predicate Linked(p: Permit, q: Queue) {
    p.live && p.hook == q
  }

  /** Each list holds, once, exactly the live permits hooked into it. */
  ghost predicate Listed(ls: Lists, ps: seq<Permit>) {
    forall q: Queue ::
      && NoDuplicates(ls.At(q))
      && (forall j | j in ls.At(q) :: j < |ps| && Linked(ps[j], q))
      && (forall j: nat | j < |ps| && Linked(ps[j], q) :: j in ls.At(q))
  }

  /** The reads waiting for admission are in the order in which they asked. */
  predicate InOrder(queue: seq<nat>, ps: seq<Permit>, requests: nat) {
    && (forall a | 0 <= a < |queue| :: queue[a] < |ps| && ps[queue[a]].arrival < requests)
    && (forall a, b | 0 <= a < b < |queue| :: ps[queue[a]].arrival < ps[queue[b]].arrival)
  }

  predicate Counted(s: Sem) {
    && s.waiters == |s.lists.admission| + |s.lists.memory| + |s.lists.ready|
    && s.inactiveReads == |s.lists.inactive|
  }

  /** Units available and units charged add up to the limits plus the loan from the pool, and the
      CPU counters are the numbers of marked permits. */
  predicate Balanced(s: Sem, t: Totals) {
    && 0 <= s.initial.memory
    && s.available.count + t.count == s.initial.count
    && s.available.memory + t.memory == s.initial.memory + s.borrowed
    && 0 <= s.borrowed <= t.memory
    && s.needCpuPermits == t.needCpu
    && s.awaitsPermits == t.awaits
  }

  /** The other semaphores' loans are not negative. */
  predicate PoolOk(s: Sem, pool: Pool) {
    && !pool.fault
    && pool.available + s.borrowed <= pool.total
  }

  /** States in which a permit may be the blessed one. */
  predicate MayBeBlessed(p: Permit) {
    && p.live
    && !p.state.WaitingForAdmission?
    && !p.state.WaitingForMemory?
    && !p.state.Inactive?
    && !p.state.Evicted?
  }

  predicate BlessedOk(s: Sem) {
    s.blessed.Some? ==> s.blessed.value < |s.permits| && MayBeBlessed(s.permits[s.blessed.value])
  }

  ghost predicate PermitsOk(s: Sem) {
    forall j: nat | j < |s.permits| :: PermitOk(s.permits[j])
  }

  ghost predicate SemOk(s: Sem) {
    && !s.fault
    && PermitsOk(s)
    && Listed(s.lists, s.permits)
    && InOrder(s.lists.admission, s.permits, s.requests)
    && Counted(s)
    && Balanced(s, Tally(s.permits))
    && BlessedOk(s)
  }

  ghost predicate Inv(l: Local) {
    SemOk(l.sem) && PoolOk(l.sem, l.pool)
  }

  /** Memory only moves between the pool and this semaphore's loan. */
  predicate Conserved(before: Local, after: Local) {
    && after.pool.total == before.pool.total
    && after.pool.available + after.sem.borrowed == before.pool.available + before.sem.borrowed
  }

  // ---------- charging and repaying ----------

  /** Charging borrows at most what the pool has free and keeps the balance. */
  lemma TakeKeeps(l: Local, r: Resources, t: Totals)
    requires Balanced(l.sem, t) && PoolOk(l.sem, l.pool) && !l.sem.fault && r.NonNegative()
    ensures var l' := Take(l, r);
            && Balanced(l'.sem, t.Plus(Totals(r.count, r.memory, 0, 0)))
            && PoolOk(l'.sem, l'.pool) && !l'.sem.fault
            && Conserved(l, l')
  {}

  /** Returning charged units reaches neither the leak clamp nor the pool's clamp. */
  lemma GiveKeeps(l: Local, r: Resources, t: Totals)
    requires Balanced(l.sem, t) && PoolOk(l.sem, l.pool) && !l.sem.fault
    requires r.NonNegative() && r.count <= t.count && r.memory <= t.memory
    ensures var l' := Give(l, r);
            && Balanced(l'.sem, t.Minus(Totals(r.count, r.memory, 0, 0)))
            && PoolOk(l'.sem, l'.pool) && !l'.sem.fault
            && Conserved(l, l')
  {}

  // ---------- an operation in progress ----------

  /** The totals while permit `i` is being changed. */
  function Current(c: Ctx): Totals
    requires c.i < |c.sem.permits|
  {
    Tally(c.sem.permits).Minus(TotalsOf(c.sem.permits[c.i])).Plus(TotalsOf(c.p))
  }

  /** What is true of a permit at any point of an operation on it. */
  predicate Sane(p: Permit) {
    && p.live
    && p.base.NonNegative()
    && 0 <= p.requested
    && 0 <= p.needCpuBranches
    && 0 <= p.awaitsBranches
    && p.Owed().AtMost(p.charged)
    && p.charged.NonNegative()
    && (p.awaits ==> p.needCpu)
  }

  /** Every permit is in its place while permit `c.i` is being changed. */
  ghost predicate Placed(c: Ctx) {
    && c.i < |c.sem.permits|
    && (forall j: nat | j < |c.sem.permits| && j != c.i :: PermitOk(c.sem.permits[j]))
    && Listed(c.sem.lists, c.sem.permits[c.i := c.p])
    && InOrder(c.sem.lists.admission, c.sem.permits[c.i := c.p], c.sem.requests)
  }

  /** The accounts are in order while permit `c.i` is being changed. */
  predicate Accounted(c: Ctx) {
    && c.i < |c.sem.permits|
    && !c.sem.fault
    && Sane(c.p)
    && Balanced(c.sem, Current(c))
    && PoolOk(c.sem, c.pool)
  }

  /** What is true at any point of an operation on permit `c.i`. */
  ghost predicate Sound(c: Ctx)
    ensures Sound(c) ==> c.i < |c.sem.permits| && !c.sem.fault && Sane(c.p)
  {
    Placed(c) && Accounted(c)
  }

  /** The rest of the permits accounts for non-negative amounts. */
  predicate Covered(c: Ctx)
    requires c.i < |c.sem.permits|
  {
    var t := Current(c).Minus(TotalsOf(c.p));
    0 <= t.count && 0 <= t.memory && 0 <= t.awaits <= t.needCpu
  }

  lemma OthersCover(c: Ctx)
    requires Sound(c)
    ensures Covered(c)
  {
    TallyUpdate(c.sem.permits, c.i, c.p);
    TallyCovers(c.sem.permits[c.i := c.p], c.i);
  }

  lemma AtLeastTwice(a: int, m: int)
    requires a > 0 && m >= 2
    ensures a * m >= 2 * a
  {
    assert a * m == a * (m - 2) + 2 * a;
  }
}
