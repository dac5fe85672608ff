/** What the semaphores guarantee over every run. */
module SemaphoreTheorems {
  import opened Wrappers
  import opened ReaderPermit
  import opened Semaphore
  import opened SemaphoreInvariant
  import opened SemaphoreSteps
  import opened SemaphoreOperations
  import opened SemaphoreRuns

  // ---------- conservation ----------

  /** In every state of every run the pool's free memory and all loans add up to the pool, each
      semaphore's available and charged units add up to its limits plus its loan, no loan exceeds
      what is charged, and no assertion, clamp or internal error was ever reached other than the
      leak report of `~impl`, which is counted apart. */
  lemma MemoryIsConserved(ws: seq<World>, es: seq<Event>, t: nat)
    requires IsRun(ws, es) && t < |ws|
    ensures ws[t].pool.available + Loans(ws[t].sems) == ws[t].pool.total
    ensures !ws[t].pool.fault
    ensures forall k | 0 <= k < |ws[t].sems| ::
              var s, charged := ws[t].sems[k], Tally(ws[t].sems[k].permits);
              && s.available.memory + charged.memory == s.initial.memory + s.borrowed
              && s.available.count + charged.count == s.initial.count
              && 0 <= s.borrowed <= charged.memory
              && !s.fault
  {
    RunOk(ws, es, t);
    assert forall k | 0 <= k < |ws[t].sems| :: SemOk(ws[t].sems[k]);
  }

  // ---------- lists ----------

  /** In every state of every run a live permit is in the list its state calls for, once, and in
      no other; destroyed permits are in none; and both counters are the lengths they stand for. */
  lemma ListsFollowStates(ws: seq<World>, es: seq<Event>, t: nat, k: nat)
    requires IsRun(ws, es) && t < |ws| && k < |ws[t].sems|
    ensures var s := ws[t].sems[k];
            && (forall q: Queue, i: nat | i < |s.permits| ::
                  i in s.lists.At(q) <==> s.permits[i].live && q == QueueOf(s.permits[i].state))
            && (forall q: Queue, a, b | 0 <= a < b < |s.lists.At(q)| :: s.lists.At(q)[a] != s.lists.At(q)[b])
            && s.waiters == |s.lists.admission| + |s.lists.memory| + |s.lists.ready|
            && s.inactiveReads == |s.lists.inactive|
  {
    RunOk(ws, es, t);
    var s := ws[t].sems[k];
    assert SemOk(s);
    forall q: Queue, i: nat | i < |s.permits|
      ensures i in s.lists.At(q) <==> s.permits[i].live && q == QueueOf(s.permits[i].state)
    {
      assert PermitOk(s.permits[i]);
      assert i in s.lists.At(q) ==> Linked(s.permits[i], q);
      assert Linked(s.permits[i], q) ==> i in s.lists.At(q);
    }
    assert forall q: Queue :: NoDuplicates(s.lists.At(q));
  }

  // ---------- CPU slots ----------

  predicate NeedsCpu(p: Permit) {
    p.live && (p.state.ActiveNeedCpu? || p.state.ActiveAwait?)
  }

  predicate Awaits(p: Permit) {
    p.live && p.state.ActiveAwait?
  }

  function NeedingCpu(ps: seq<Permit>): set<nat> {
    set i: nat | i < |ps| && NeedsCpu(ps[i])
  }

  function Awaiting(ps: seq<Permit>): set<nat> {
    set i: nat | i < |ps| && Awaits(ps[i])
  }

  lemma {:induction false} MarksAreStates(ps: seq<Permit>)
    requires forall i: nat | i < |ps| :: PermitOk(ps[i])
    ensures Tally(ps).needCpu == |NeedingCpu(ps)| && Tally(ps).awaits == |Awaiting(ps)|
  {
    if ps != [] {
      var n := |ps| - 1;
      MarksAreStates(ps[..n]);
      assert PermitOk(ps[n]);
      LastNeedsCpu(ps);
      LastAwaits(ps);
    }
  }

  lemma LastNeedsCpu(ps: seq<Permit>)
    requires ps != []
    ensures var n := |ps| - 1;
            |NeedingCpu(ps)| == |NeedingCpu(ps[..n])| + if NeedsCpu(ps[n]) then 1 else 0
  {
    hide NeedsCpu;
    var n := |ps| - 1;
    assert NeedingCpu(ps) == NeedingCpu(ps[..n]) + (if NeedsCpu(ps[n]) then {n} else {});
  }

  lemma LastAwaits(ps: seq<Permit>)
    requires ps != []
    ensures var n := |ps| - 1;
            |Awaiting(ps)| == |Awaiting(ps[..n])| + if Awaits(ps[n]) then 1 else 0
  {
    hide Awaits;
    var n := |ps| - 1;
    assert Awaiting(ps) == Awaiting(ps[..n]) + (if Awaits(ps[n]) then {n} else {});
  }

  /** However guards are created and destroyed, the two CPU counters are the numbers of permits in
      the states they count, and a running permit's state is determined by its guards. */
  lemma CpuCountersAreExact(ws: seq<World>, es: seq<Event>, t: nat, k: nat)
    requires IsRun(ws, es) && t < |ws| && k < |ws[t].sems|
    ensures var s := ws[t].sems[k];
            && s.needCpuPermits == |NeedingCpu(s.permits)|
            && s.awaitsPermits == |Awaiting(s.permits)|
            && 0 <= s.awaitsPermits <= s.needCpuPermits
            && (forall i: nat | i < |s.permits| && s.permits[i].live && s.permits[i].state.Running() ::
                  s.permits[i].state == (if s.permits[i].needCpuBranches == 0 then Active
                                         else if s.permits[i].awaitsBranches == 0 then ActiveNeedCpu
                                         else ActiveAwait))
  {
    RunOk(ws, es, t);
    var s := ws[t].sems[k];
    assert SemOk(s);
    MarksAreStates(s.permits);
    forall i: nat | i < |s.permits| ensures PermitOk(s.permits[i]) {
    }
    assert Awaiting(s.permits) <= NeedingCpu(s.permits);
    SubsetCardinality(Awaiting(s.permits), NeedingCpu(s.permits));
  }

  lemma {:induction false} SubsetCardinality(a: set<nat>, b: set<nat>)
    requires a <= b
    ensures |a| <= |b|
  {
    if a != {} {
      var x :| x in a;
      SubsetCardinality(a - {x}, b - {x});
    }
  }

  // ---------- serialized memory grants ----------

  /** The operation gives permit `i` the memory it asked for. */
  predicate GrantsMemory(l: Local, op: Op, i: nat)
    requires Allowed(l, op)
  {
    var l' := Apply(l, op);
    && i < |l.sem.permits| && i < |l'.sem.permits|
    && match op
       case Request(j, _) => i == j && l'.sem.permits[i].charged.memory > l.sem.permits[i].charged.memory
       case Admit(_) => i in l.sem.lists.memory && i !in l'.sem.lists.memory
       case _ => false
  }

  /** Above the serialize limit memory is only granted to the one blessed permit. */
  lemma GrantsAreSerialized(l: Local, op: Op, i: nat)
    requires Inv(l) && Allowed(l, op) && GrantsMemory(l, op, i)
    requires l.sem.initial.memory > 0 && !l.sem.Unlimited()
    requires 2 <= l.sem.config.serializeLimitMultiplier < UINT32_MAX
    requires Exposure(l.sem, l.pool) >= l.sem.initial.memory * l.sem.config.serializeLimitMultiplier
    ensures Apply(l, op).sem.blessed == Some(i)
    ensures l.sem.blessed == None || l.sem.blessed == Some(i)
  {
    hide Inv, Apply, Allowed;
    assert SerializeLimit(l.sem).ReachedBy(Exposure(l.sem, l.pool)) && l.sem.available.memory < 0 by {
      AtLeastTwice(l.sem.initial.memory, l.sem.config.serializeLimitMultiplier);
    }
    match op
    case Request(j, memory) => RequestIsSerialized(l, i, memory);
    case Admit(shed) => AdmitIsSerialized(l, i, shed);
  }

  lemma RequestIsSerialized(l: Local, i: nat, memory: nat)
    requires Allowed(l, Request(i, memory)) && GrantsMemory(l, Request(i, memory), i)
    requires SerializeLimit(l.sem).ReachedBy(Exposure(l.sem, l.pool)) && l.sem.available.memory < 0
    ensures Apply(l, Request(i, memory)).sem.blessed == Some(i)
    ensures l.sem.blessed == None || l.sem.blessed == Some(i)
  {
    hide RequestMemory, EnqueueWaiter, OnGrantedMemory, SerializeLimit, Exposure;
    var c := Load(l, i);
    var c0 := c.(p := c.p.(requested := c.p.requested + memory));
    Contends(c, memory);
    if !c.p.state.WaitingForMemory? {
      GrantKeepsBlessing(c0.(sem := c0.sem.(blessed := Some(i))));
      EnqueueKeepsCharge(c0);
    }
  }

  /** Above the serialize limit a permit that does not wait contends for memory. */
  lemma Contends(c: Ctx, memory: nat)
    requires SerializeLimit(c.sem).ReachedBy(Exposure(c.sem, c.pool)) && c.sem.available.memory < 0
    ensures var c0 := c.(p := c.p.(requested := c.p.requested + memory));
            RequestMemory(c, memory) == if c.p.state.WaitingForMemory? then c0 else Contend(c0)
  {
    hide OnGrantedMemory, Contend, LimitOf, Exposure;
    var c0 := c.(p := c.p.(requested := c.p.requested + memory));
    assert SerializeLimit(c0.sem) == SerializeLimit(c.sem) && Exposure(c0.sem, c0.pool) == Exposure(c.sem, c.pool);
  }

  /** Short of the kill limit, a request made above the serialize limit is granted exactly if no
      other permit is blessed. */
  lemma RequestIsGranted(l: Local, i: nat, memory: nat)
    requires Allowed(l, Request(i, memory)) && memory > 0
    requires !l.sem.permits[i].state.WaitingForMemory? && 0 <= l.sem.permits[i].requested
    requires !Kills(l.sem, l.pool, Resources(0, l.sem.permits[i].requested + memory))
    requires SerializeLimit(l.sem).ReachedBy(Exposure(l.sem, l.pool)) && l.sem.available.memory < 0
    ensures GrantsMemory(l, Request(i, memory), i) <==> l.sem.blessed == None || l.sem.blessed == Some(i)
  {
    hide RequestMemory, SerializeLimit, Exposure, EnqueueWaiter, OnGrantedMemory, Kills;
    var c := Load(l, i);
    var c0 := c.(p := c.p.(requested := c.p.requested + memory));
    Contends(c, memory);
    var c1 := if c0.sem.blessed.None? then c0.(sem := c0.sem.(blessed := Some(i))) else c0;
    BlessingIsNoKill(c0.sem, c1.sem.blessed, l.pool, Resources(0, c1.p.requested));
    GrantCharges(c1);
    EnqueueKeepsCharge(c1);
  }

  lemma BlessingIsNoKill(s: Sem, blessed: Option<nat>, pool: Pool, r: Resources)
    ensures Kills(s.(blessed := blessed), pool, r) == Kills(s, pool, r)
  {}

  lemma GrantCharges(c: Ctx)
    requires !c.p.state.WaitingForMemory? && !Kills(c.sem, c.pool, Resources(0, c.p.requested))
    ensures var o := OnGrantedMemory(c);
            && o.c.p.charged.memory == c.p.charged.memory + c.p.requested
            && o.c.i == c.i && o.c.sem.permits == c.sem.permits
  {
    hide LimitOf, Exposure;
  }

  lemma GrantKeepsBlessing(c: Ctx)
    ensures OnGrantedMemory(c).c.sem.blessed == c.sem.blessed
    ensures OnGrantedMemory(c).c.sem.permits == c.sem.permits
    ensures OnGrantedMemory(c).c.i == c.i
  {
    hide Kills;
  }

  lemma EnqueueKeepsCharge(c: Ctx)
    ensures EnqueueWaiter(c, WaitingForMemory).p.charged == c.p.charged
    ensures EnqueueWaiter(c, WaitingForMemory).sem.permits == c.sem.permits
    ensures EnqueueWaiter(c, WaitingForMemory).i == c.i
  {}

  lemma AdmitIsSerialized(l: Local, i: nat, shed: bool)
    requires Inv(l) && Allowed(l, Admit(shed)) && GrantsMemory(l, Admit(shed), i)
    requires SerializeLimit(l.sem).ReachedBy(Exposure(l.sem, l.pool)) && l.sem.available.memory < 0
    ensures Apply(l, Admit(shed)).sem.blessed == Some(i)
    ensures l.sem.blessed == None
  {
    var f := l.sem.lists.Front();
    AdmitTouchesFront(l, shed);
    ApplyKeeps(l, Admit(shed));
    var l' := Apply(l, Admit(shed));
    assert Linked(l.sem.permits[i], MemoryQueue) by {
      assert i in l.sem.lists.At(MemoryQueue);
    }
    assert i !in l'.sem.lists.At(MemoryQueue);
    assert i == f;
    assert PermitOk(l.sem.permits[i]);
    AdmitBlesses(Load(l, i), shed);
  }

  lemma AdmitTouchesFront(l: Local, shed: bool)
    requires Allowed(l, Admit(shed))
    ensures var l' := Apply(l, Admit(shed));
            && |l'.sem.permits| == |l.sem.permits|
            && forall j: nat | j < |l.sem.permits| && j != l.sem.lists.Front() :: l'.sem.permits[j] == l.sem.permits[j]
  {
    hide Kills, CanAdmitRead, OnActive, OnInactive, Take;
    var c := Load(l, l.sem.lists.Front());
    AdmitKeepsTable(c, shed);
  }

  lemma AdmitKeepsTable(c: Ctx, shed: bool)
    ensures AdmitFront(c, shed).sem.permits == c.sem.permits
    ensures AdmitFront(c, shed).i == c.i
  {
    hide Kills;
  }

  lemma AdmitBlesses(c: Ctx, shed: bool)
    requires c.p.state.WaitingForMemory?
    ensures AdmitFront(c, shed).sem.blessed == Some(c.i)
  {
    hide Kills;
  }
}
