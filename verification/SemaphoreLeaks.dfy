/** What a request rejected for overload leaves behind, and when a permit's end reports a leak. */
module SemaphoreLeaks {
  import opened Wrappers
  import opened ReaderPermit
  import opened Semaphore
  import opened SemaphoreInvariant
  import opened SemaphoreSteps
  import opened SemaphoreOperations
  import opened SemaphoreRuns

  // ---------- when a leak is reported ----------

  /** The operation ends a permit that has more charged than the base units it holds. */
  predicate EndsCharged(s: Sem, op: Op) {
    && (op.End? || op.DropHandle?)
    && op.i < |s.permits|
    && s.permits[op.i].charged != s.permits[op.i].Owed()
  }

  /** A leak is reported exactly when a permit ends with units charged beyond its base. */
  lemma LeakReported(l: Local, op: Op)
    requires Inv(l) && Allowed(l, op)
    ensures Apply(l, op).sem.leaks == l.sem.leaks + (if EndsCharged(l.sem, op) then 1 else 0)
  {
    if op.End? || op.DropHandle? {
      EndReports(l, op);
    } else {
      OthersReportNothing(l, op);
    }
  }

  /** The event ends a permit of some semaphore with units still charged. */
  predicate Leaks(w: World, e: Event) {
    e.On? && e.k < |w.sems| && EndsCharged(w.sems[e.k], e.op)
  }

  /** Over every run: a semaphore's reports grow by one at the events that end one of its permits
      with units still charged, and at no other event. */
  lemma LeaksOverRuns(ws: seq<World>, es: seq<Event>, t: nat, k: nat)
    requires IsRun(ws, es) && t < |es| && es[t].On? && k < |ws[t].sems|
    ensures k < |ws[t + 1].sems|
    ensures ws[t + 1].sems[k].leaks ==
              ws[t].sems[k].leaks + (if es[t].k == k && Leaks(ws[t], es[t]) then 1 else 0)
  {
    hide WorldOk, Inv, Apply, Allowed;
    RunOk(ws, es, t);
    assert Possible(ws[t], es[t]) && ws[t + 1] == Next(ws[t], es[t]);
    LocalView(ws[t], es[t].k);
    LeakReported(Local(ws[t].sems[es[t].k], ws[t].pool), es[t].op);
  }

  /** A run in which every permit ends with no more charged than its base reports no leak. */
  lemma {:induction false} NoLeakWithoutLeftovers(ws: seq<World>, es: seq<Event>, t: nat)
    requires IsRun(ws, es) && t < |ws| && forall u | 0 <= u < t :: !Leaks(ws[u], es[u])
    ensures forall k | 0 <= k < |ws[t].sems| :: ws[t].sems[k].leaks == 0
  {
    hide Apply, Allowed, Leaks;
    if t > 0 {
      NoLeakWithoutLeftovers(ws, es, t - 1);
      assert Possible(ws[t - 1], es[t - 1]) && ws[t] == Next(ws[t - 1], es[t - 1]);
      if es[t - 1].On? {
        forall k | 0 <= k < |ws[t].sems| ensures ws[t].sems[k].leaks == 0 {
          LeaksOverRuns(ws, es, t - 1, k);
        }
      }
    }
  }

  lemma EndReports(l: Local, op: Op)
    requires Inv(l) && Allowed(l, op) && (op.End? || op.DropHandle?)
    ensures Apply(l, op).sem.leaks == l.sem.leaks + (if EndsCharged(l.sem, op) then 1 else 0)
  {
    hide Inv, Sound, Repaid, Destroy, DequeuePermit;
    Begin(l, op.i);
    var c := if op.End? then Load(l, op.i) else DequeuePermit(Load(l, op.i));
    if op.DropHandle? {
      DequeueKeeps(Load(l, op.i));
    }
    RepaidKeeps(c);
    DestroyUnlinks(c);
  }

  lemma OthersReportNothing(l: Local, op: Op)
    requires Allowed(l, op) && !op.End? && !op.DropHandle?
    ensures Apply(l, op).sem.leaks == l.sem.leaks
  {
    hide DoWaitAdmission, AdmitFront, RequestMemory, RegisterInactiveRead, OnTimeout, Mark, DequeuePermit, Consume,
      Signal, ReleaseBase, OnActive, OnEvicted, ParkReady;
    match op
    case Obtain(base, hasFunc) => WaitReportsNothing(Load(Create(l, base, hasFunc), |l.sem.permits|));
    case Readmit(i) => WaitReportsNothing(Load(l, i));
    case Admit(shed) => AdmitReportsNothing(Load(l, l.sem.lists.Front()), shed);
    case Request(i, memory) => RequestReportsNothing(Load(l, i), memory);
    case Register(i) => RegisterReportsNothing(Load(l, i));
    case Expire(i) => TimeoutReportsNothing(Load(l, i));
    case SetGuard(i, g) => MarkReportsNothing(Load(l, i), g);
    case _ =>
  }

  lemma GrantReportsNothing(c: Ctx)
    ensures OnAdmission(c).c.sem.leaks == c.sem.leaks && OnGrantedMemory(c).c.sem.leaks == c.sem.leaks
  {
    hide Kills, Take, OnActive;
  }

  lemma WaitReportsNothing(c: Ctx)
    ensures DoWaitAdmission(c).sem.leaks == c.sem.leaks
  {
    hide OnAdmission, EnqueueWaiter, ParkReady, CanAdmitRead;
    GrantReportsNothing(c.(p := c.p.(arrival := c.sem.requests), sem := c.sem.(requests := c.sem.requests + 1)));
  }

  lemma AdmitReportsNothing(c: Ctx, shed: bool)
    ensures AdmitFront(c, shed).sem.leaks == c.sem.leaks
  {
    hide DequeuePermit, OnAdmission, OnGrantedMemory, ParkReady;
    var c1 := DequeuePermit(c);
    GrantReportsNothing(c1);
    GrantReportsNothing(c1.(sem := c1.sem.(blessed := Some(c.i))));
  }

  lemma RequestReportsNothing(c: Ctx, memory: nat)
    ensures RequestMemory(c, memory).sem.leaks == c.sem.leaks
  {
    hide EnqueueWaiter, SerializeLimit, Exposure, OnGrantedMemory;
    var c0 := c.(p := c.p.(requested := c.p.requested + memory));
    GrantReportsNothing(c0);
    GrantReportsNothing(c0.(sem := c0.sem.(blessed := Some(c0.i))));
  }

  lemma RegisterReportsNothing(c: Ctx)
    ensures RegisterInactiveRead(c).sem.leaks == c.sem.leaks
  {
    hide ReleaseBase, Retire, ShouldEvictInactiveRead, MoveTo, OnEvicted;
  }

  lemma TimeoutReportsNothing(c: Ctx)
    ensures OnTimeout(c).sem.leaks == c.sem.leaks
  {
    hide DequeuePermit, OnInactive, OnEvicted;
  }

  lemma MarkReportsNothing(c: Ctx, g: Guard)
    ensures Mark(c, g).sem.leaks == c.sem.leaks
  {}

  // ---------- arrears ----------

  /** The request is refused for overload: memory is short, the serialize limit is reached,
      another permit is blessed and the queues are full. */
  predicate Rejected(c: Ctx, memory: nat) {
    && !c.p.state.WaitingForMemory?
    && c.sem.available.memory <= 0
    && SerializeLimit(c.sem).ReachedBy(Exposure(c.sem, c.pool) + memory)
    && c.sem.blessed.Some? && c.sem.blessed.value != c.i
    && c.sem.waiters >= c.sem.config.maxQueueLength
  }

  /** A permit that does not wait has an amount recorded exactly if the request was rejected and
      there is something to record; the rejected request changes nothing else. */
  lemma RejectedRequestLeavesArrears(c: Ctx, memory: nat)
    ensures var c' := RequestMemory(c, memory);
            && (!c'.p.state.WaitingForMemory? && c'.p.requested != 0 <==>
                  Rejected(c, memory) && c.p.requested + memory != 0)
            && (Rejected(c, memory) ==> c' == c.(p := c.p.(requested := c.p.requested + memory)))
  {
    hide SerializeLimit, Exposure, OnGrantedMemory, MoveTo, OnInactive;
  }

  /** A granted request charges what was asked exactly if no earlier request left arrears. */
  lemma GrantChargesArrears(c: Ctx, memory: nat)
    requires !c.p.state.WaitingForMemory?
    requires RequestMemory(c, memory).p.charged != c.p.charged
    ensures RequestMemory(c, memory).p.charged.memory == c.p.charged.memory + memory <==> c.p.requested == 0
  {
    hide Kills, Take, EnqueueWaiter, SerializeLimit, Exposure;
  }

  /** A permit is granted a request, returns exactly what it asked for and ends: a leak is reported
      exactly if an earlier request had left arrears. */
  lemma ArrearsBecomeALeak(l: Local, i: nat, memory: nat)
    requires Inv(l) && InList(l.sem, i, PermitList) && Unguarded(l.sem.permits[i])
    requires l.sem.permits[i].state.Running() && l.sem.permits[i].charged == l.sem.permits[i].Owed()
    requires Apply(l, Request(i, memory)).sem.permits[i].charged != l.sem.permits[i].charged
    ensures var l1 := Apply(l, Request(i, memory));
            && Allowed(l1, Refund(i, Resources(0, memory)))
            && var l2 := Apply(l1, Refund(i, Resources(0, memory)));
            && Allowed(l2, End(i))
            && Apply(l2, End(i)).sem.leaks == l.sem.leaks + (if l.sem.permits[i].requested == 0 then 0 else 1)
  {
    hide Inv, Apply, Signal, Destroy;
    RequestStep(l, i, memory);
    Recorded(l, i);
    var l1 := Apply(l, Request(i, memory));
    RefundStep(l1, i, memory);
    var l2 := Apply(l1, Refund(i, Resources(0, memory)));
    LeakReported(l2, End(i));
  }

  /** A granted request charges all that is recorded. */
  lemma RequestStep(l: Local, i: nat, memory: nat)
    requires Inv(l) && Live(l.sem, i) && l.sem.permits[i].state.Running()
    requires Apply(l, Request(i, memory)).sem.permits[i].charged != l.sem.permits[i].charged
    ensures var l', p := Apply(l, Request(i, memory)), l.sem.permits[i];
            && Inv(l') && l'.sem.leaks == l.sem.leaks && |l'.sem.permits| == |l.sem.permits|
            && l'.sem.permits[i] == p.(requested := 0, charged := p.charged.Plus(Resources(0, p.requested + memory)))
  {
    hide Inv, RequestMemory;
    ApplyKeeps(l, Request(i, memory));
    LeakReported(l, Request(i, memory));
    GrantLeavesRunning(Load(l, i), memory);
  }

  lemma RefundStep(l: Local, i: nat, memory: nat)
    requires Inv(l) && Live(l.sem, i)
    requires l.sem.permits[i].Owed().Plus(Resources(0, memory)).AtMost(l.sem.permits[i].charged)
    ensures Allowed(l, Refund(i, Resources(0, memory)))
    ensures var l', p := Apply(l, Refund(i, Resources(0, memory))), l.sem.permits[i];
            && Inv(l') && l'.sem.leaks == l.sem.leaks && |l'.sem.permits| == |l.sem.permits|
            && l'.sem.permits[i] == p.(charged := p.charged.Minus(Resources(0, memory)))
  {
    hide Inv, Signal;
    ApplyKeeps(l, Refund(i, Resources(0, memory)));
    LeakReported(l, Refund(i, Resources(0, memory)));
  }

  lemma Recorded(l: Local, i: nat)
    requires Inv(l) && i < |l.sem.permits|
    ensures 0 <= l.sem.permits[i].requested
  {
    assert PermitOk(l.sem.permits[i]);
  }

  /** A request made while running charges nothing, or all that is recorded. */
  lemma GrantLeavesRunning(c: Ctx, memory: nat)
    requires c.p.state.Running()
    ensures var c' := RequestMemory(c, memory);
            && c'.i == c.i && c'.sem.permits == c.sem.permits
            && (|| c'.p.charged == c.p.charged
                || c'.p == c.p.(requested := 0, charged := c.p.charged.Plus(Resources(0, c.p.requested + memory))))
  {
    hide OnGrantedMemory, EnqueueWaiter, SerializeLimit, Exposure;
    var c0 := c.(p := c.p.(requested := c.p.requested + memory));
    GrantOutcome(c0);
    GrantOutcome(c0.(sem := c0.sem.(blessed := Some(c0.i))));
  }

  lemma GrantOutcome(c: Ctx)
    requires c.p.state.Running()
    ensures var p := OnGrantedMemory(c).c.p;
            || p.charged == c.p.charged
            || p == c.p.(requested := 0, charged := c.p.charged.Plus(Resources(0, c.p.requested)))
  {
    hide Kills, Take;
  }

  // ---------- a run that reaches the leak report ----------

  /** Nobody may queue, memory is serialized from the first byte on and nothing is killed. */
  const NO_QUEUE := Config(0, 1, 0, 1)

  function Reader(memory: int, requested: int, live: bool): Permit {
    NewPermit(NOTHING, false).(charged := Resources(0, memory), requested := requested, live := live)
  }

  /** A semaphore without memory of its own and without a pool. */
  function Bare(used: int, permits: seq<Permit>, others: seq<nat>, blessed: Option<nat>): Local {
    Local(NewSem(NO_QUEUE, NOTHING).(available := Resources(0, -used), permits := permits,
                                     lists := Lists([], [], [], [], others), blessed := blessed),
          Pool(0, 0, false))
  }

  /** With nobody blessed and no kill limit, the request is charged together with what is recorded. */
  lemma GrantAlone(c: Ctx)
    requires c.sem.config == NO_QUEUE && c.pool.available == 0 && c.p.state.Running()
    ensures OnGrantedMemory(c).c ==
            c.(sem := c.sem.(available := c.sem.available.Minus(Resources(0, c.p.requested))),
               p := c.p.(requested := 0, charged := c.p.charged.Plus(Resources(0, c.p.requested))))
  {
    hide OnActive;
    assert KillLimit(c.sem) == Disabled;
  }

  lemma RequestAlone(c: Ctx, memory: nat)
    requires c.sem.config == NO_QUEUE && c.sem.initial == NOTHING && c.sem.available == NOTHING
    requires c.sem.blessed.None? && c.pool.available == 0 && c.p.state.Running()
    ensures RequestMemory(c, memory) ==
            c.(sem := c.sem.(available := Resources(0, -(c.p.requested + memory)), blessed := Some(c.i)),
               p := c.p.(requested := 0, charged := c.p.charged.Plus(Resources(0, c.p.requested + memory))))
  {
    hide OnGrantedMemory, EnqueueWaiter;
    assert SerializeLimit(c.sem) == At(0) && Exposure(c.sem, c.pool) == 0;
    var c0 := c.(p := c.p.(requested := c.p.requested + memory));
    GrantAlone(c0.(sem := c0.sem.(blessed := Some(c0.i))));
  }

  lemma FirstIsBlessed(b: nat)
    ensures var l := Bare(0, [Reader(0, 0, true), Reader(0, 0, true)], [0, 1], None);
            && Allowed(l, Request(0, b))
            && Apply(l, Request(0, b)) == Bare(b, [Reader(b, 0, true), Reader(0, 0, true)], [0, 1], Some(0))
  {
    hide RequestMemory;
    RequestAlone(Load(Bare(0, [Reader(0, 0, true), Reader(0, 0, true)], [0, 1], None), 0), b);
  }

  lemma SecondIsRejected(a: nat)
    ensures var l := Bare(1, [Reader(1, 0, true), Reader(0, 0, true)], [0, 1], Some(0));
            && Allowed(l, Request(1, a))
            && Apply(l, Request(1, a)) == Bare(1, [Reader(1, 0, true), Reader(0, a, true)], [0, 1], Some(0))
  {
    hide RequestMemory;
    var l := Bare(1, [Reader(1, 0, true), Reader(0, 0, true)], [0, 1], Some(0));
    RejectedRequestLeavesArrears(Load(l, 1), a);
  }

  lemma FirstLeaves(a: nat)
    ensures var l := Bare(1, [Reader(1, 0, true), Reader(0, a, true)], [0, 1], Some(0));
            && Allowed(l, Refund(0, Resources(0, 1)))
            && var l1 := Bare(0, [Reader(0, 0, true), Reader(0, a, true)], [0, 1], Some(0));
            && Apply(l, Refund(0, Resources(0, 1))) == l1
            && Allowed(l1, End(0))
            && Apply(l1, End(0)) == Bare(0, [Reader(0, 0, false), Reader(0, a, true)], [1], None)
  {
  }

  lemma SecondIsGranted(a: nat, m: nat)
    ensures var l := Bare(0, [Reader(0, 0, false), Reader(0, a, true)], [1], None);
            && Allowed(l, Request(1, m))
            && Apply(l, Request(1, m)).sem.permits[1].charged == Resources(0, a + m)
  {
    hide RequestMemory;
    RequestAlone(Load(Bare(0, [Reader(0, 0, false), Reader(0, a, true)], [1], None), 1), m);
  }

  lemma Extend(ws: seq<World>, es: seq<Event>, e: Event)
    requires IsRun(ws, es) && Possible(ws[|es|], e)
    ensures IsRun(ws + [Next(ws[|es|], e)], es + [e])
  {
    hide Possible, Next;
    assert forall t | 0 <= t < |es| :: (ws + [Next(ws[|es|], e)])[t] == ws[t];
  }

  /** One more operation on the only semaphore. */
  lemma Then(ws: seq<World>, es: seq<Event>, l: Local, op: Op, l': Local)
    requires IsRun(ws, es) && |ws| == |es| + 1 && ws[|es|] == World([l.sem], l.pool)
    requires Allowed(l, op) && Apply(l, op) == l'
    ensures IsRun(ws + [World([l'.sem], l'.pool)], es + [On(0, op)]) && |ws| == |es| + 1
  {
    hide Allowed, Apply;
    assert l == Local(l.sem, l.pool);
    assert [l.sem][0 := l'.sem] == [l'.sem];
    Extend(ws, es, On(0, op));
  }

  /** Two permits that track reads, before anything is charged. */
  lemma TwoReaders() returns (ws: seq<World>, es: seq<Event>)
    ensures IsRun(ws, es) && |ws| == |es| + 1
    ensures var l := Bare(0, [Reader(0, 0, true), Reader(0, 0, true)], [0, 1], None);
            ws[|es|] == World([l.sem], l.pool)
  {
    ws, es := [World([], Pool(0, 0, false))], [];
    Extend(ws, es, AddSem(NO_QUEUE, 0));
    var l0, l1 := Bare(0, [], [], None), Bare(0, [Reader(0, 0, true)], [0], None);
    var l2 := Bare(0, [Reader(0, 0, true), Reader(0, 0, true)], [0, 1], None);
    assert [] + [l0.sem] == [l0.sem];
    ws, es := ws + [World([l0.sem], l0.pool)], es + [AddSem(NO_QUEUE, 0)];
    Then(ws, es, l0, Track, l1);
    ws, es := ws + [World([l1.sem], l1.pool)], es + [On(0, Track)];
    Then(ws, es, l1, Track, l2);
    ws, es := ws + [World([l2.sem], l2.pool)], es + [On(0, Track)];
  }

  /** The second reader asks for `a` while the first one is blessed and is rejected; the first one
      returns its memory and ends. */
  lemma ArrearsAreLeft(a: nat) returns (ws: seq<World>, es: seq<Event>)
    ensures IsRun(ws, es) && |ws| == |es| + 1
    ensures var l := Bare(0, [Reader(0, 0, false), Reader(0, a, true)], [1], None);
            ws[|es|] == World([l.sem], l.pool)
  {
    hide IsRun, Allowed, Apply;
    ws, es := TwoReaders();
    var l := Bare(0, [Reader(0, 0, true), Reader(0, 0, true)], [0, 1], None);
    var l1 := Bare(1, [Reader(1, 0, true), Reader(0, 0, true)], [0, 1], Some(0));
    FirstIsBlessed(1);
    Then(ws, es, l, Request(0, 1), l1);
    ws, es := ws + [World([l1.sem], l1.pool)], es + [On(0, Request(0, 1))];
    var l2 := Bare(1, [Reader(1, 0, true), Reader(0, a, true)], [0, 1], Some(0));
    SecondIsRejected(a);
    Then(ws, es, l1, Request(1, a), l2);
    ws, es := ws + [World([l2.sem], l2.pool)], es + [On(0, Request(1, a))];
    FirstLeaves(a);
    var l3 := Bare(0, [Reader(0, 0, true), Reader(0, a, true)], [0, 1], Some(0));
    Then(ws, es, l2, Refund(0, Resources(0, 1)), l3);
    ws, es := ws + [World([l3.sem], l3.pool)], es + [On(0, Refund(0, Resources(0, 1)))];
    var l4 := Bare(0, [Reader(0, 0, false), Reader(0, a, true)], [1], None);
    Then(ws, es, l3, End(0), l4);
    ws, es := ws + [World([l4.sem], l4.pool)], es + [On(0, End(0))];
  }

  /** Runs that report a leak exist, whatever the two amounts asked for: the second reader is
      granted `m`, returns `m` and ends. */
  lemma ArrearsRun(a: nat, m: nat) returns (ws: seq<World>, es: seq<Event>)
    requires 0 < a
    ensures IsRun(ws, es) && |ws| == |es| + 1 && |ws[|es|].sems| == 1 && ws[|es|].sems[0].leaks == 1
    ensures 3 <= |es|
    ensures es[|es| - 3..] == [On(0, Request(1, m)), On(0, Refund(1, Resources(0, m))), On(0, End(1))]
  {
    hide IsRun, Allowed, Apply, WorldOk, Inv;
    ws, es := ArrearsAreLeft(a);
    var l := Bare(0, [Reader(0, 0, false), Reader(0, a, true)], [1], None);
    RunOk(ws, es, |es|);
    LocalView(ws[|es|], 0);
    SecondIsGranted(a, m);
    ArrearsBecomeALeak(l, 1, m);
    var l1 := Apply(l, Request(1, m));
    Then(ws, es, l, Request(1, m), l1);
    ws, es := ws + [World([l1.sem], l1.pool)], es + [On(0, Request(1, m))];
    var l2 := Apply(l1, Refund(1, Resources(0, m)));
    Then(ws, es, l1, Refund(1, Resources(0, m)), l2);
    ws, es := ws + [World([l2.sem], l2.pool)], es + [On(0, Refund(1, Resources(0, m)))];
    var l3 := Apply(l2, End(1));
    Then(ws, es, l2, End(1), l3);
    ws, es := ws + [World([l3.sem], l3.pool)], es + [On(0, End(1))];
  }
}
