/** What each operation leaves behind: the permit's state, charge and place, the accounts and the
    lists, decided by the conditions of `SemaphoreConditions`. */
module SemaphoreOutcomes {
  import opened Wrappers
  import opened ReaderPermit
  import opened Semaphore
  import opened SemaphoreInvariant
  import opened SemaphoreSteps
  import opened SemaphoreOperations
  import opened SemaphoreRuns
  import opened SemaphoreTheorems
  import opened SemaphoreConditions
  import opened SemaphoreBounds
  import opened SemaphoreFairness

  // ---------- accounts ----------

  predicate SameAccounts(l: Local, l': Local) {
    l'.pool == l.pool && l'.sem.available == l.sem.available && l'.sem.borrowed == l.sem.borrowed
  }

  /** Units were charged; what was short was borrowed as far as the pool could lend it. */
  predicate Paid(l: Local, l': Local, units: Resources) {
    var loan := Max(0, Min(units.memory - l.sem.available.memory, Idle(l.pool)));
    && l'.sem.borrowed == l.sem.borrowed + loan
    && l'.pool == l.pool.(available := l.pool.available - loan)
    && l'.sem.available == Resources(l.sem.available.count - units.count, l.sem.available.memory - units.memory + loan)
  }

  /** Units were returned: memory refills a deficit first, then repays the loan, and the rest becomes
      available. */
  predicate Returned(l: Local, l': Local, units: Resources) {
    var deficit := Max(0, Min(-l.sem.available.memory, units.memory));
    var back := Min(units.memory - deficit, l.sem.borrowed);
    && l'.sem.borrowed == l.sem.borrowed - back
    && l'.pool == l.pool.(available := l.pool.available + back)
    && l'.sem.available == Resources(l.sem.available.count + units.count, l.sem.available.memory + units.memory - back)
  }

  lemma TakePays(l: Local, units: Resources)
    ensures Paid(l, Take(l, units), units)
  {}

  lemma GiveReturns(l: Local, units: Resources)
    requires units.NonNegative() && 0 <= l.sem.borrowed
    requires !Give(l, units).sem.fault && !Give(l, units).pool.fault && !l.pool.fault
    ensures Returned(l, Give(l, units), units)
  {}

  /** The permit operations of `l` work on, and what `PermitOk` says of it. */
  lemma Begins(l: Local, i: nat)
    requires Inv(l) && Live(l.sem, i)
    ensures PermitOk(l.sem.permits[i]) && 0 <= l.sem.borrowed && !l.sem.fault && !l.pool.fault
  {
    hide Listed, InOrder, PermitOk, Tally;
  }

  // ---------- charges ----------

  /** A charge is refused, and then changes nothing, exactly if the kill limit is reached; otherwise
      the permit and the semaphore pay it.  Below what the limit would be without a pool it is never
      refused. */
  lemma ChargeOutcome(l: Local, i: nat, units: Resources)
    requires Inv(l) && Allowed(l, Charge(i, units))
    ensures var l', p := Apply(l, Charge(i, units)), l.sem.permits[i];
            if Refused(l, units.memory) then l' == l
            else
              && Paid(l, l', units)
              && l'.sem.permits == l.sem.permits[i := p.(charged := p.charged.Plus(units))]
              && l'.sem.lists == l.sem.lists
    ensures Held(l) + units.memory < l.sem.unreduced * l.sem.config.killLimitMultiplier ==> !Refused(l, units.memory)
  {
    hide Inv, Kills, Reaches, Take, Held;
    KillsMeans(l, units);
    TakePays(l, units);
    assert l.sem.permits[i := l.sem.permits[i]] == l.sem.permits;
  }

  /** Units are returned and leave the permit's charge. */
  lemma RefundOutcome(l: Local, i: nat, units: Resources)
    requires Inv(l) && Allowed(l, Refund(i, units))
    ensures var l' := Apply(l, Refund(i, units));
            && Returned(l, l', units)
            && l'.sem.permits == l.sem.permits[i := l.sem.permits[i].(charged := l.sem.permits[i].charged.Minus(units))]
            && l'.sem.lists == l.sem.lists
  {
    hide Inv, Give;
    ApplyKeeps(l, Refund(i, units));
    Sounds(l);
    Sounds(Apply(l, Refund(i, units)));
    var c := Load(l, i);
    GiveReturns(Local(c.sem, c.pool), units);
  }

  lemma Sounds(l: Local)
    requires Inv(l)
    ensures 0 <= l.sem.borrowed && !l.sem.fault && !l.pool.fault
  {
    hide Listed, InOrder, PermitsOk, Tally;
  }

  lemma ReleaseReturns(c: Ctx)
    requires c.p.base.NonNegative() && 0 <= c.sem.borrowed && !c.pool.fault
    requires !ReleaseBase(c).sem.fault && !ReleaseBase(c).pool.fault
    ensures Returned(Local(c.sem, c.pool), Local(ReleaseBase(c).sem, ReleaseBase(c).pool), c.p.Owed())
  {
    hide Give;
    if c.p.baseConsumed {
      GiveReturns(Local(c.sem, c.pool), c.p.base);
    }
  }

  /** The base units are returned if they were charged. */
  lemma DropBaseOutcome(l: Local, i: nat)
    requires Inv(l) && Allowed(l, DropBase(i))
    ensures var l', p := Apply(l, DropBase(i)), l.sem.permits[i];
            && Returned(l, l', p.Owed())
            && l'.sem.permits == l.sem.permits[i := p.(charged := p.charged.Minus(p.Owed()), baseConsumed := false)]
            && l'.sem.lists == l.sem.lists
  {
    hide Inv, PermitOk, ReleaseBase;
    ApplyKeeps(l, DropBase(i));
    Begins(l, i);
    PermitBase(l.sem.permits[i]);
    Sounds(Apply(l, DropBase(i)));
    ReleaseReturns(Load(l, i));
  }

  // ---------- coming in ----------

  /** The state of a permit that runs: its guards decide. */
  function RunState(p: Permit): State {
    if p.needCpuBranches == 0 then Active else if p.awaitsBranches == 0 then ActiveNeedCpu else ActiveAwait
  }

  /** The wait list has room for one more. */
  predicate Room(s: Sem) {
    |s.lists.admission| + |s.lists.memory| + |s.lists.ready| < s.config.maxQueueLength
  }

  /** After its admission a read runs, or waits to be run if it is to be run by the semaphore and
      the queues have room. */
  predicate Proceeds(l: Local, l': Local, p: Permit, i: nat, parks: bool)
    requires i < |l'.sem.permits|
  {
    if parks then l'.sem.permits[i].state == WaitingForExecution && l'.sem.lists.ready == l.sem.lists.ready + [i]
    else l'.sem.permits[i].state == RunState(p) && l'.sem.permits[i].hook == PermitList
  }

  /** A read that asks for admission, not waiting for anything: `l'` is what becomes of `l`. */
  predicate Asked(l: Local, l': Local, p: Permit, i: nat)
    requires i < |l'.sem.permits|
  {
    var p' := l'.sem.permits[i];
    if l.sem.lists.NoWaiter() && MayEnter(l, p.base) then
      if Refused(l, p.base.memory) then
        && p'.charged == p.charged && !p'.baseConsumed && SameAccounts(l, l') && Proceeds(l, l', p, i, false)
      else
        && p'.charged == p.charged.Plus(p.base) && p'.baseConsumed && Paid(l, l', p.base)
        && Proceeds(l, l', p, i, p.hasFunc && Room(l.sem))
    else
      && p'.charged == p.charged && !p'.baseConsumed && SameAccounts(l, l')
      && if Room(l.sem) then
           p'.state == WaitingForAdmission && l'.sem.lists.admission == l.sem.lists.admission + [i]
         else
           p'.state == p.state && l'.sem.lists.admission == l.sem.lists.admission
  }

  /** The same on contexts, by the decisions of the code. */
  predicate AskedHere(c: Ctx, c': Ctx) {
    var l, l' := Local(c.sem, c.pool), Local(c'.sem, c'.pool);
    if c.sem.lists.NoWaiter() && CanAdmitRead(c.sem, c.pool, c.p).decision == Yes then
      if Kills(c.sem, c.pool, c.p.base) then
        && c'.p.charged == c.p.charged && !c'.p.baseConsumed && SameAccounts(l, l')
        && c'.p.state == RunState(c.p) && c'.p.hook == PermitList
      else
        && c'.p.charged == c.p.charged.Plus(c.p.base) && c'.p.baseConsumed && Paid(l, l', c.p.base)
        && if c.p.hasFunc && c.sem.waiters < c.sem.config.maxQueueLength then
             c'.p.state == WaitingForExecution && c'.sem.lists.ready == c.sem.lists.ready + [c.i]
           else
             c'.p.state == RunState(c.p) && c'.p.hook == PermitList
    else
      && c'.p.charged == c.p.charged && !c'.p.baseConsumed && SameAccounts(l, l')
      && if c.sem.waiters < c.sem.config.maxQueueLength then
           c'.p.state == WaitingForAdmission && c'.sem.lists.admission == c.sem.lists.admission + [c.i]
         else
           c'.p.state == c.p.state && c'.sem.lists.admission == c.sem.lists.admission
  }

  lemma AdmissionPays(c: Ctx)
    requires !c.p.baseConsumed && !c.p.state.ActiveAwait?
    ensures var o := OnAdmission(c);
            && o.ok == !Kills(c.sem, c.pool, c.p.base)
            && o.c.p.state == RunState(c.p)
            && o.c.sem.waiters == c.sem.waiters && o.c.sem.config == c.sem.config
            && if o.ok then
                 && o.c.p.charged == c.p.charged.Plus(c.p.base) && o.c.p.baseConsumed
                 && Paid(Local(c.sem, c.pool), Local(o.c.sem, o.c.pool), c.p.base)
               else
                 && o.c.p.charged == c.p.charged && !o.c.p.baseConsumed
                 && SameAccounts(Local(c.sem, c.pool), Local(o.c.sem, o.c.pool))
  {
    hide Kills, Take;
    var c1 := OnActive(c);
    RunsBy(c);
    SameKills(c.sem, c1.sem, c.pool, c.p.base);
    TakePays(Local(c1.sem, c1.pool), c.p.base);
  }

  lemma RunsBy(c: Ctx)
    ensures OnActive(c).p.state == RunState(c.p)
  {}

  lemma AsksHere(c: Ctx)
    requires !c.p.baseConsumed && c.p.hook == PermitList && !c.p.state.ActiveAwait?
    ensures AskedHere(c, DoWaitAdmission(c)) && DoWaitAdmission(c).i == c.i
    ensures DoWaitAdmission(c).sem.permits == c.sem.permits
  {
    hide OnAdmission, CanAdmitRead, Kills, WithReadyPermit, EnqueueWaiter, Max, Min;
    var c0 := c.(p := c.p.(arrival := c.sem.requests), sem := c.sem.(requests := c.sem.requests + 1));
    SameDecision(c.sem, c0.sem, c.pool, c.p, c0.p);
    SameKills(c.sem, c0.sem, c.pool, c.p.base);
    AdmissionPays(c0);
    Parks(OnAdmission(c0).c);
    Queues(c0, WaitingForAdmission);
  }

  lemma Parks(c: Ctx)
    requires c.p.hook == PermitList
    ensures var c' := WithReadyPermit(c);
            && c'.i == c.i && c'.sem.permits == c.sem.permits
            && c'.p.charged == c.p.charged && c'.p.baseConsumed == c.p.baseConsumed
            && SameAccounts(Local(c.sem, c.pool), Local(c'.sem, c'.pool))
            && if c.sem.waiters < c.sem.config.maxQueueLength then
                 c'.p.state == WaitingForExecution && c'.sem.lists.ready == c.sem.lists.ready + [c.i]
               else c' == c
  {
    hide OnInactive;
  }

  lemma Queues(c: Ctx, st: State)
    requires c.p.hook == PermitList && st in {WaitingForAdmission, WaitingForMemory}
    ensures var c' := EnqueueWaiter(c, st);
            && c'.i == c.i && c'.sem.permits == c.sem.permits
            && c'.p.charged == c.p.charged && c'.p.baseConsumed == c.p.baseConsumed
            && SameAccounts(Local(c.sem, c.pool), Local(c'.sem, c'.pool))
            && if c.sem.waiters < c.sem.config.maxQueueLength then
                 c'.p.state == st && c'.sem.lists.At(QueueOf(st)) == c.sem.lists.At(QueueOf(st)) + [c.i]
               else c' == c
  {
    hide OnInactive;
  }

  lemma AskedMeans(l: Local, c: Ctx, c': Ctx)
    requires Inv(l) && !c.p.state.WaitingForMemory? && c.pool == l.pool
    requires c.sem == l.sem.(permits := c.sem.permits, lists := l.sem.lists.(others := c.sem.lists.others))
    requires AskedHere(c, c') && c'.i == c.i < |c'.sem.permits|
    ensures Asked(l, Store(c'), c.p, c.i)
  {
    hide Inv, CanAdmitRead, Kills, MayEnter, Refused, Max, Min;
    SameDecision(l.sem, c.sem, l.pool, c.p, c.p);
    SameKills(l.sem, c.sem, l.pool, c.p.base);
    DecisionMeans(l, c.p);
    KillsMeans(l, c.p.base);
    WaitersCounted(l);
  }

  lemma WaitersCounted(l: Local)
    requires Inv(l)
    ensures Room(l.sem) <==> l.sem.waiters < l.sem.config.maxQueueLength
  {
    hide Listed, InOrder, PermitsOk, Tally;
  }

  /** A new read is admitted on the spot exactly if nobody waits, it may enter and the charge is not
      refused; otherwise it queues while there is room. */
  lemma ObtainOutcome(l: Local, base: Resources, hasFunc: bool)
    requires Inv(l) && Allowed(l, Obtain(base, hasFunc))
    ensures var l' := Apply(l, Obtain(base, hasFunc));
            var p := Permit(base, NOTHING, false, 0, 0, 0, false, false, Active, PermitList, hasFunc, false, true, 0);
            |l'.sem.permits| == |l.sem.permits| + 1 && Asked(l, l', p, |l.sem.permits|)
  {
    hide Inv, DoWaitAdmission, Asked, AskedHere;
    var c := Load(Create(l, base, hasFunc), |l.sem.permits|);
    AsksHere(c);
    AskedMeans(l, c, DoWaitAdmission(c));
  }

  lemma ObtainAdmits(l: Local, base: Resources, hasFunc: bool)
    requires Inv(l) && Allowed(l, Obtain(base, hasFunc))
    ensures Admits(l, Obtain(base, hasFunc), |l.sem.permits|) <==>
              l.sem.lists.NoWaiter() && MayEnter(l, base) && !Refused(l, base.memory)
  {
    hide Inv, Apply, MayEnter, Refused, Paid;
    ObtainOutcome(l, base, hasFunc);
  }

  /** So is an evicted one that asks again. */
  lemma ReadmitOutcome(l: Local, i: nat)
    requires Inv(l) && Allowed(l, Readmit(i))
    ensures var l' := Apply(l, Readmit(i));
            && |l'.sem.permits| == |l.sem.permits|
            && Asked(l, l', l.sem.permits[i], i)
  {
    hide Inv, PermitOk, DoWaitAdmission, Asked, AskedHere;
    var c := Load(l, i);
    Begins(l, i);
    EvictedPermit(c.p);
    AsksHere(c);
    AskedMeans(l, c, DoWaitAdmission(c));
  }

  lemma EvictedPermit(p: Permit)
    requires PermitOk(p) && p.live && p.state.Evicted?
    ensures !p.baseConsumed && p.hook == PermitList
  {}

  // ---------- being let in from the wait list ----------

  /** The loop lets the front in exactly if it may go on or may enter. */
  lemma AdmitMeans(l: Local, shed: bool)
    requires Inv(l)
    ensures Allowed(l, Admit(shed)) <==>
              && !l.sem.lists.NoWaiter()
              && (l.sem.lists.memory != [] ==> MayGoOn(l))
              && (l.sem.lists.memory == [] ==>
                    l.sem.lists.Front() < |l.sem.permits| && MayEnter(l, l.sem.permits[l.sem.lists.Front()].base))
  {
    hide Inv, CanAdmitRead, MayEnter, MayGoOn;
    if !l.sem.lists.NoWaiter() {
      FrontWaits(l);
      DecisionMeans(l, l.sem.permits[l.sem.lists.Front()]);
    }
  }

  lemma FrontWaits(l: Local)
    requires Inv(l) && !l.sem.lists.NoWaiter()
    ensures var i := l.sem.lists.Front();
            && i < |l.sem.permits| && l.sem.permits[i].live && PermitOk(l.sem.permits[i])
            && l.sem.permits[i].state == if l.sem.lists.memory == [] then WaitingForAdmission else WaitingForMemory
  {
    var q := if l.sem.lists.memory == [] then AdmissionQueue else MemoryQueue;
    var i := l.sem.lists.Front();
    assert i in l.sem.lists.At(q);
    assert Linked(l.sem.permits[i], q) && PermitOk(l.sem.permits[i]);
  }

  /** What becomes of the read at the front. */
  predicate LetIn(l: Local, l': Local, p: Permit, i: nat, shed: bool)
    requires i < |l'.sem.permits|
  {
    var p' := l'.sem.permits[i];
    if p.state.WaitingForMemory? then
      && l'.sem.blessed == Some(i) && p'.requested == 0 && p'.baseConsumed == p.baseConsumed
      && if Refused(l, p.requested) then
           p'.charged == p.charged && SameAccounts(l, l') && Proceeds(l, l', p, i, false)
         else
           && p'.charged == p.charged.Plus(Resources(0, p.requested)) && Paid(l, l', Resources(0, p.requested))
           && Proceeds(l, l', p, i, p.hasFunc)
    else if shed then
      && p'.state == PreemptiveAborted && p'.aborted && p'.hook == PermitList
      && p'.charged == p.charged && !p'.baseConsumed && SameAccounts(l, l') && l'.sem.blessed == l.sem.blessed
    else
      && l'.sem.blessed == l.sem.blessed
      && if Refused(l, p.base.memory) then
           p'.charged == p.charged && !p'.baseConsumed && SameAccounts(l, l') && Proceeds(l, l', p, i, false)
         else
           && p'.charged == p.charged.Plus(p.base) && p'.baseConsumed && Paid(l, l', p.base)
           && Proceeds(l, l', p, i, p.hasFunc)
  }

  lemma GrantPays(c: Ctx)
    requires c.p.state.WaitingForMemory?
    ensures var o, units := OnGrantedMemory(c), Resources(0, c.p.requested);
            && o.ok == !Kills(c.sem, c.pool, units)
            && o.c.p.state == RunState(c.p)
            && if o.ok then
                 && o.c.p.charged == c.p.charged.Plus(units)
                 && Paid(Local(c.sem, c.pool), Local(o.c.sem, o.c.pool), units)
               else o.c.p.charged == c.p.charged && SameAccounts(Local(c.sem, c.pool), Local(o.c.sem, o.c.pool))
  {
    hide Kills, Take;
    var c1, units := OnActive(c), Resources(0, c.p.requested);
    RunsBy(c);
    SameKills(c.sem, c1.sem, c.pool, units);
    TakePays(Local(c1.sem, c1.pool), units);
  }

  /** A queued read that is let in runs or waits to be run; if it waited for memory it is granted what
      it asked for, otherwise it is charged its base units, unless that is refused or it is shed. */
  lemma AdmitOutcome(l: Local, shed: bool)
    requires Inv(l) && Allowed(l, Admit(shed))
    ensures var l', i := Apply(l, Admit(shed)), l.sem.lists.Front();
            && |l'.sem.permits| == |l.sem.permits|
            && LetIn(l, l', l.sem.permits[i], i, shed)
  {
    hide Inv, PermitOk, AdmitFront, CanAdmitRead, LetIn;
    var c := Load(l, l.sem.lists.Front());
    FrontWaits(l);
    WaitingPermit(c.p);
    if c.p.state.WaitingForMemory? {
      GrantedFromQueue(l, c, shed);
    } else if shed {
      ShedFromQueue(l, c);
    } else {
      AdmittedFromQueue(l, c);
    }
  }

  lemma GrantedFromQueue(l: Local, c: Ctx, shed: bool)
    requires Inv(l) && c.i < |l.sem.permits| && c == Load(l, c.i)
    requires c.p.state.WaitingForMemory? && c.p.hook == MemoryQueue
    ensures var l' := Store(AdmitFront(c, shed)); |l'.sem.permits| == |l.sem.permits| && LetIn(l, l', c.p, c.i, shed)
  {
    hide Inv, DequeuePermit, Kills, OnGrantedMemory, ParkReady, Refused, Max, Min;
    var units := Resources(0, c.p.requested);
    var c1 := DequeuePermit(c);
    var c2 := c1.(sem := c1.sem.(blessed := Some(c.i)));
    KillsMeans(l, units);
    SameKills(l.sem, c2.sem, l.pool, units);
    DequeueReady(c);
    GrantPays(c2);
    ParkedLast(OnGrantedMemory(c2).c);
  }

  lemma ShedFromQueue(l: Local, c: Ctx)
    requires c.i < |l.sem.permits| && c == Load(l, c.i) && c.p.state.WaitingForAdmission? && !c.p.baseConsumed
    ensures var l' := Store(AdmitFront(c, true)); |l'.sem.permits| == |l.sem.permits| && LetIn(l, l', c.p, c.i, true)
  {
    hide DequeuePermit, Serve, ParkReady, Refused, Paid;
  }

  lemma AdmittedFromQueue(l: Local, c: Ctx)
    requires Inv(l) && c.i < |l.sem.permits| && c == Load(l, c.i)
    requires c.p.state.WaitingForAdmission? && c.p.hook == AdmissionQueue && !c.p.baseConsumed
    ensures var l' := Store(AdmitFront(c, false)); |l'.sem.permits| == |l.sem.permits| && LetIn(l, l', c.p, c.i, false)
  {
    hide Inv, DequeuePermit, Kills, OnAdmission, ParkReady, Refused, Max, Min;
    var c1 := DequeuePermit(c);
    KillsMeans(l, c.p.base);
    SameKills(l.sem, c1.sem, l.pool, c.p.base);
    DequeueReady(c);
    AdmissionPays(c1);
    ParkedLast(OnAdmission(c1).c);
  }

  lemma WaitingPermit(p: Permit)
    requires PermitOk(p) && p.live && (p.state.WaitingForAdmission? || p.state.WaitingForMemory?)
    ensures p.hook == QueueOf(p.state) && (p.state.WaitingForAdmission? ==> !p.baseConsumed)
  {}

  lemma DequeueReady(c: Ctx)
    requires c.p.hook == AdmissionQueue || c.p.hook == MemoryQueue
    ensures DequeuePermit(c).sem.lists.ready == c.sem.lists.ready
  {}

  lemma ParkedLast(c: Ctx)
    requires c.p.hook == PermitList
    ensures ParkReady(c).sem.lists.ready == c.sem.lists.ready + [c.i]
    ensures !c.p.state.WaitingForMemory? ==> ParkReady(c).p.requested == c.p.requested
  {
    hide Unmarked;
  }

  // ---------- running ----------

  /** The first of the reads waiting to be run is run. */
  lemma RunOutcome(l: Local)
    requires Inv(l) && Allowed(l, Run)
    ensures var l', i := Apply(l, Run), l.sem.lists.ready[0];
            && |l'.sem.permits| == |l.sem.permits| && l'.sem.lists.ready == l.sem.lists.ready[1..]
            && l'.sem.permits[i].state == RunState(l.sem.permits[i]) && l'.sem.permits[i].hook == PermitList
            && !l'.sem.permits[i].hasFunc && l'.sem.permits[i].charged == l.sem.permits[i].charged
            && SameAccounts(l, l')
  {
    hide Inv, OnActive;
    var c := Load(l, l.sem.lists.ready[0]);
    ReadyHook(l, l.sem.lists.ready[0]);
    RunsBy(DequeuePermit(c));
  }

  /** A read handed to the semaphore to be run waits for that, if there is room. */
  lemma RunReadyOutcome(l: Local, i: nat)
    requires Inv(l) && Allowed(l, RunReady(i))
    ensures var l', p := Apply(l, RunReady(i)), l.sem.permits[i];
            && |l'.sem.permits| == |l.sem.permits| && SameAccounts(l, l')
            && l'.sem.permits[i].hasFunc && l'.sem.permits[i].charged == p.charged
            && if Room(l.sem) then
                 l'.sem.permits[i].state == WaitingForExecution && l'.sem.lists.ready == l.sem.lists.ready + [i]
               else l'.sem.permits[i].state == p.state && l'.sem.lists == l.sem.lists
  {
    hide Inv, WithReadyPermit;
    var c := Load(l, i);
    WaitersCounted(l);
    Parks(c.(p := c.p.(hasFunc := true)));
    StaysToBeRun(c.(p := c.p.(hasFunc := true)));
  }

  lemma StaysToBeRun(c: Ctx)
    ensures WithReadyPermit(c).p.hasFunc == c.p.hasFunc
  {
    hide ParkReady;
  }

  /** The permit with one guard more or less. */
  function Guarded(p: Permit, g: Guard): Permit {
    match g
    case NeedCpuOn => p.(needCpuBranches := p.needCpuBranches + 1)
    case NeedCpuOff => p.(needCpuBranches := p.needCpuBranches - 1)
    case AwaitsOn => p.(awaitsBranches := p.awaitsBranches + 1)
    case AwaitsOff => p.(awaitsBranches := p.awaitsBranches - 1)
  }

  /** What a guard may change about the permit, and how. */
  predicate Follows(p: Permit, p': Permit) {
    && p' == p.(state := p'.state, needCpu := p'.needCpu, awaits := p'.awaits)
    && p'.state == if p.state.Running() then RunState(p) else p.state
  }

  /** Guards are counted, and decide the state of a permit that runs. */
  lemma GuardOutcome(l: Local, i: nat, g: Guard)
    requires Inv(l) && Allowed(l, SetGuard(i, g))
    ensures var l' := Apply(l, SetGuard(i, g));
            && |l'.sem.permits| == |l.sem.permits| && SameAccounts(l, l') && l'.sem.lists == l.sem.lists
            && Follows(Guarded(l.sem.permits[i], g), l'.sem.permits[i])
  {
    hide Inv, Mark, Follows;
    Begins(l, i);
    MarkFollows(Load(l, i), g);
  }

  predicate FollowsHere(c: Ctx, g: Guard, c': Ctx) {
    && c'.i == c.i && c'.sem.permits == c.sem.permits && c'.sem.lists == c.sem.lists
    && SameAccounts(Local(c.sem, c.pool), Local(c'.sem, c'.pool))
    && Follows(Guarded(c.p, g), c'.p)
  }

  lemma MarkFollows(c: Ctx, g: Guard)
    requires PermitOk(c.p) && c.p.live && GuardHeld(c.p, g)
    ensures FollowsHere(c, g, Mark(c, g))
  {
    hide FollowsHere, MarkNeedCpu, MarkNotNeedCpu, MarkAwaits, MarkNotAwaits;
    match g
    case NeedCpuOn => NeedCpuOnFollows(c);
    case NeedCpuOff => NeedCpuOffFollows(c);
    case AwaitsOn => AwaitsOnFollows(c);
    case AwaitsOff => AwaitsOffFollows(c);
  }

  lemma NeedCpuOnFollows(c: Ctx)
    requires PermitOk(c.p) && c.p.live
    ensures FollowsHere(c, NeedCpuOn, MarkNeedCpu(c))
  {
    hide NeedCpuNow, AwaitNow;
  }

  lemma NeedCpuOffFollows(c: Ctx)
    requires PermitOk(c.p) && c.p.live && c.p.needCpuBranches > 0
    ensures FollowsHere(c, NeedCpuOff, MarkNotNeedCpu(c))
  {
    hide OnNotNeedCpu, OnNotAwaits;
  }

  lemma AwaitsOnFollows(c: Ctx)
    requires PermitOk(c.p) && c.p.live
    ensures FollowsHere(c, AwaitsOn, MarkAwaits(c))
  {
    hide AwaitNow;
  }

  lemma AwaitsOffFollows(c: Ctx)
    requires PermitOk(c.p) && c.p.live && c.p.awaitsBranches > 0
    ensures FollowsHere(c, AwaitsOff, MarkNotAwaits(c))
  {
    hide OnNotAwaits;
  }

  // ---------- memory ----------

  /** The memory asked for is charged with what was asked for before, unless that is refused. */
  predicate Granted(l: Local, l': Local, p: Permit, p': Permit, memory: nat) {
    && p'.requested == 0 && p'.state == p.state && l'.sem.lists == l.sem.lists
    && var units := Resources(0, p.requested + memory);
       if Refused(l, units.memory) then p'.charged == p.charged && SameAccounts(l, l')
       else p'.charged == p.charged.Plus(units) && Paid(l, l', units)
  }

  /** Above the serialize limit. */
  predicate Contended(l: Local, l': Local, p: Permit, p': Permit, i: nat, memory: nat) {
    if l.sem.blessed.None? || l.sem.blessed == Some(i) then Granted(l, l', p, p', memory) && l'.sem.blessed == Some(i)
    else PutOff(l, l', p, p', i, memory)
  }

  /** The permit queues while there is room; the amount is recorded in any case. */
  predicate PutOff(l: Local, l': Local, p: Permit, p': Permit, i: nat, memory: nat) {
    && p'.requested == p.requested + memory && p'.charged == p.charged && SameAccounts(l, l')
    && l'.sem.blessed == l.sem.blessed
    && if Room(l.sem) then p'.state == WaitingForMemory && l'.sem.lists.memory == l.sem.lists.memory + [i]
       else p'.state == p.state && l'.sem.lists == l.sem.lists
  }

  /** A request for memory. */
  predicate RequestedMemory(l: Local, l': Local, p: Permit, i: nat, memory: nat)
    requires i < |l'.sem.permits|
  {
    var p' := l'.sem.permits[i];
    if p.state.WaitingForMemory? then
      && p' == p.(requested := p.requested + memory) && SameAccounts(l, l') && l'.sem.lists == l.sem.lists
    else if l.sem.available.memory > 0 || !Reaches(l, l.sem.config.serializeLimitMultiplier, memory) then
      && Granted(l, l', p, p', memory) && l'.sem.blessed == l.sem.blessed
    else Contended(l, l', p, p', i, memory)
  }

  lemma DirectGrantPays(c: Ctx)
    requires !c.p.state.WaitingForMemory?
    ensures var c', units := OnGrantedMemory(c).c, Resources(0, c.p.requested);
            && c'.p.state == c.p.state && c'.p.requested == 0 && c'.sem.lists == c.sem.lists
            && c'.i == c.i && c'.sem.permits == c.sem.permits && c'.sem.blessed == c.sem.blessed
            && if Kills(c.sem, c.pool, units) then
                 c'.p.charged == c.p.charged && SameAccounts(Local(c.sem, c.pool), Local(c'.sem, c'.pool))
               else
                 && c'.p.charged == c.p.charged.Plus(units)
                 && Paid(Local(c.sem, c.pool), Local(c'.sem, c'.pool), units)
  {
    hide Kills, Take;
    var units := Resources(0, c.p.requested);
    TakePays(Local(c.sem, c.pool), units);
  }

  /** Below the serialize limit memory is granted at once; above it only to the blessed permit, and the
      others queue while there is room. */
  lemma RequestOutcome(l: Local, i: nat, memory: nat)
    requires Inv(l) && Allowed(l, Request(i, memory))
    ensures var l' := Apply(l, Request(i, memory));
            && |l'.sem.permits| == |l.sem.permits|
            && RequestedMemory(l, l', l.sem.permits[i], i, memory)
  {
    hide Inv, PermitOk, RequestMemory, RequestedMemory;
    Begins(l, i);
    OutsidePermit(l.sem.permits[i]);
    RequestedHere(l, Load(l, i), memory);
  }

  lemma RequestedHere(l: Local, c: Ctx, memory: nat)
    requires Inv(l) && c.i < |l.sem.permits| && c == Load(l, c.i)
    requires c.p.state.WaitingForMemory? || c.p.hook == PermitList
    ensures var l' := Store(RequestMemory(c, memory));
            |l'.sem.permits| == |l.sem.permits| && RequestedMemory(l, l', c.p, c.i, memory)
  {
    hide Inv, OnGrantedMemory, Contend, LimitOf, Exposure, Reaches, Granted, Contended, Room;
    var c0 := c.(p := c.p.(requested := c.p.requested + memory));
    LimitMeans(l, l.sem.config.serializeLimitMultiplier, memory);
    if !c.p.state.WaitingForMemory? {
      GrantedAtOnce(l, c0, memory);
      GrantedIfBlessed(l, c0, memory);
    }
  }

  lemma GrantedAtOnce(l: Local, c: Ctx, memory: nat)
    requires Inv(l) && c.i < |l.sem.permits| && c.pool == l.pool && c.sem == l.sem.(blessed := c.sem.blessed)
    requires c.p == l.sem.permits[c.i].(requested := l.sem.permits[c.i].requested + memory)
    requires !c.p.state.WaitingForMemory?
    ensures var l' := Store(OnGrantedMemory(c).c);
            && |l'.sem.permits| == |l.sem.permits| && l'.sem.blessed == c.sem.blessed
            && Granted(l, l', l.sem.permits[c.i], l'.sem.permits[c.i], memory)
  {
    hide Inv, OnGrantedMemory, Kills, Refused, Max, Min;
    var units := Resources(0, c.p.requested);
    KillsMeans(l, units);
    SameKills(l.sem, c.sem, l.pool, units);
    DirectGrantPays(c);
  }

  lemma GrantedIfBlessed(l: Local, c: Ctx, memory: nat)
    requires Inv(l) && c.i < |l.sem.permits| && c.pool == l.pool && c.sem == l.sem && c.p.hook == PermitList
    requires c.p == l.sem.permits[c.i].(requested := l.sem.permits[c.i].requested + memory)
    requires !c.p.state.WaitingForMemory?
    ensures var l', p := Store(Contend(c)), l.sem.permits[c.i];
            |l'.sem.permits| == |l.sem.permits| && Contended(l, l', p, l'.sem.permits[c.i], c.i, memory)
  {
    hide Inv, OnGrantedMemory, EnqueueWaiter, Granted, PutOff, Store;
    var c1 := if c.sem.blessed.None? then c.(sem := c.sem.(blessed := Some(c.i))) else c;
    GrantedAtOnce(l, c1, memory);
    QueuedIfNot(l, c, memory);
  }

  lemma QueuedIfNot(l: Local, c: Ctx, memory: nat)
    requires Inv(l) && c.i < |l.sem.permits| && c.pool == l.pool && c.sem == l.sem && c.p.hook == PermitList
    requires c.p == l.sem.permits[c.i].(requested := l.sem.permits[c.i].requested + memory)
    requires !c.p.state.WaitingForMemory?
    ensures var l', p := Store(EnqueueWaiter(c, WaitingForMemory)), l.sem.permits[c.i];
            |l'.sem.permits| == |l.sem.permits| && PutOff(l, l', p, l'.sem.permits[c.i], c.i, memory)
  {
    hide Inv, EnqueueWaiter;
    WaitersCounted(l);
    Queues(c, WaitingForMemory);
    QueuedRequest(c);
  }

  lemma OutsidePermit(p: Permit)
    requires PermitOk(p) && p.live && (p.state.Running() || p.state in {WaitingForMemory, PreemptiveAborted})
    ensures !p.state.WaitingForMemory? ==> p.hook == PermitList
  {}

  lemma QueuedRequest(c: Ctx)
    requires !c.p.state.WaitingForMemory?
    ensures EnqueueWaiter(c, WaitingForMemory).p.requested == c.p.requested
    ensures EnqueueWaiter(c, WaitingForMemory).sem.blessed == c.sem.blessed
  {
    hide Unmarked, MoveTo;
  }

  // ---------- inactive reads ----------

  /** CPU slots in use besides the permit's. */
  function SlotsBesides(ps: seq<Permit>, i: nat): int {
    |NeedingCpu(ps) - {i}| - |Awaiting(ps) - {i}|
  }

  /** A read that becomes inactive is evicted at once: units are overdrawn, or nothing but units is
      missing to the read that is next to be admitted. */
  predicate EvictedAtOnce(l: Local, i: nat) {
    || l.sem.available.memory < 0
    || l.sem.available.count < 0
    || (&& (forall j | j in l.sem.lists.memory :: j == i)
        && l.sem.lists.admission != [] && l.sem.lists.admission[0] < |l.sem.permits|
        && l.sem.lists.ready == []
        && SlotsBesides(l.sem.permits, i) < l.sem.config.cpuConcurrency
        && !Affordable(l, l.sem.permits[l.sem.lists.admission[0]].base))
  }

  /** The permit is evicted and its base units are returned. */
  predicate LeavesEvicted(l: Local, l': Local, p: Permit, p': Permit) {
    && p'.state == Evicted && p'.hook == PermitList
    && p'.charged == p.charged.Minus(p.Owed()) && !p'.baseConsumed && Returned(l, l', p.Owed())
  }

  /** A read that is registered as inactive. */
  predicate Registered(l: Local, l': Local, p: Permit, i: nat)
    requires i < |l'.sem.permits|
  {
    var p' := l'.sem.permits[i];
    if p.aborted then
      && p' == p.(charged := p.charged.Minus(p.Owed()), baseConsumed := false)
      && Returned(l, l', p.Owed()) && l'.sem.lists == l.sem.lists && l'.sem.blessed == l.sem.blessed
    else
      && p'.requested == (if p.state.WaitingForMemory? then 0 else p.requested)
      && l'.sem.blessed == (if l.sem.blessed == Some(i) then None else l.sem.blessed)
      && if EvictedAtOnce(l, i) then LeavesEvicted(l, l', p, p')
         else
           && p'.state == Inactive && l'.sem.lists.inactive == l.sem.lists.inactive + [i]
           && p'.charged == p.charged && p'.baseConsumed == p.baseConsumed && SameAccounts(l, l')
  }

  /** The read is parked with all it holds, or evicted. */
  lemma RegisterOutcome(l: Local, i: nat)
    requires Inv(l) && Allowed(l, Register(i))
    ensures var l' := Apply(l, Register(i));
            |l'.sem.permits| == |l.sem.permits| && Registered(l, l', l.sem.permits[i], i)
  {
    hide Inv, PermitOk, RegisterInactiveRead, Registered, EvictedAtOnce;
    ApplyKeeps(l, Register(i));
    Begins(l, i);
    Sounds(Apply(l, Register(i)));
    PermitBase(l.sem.permits[i]);
    var c := Load(l, i);
    if c.p.aborted {
      RegisteredAborted(l, c);
    } else {
      Placed(c.p);
      EvictionMeans(l, i);
      if EvictedAtOnce(l, i) {
        RegisteredEvicted(l, c);
      } else {
        RegisteredParked(l, c);
      }
    }
  }

  lemma RegisteredAborted(l: Local, c: Ctx)
    requires c.i < |l.sem.permits| && c == Load(l, c.i) && c.p.aborted
    requires c.p.base.NonNegative() && 0 <= c.sem.borrowed && !c.pool.fault
    requires var c' := RegisterInactiveRead(c); !c'.sem.fault && !c'.pool.fault
    ensures var l' := Store(RegisterInactiveRead(c));
            |l'.sem.permits| == |l.sem.permits| && Registered(l, l', c.p, c.i)
  {
    hide ReleaseBase, Retire, Max, Min;
    ReleaseReturns(c);
  }

  lemma Placed(p: Permit)
    requires PermitOk(p) && p.live
    ensures p.hook == QueueOf(p.state)
  {}

  lemma RegisteredEvicted(l: Local, c: Ctx)
    requires c.i < |l.sem.permits| && c == Load(l, c.i) && !c.p.aborted
    requires c.p.state in {Active, ActiveNeedCpu, WaitingForMemory} && c.p.hook == QueueOf(c.p.state)
    requires c.p.base.NonNegative() && 0 <= c.sem.borrowed && !c.pool.fault
    requires var c' := RegisterInactiveRead(c); !c'.sem.fault && !c'.pool.fault
    requires ShouldEvictInactiveRead(Retire(c)) && EvictedAtOnce(l, c.i)
    ensures var l' := Store(RegisterInactiveRead(c));
            |l'.sem.permits| == |l.sem.permits| && Registered(l, l', c.p, c.i)
  {
    hide ReleaseBase, Retire, ShouldEvictInactiveRead, EvictedAtOnce, Max, Min;
    RetireKeepsRest(c);
    ReleaseReturns(SetState(Check(Retire(c), Retire(c).p.state.Inactive?), Evicted));
  }

  lemma RegisteredParked(l: Local, c: Ctx)
    requires c.i < |l.sem.permits| && c == Load(l, c.i) && !c.p.aborted
    requires c.p.state in {Active, ActiveNeedCpu, WaitingForMemory} && c.p.hook == QueueOf(c.p.state)
    requires !ShouldEvictInactiveRead(Retire(c)) && !EvictedAtOnce(l, c.i)
    ensures var l' := Store(RegisterInactiveRead(c));
            |l'.sem.permits| == |l.sem.permits| && Registered(l, l', c.p, c.i)
  {
    hide ReleaseBase, Retire, ShouldEvictInactiveRead, EvictedAtOnce, Paid, Returned;
    RetireKeepsRest(c);
  }

  lemma RetireKeepsRest(c: Ctx)
    requires c.p.hook == QueueOf(c.p.state) && c.p.state in {Active, ActiveNeedCpu, WaitingForMemory}
    ensures var r := Retire(c);
            && r.p.hook == PermitList && r.sem.lists.inactive == c.sem.lists.inactive
            && r.p.requested == (if c.p.state.WaitingForMemory? then 0 else c.p.requested)
            && r.sem.blessed == (if c.sem.blessed == Some(c.i) then None else c.sem.blessed)
  {
    hide Unmarked;
  }

  // ---------- when a read that becomes inactive is evicted ----------

  lemma RetireSlots(c: Ctx)
    ensures var r := Retire(c);
            && r.sem.needCpuPermits == c.sem.needCpuPermits - (if c.p.needCpu then 1 else 0)
            && r.sem.awaitsPermits == c.sem.awaitsPermits - (if c.p.awaits then 1 else 0)
  {
    hide DequeuePermit, OnNotNeedCpu, OnNotAwaits;
  }

  lemma RetireLists(c: Ctx)
    requires c.p.hook == QueueOf(c.p.state) && c.p.state in {Active, ActiveNeedCpu, WaitingForMemory}
    ensures var ls, ls' := c.sem.lists, Retire(c).sem.lists;
            && ls'.admission == ls.admission && ls'.ready == ls.ready
            && ls'.memory == if c.p.state.WaitingForMemory? then Without(ls.memory, c.i) else ls.memory
  {
    hide Unmarked;
  }

  lemma SlotsBesidesMean(l: Local, i: nat)
    requires Inv(l) && Live(l.sem, i)
    ensures var p := l.sem.permits[i];
            SlotsBesides(l.sem.permits, i) ==
              l.sem.needCpuPermits - (if p.needCpu then 1 else 0) - (l.sem.awaitsPermits - (if p.awaits then 1 else 0))
  {
    hide Listed, InOrder, Tally;
    MarksAreStates(l.sem.permits);
    assert PermitOk(l.sem.permits[i]);
    assert i in NeedingCpu(l.sem.permits) <==> l.sem.permits[i].needCpu;
    assert i in Awaiting(l.sem.permits) <==> l.sem.permits[i].awaits;
  }

  /** Nobody else waits for memory exactly if the memory queue is empty once the permit is off it. */
  lemma OthersForMemory(l: Local, i: nat)
    requires Inv(l) && Live(l.sem, i)
    ensures var q := l.sem.lists.memory;
            var rest := if l.sem.permits[i].state.WaitingForMemory? then Without(q, i) else q;
            && (rest == [] <==> forall j | j in l.sem.lists.memory :: j == i)
            && (rest != [] ==>
                  && rest[0] != i && rest[0] < |l.sem.permits|
                  && l.sem.permits[rest[0]].state.WaitingForMemory?)
  {
    hide InOrder, Tally, PermitOk;
    var q := l.sem.lists.At(MemoryQueue);
    MemoryWaiters(l, i);
    if l.sem.permits[i].state.WaitingForMemory? {
      WithoutMembers(q, i);
      var rest := Without(q, i);
      assert rest != [] ==> rest[0] in rest && rest[0] in q;
    } else {
      assert q != [] ==> q[0] in q;
    }
  }

  lemma MemoryWaiters(l: Local, i: nat)
    requires Inv(l) && Live(l.sem, i)
    ensures var q := l.sem.lists.At(MemoryQueue);
            && NoDuplicates(q) && (l.sem.permits[i].state.WaitingForMemory? <==> i in q)
            && forall j | j in q :: j < |l.sem.permits| && l.sem.permits[j].state.WaitingForMemory?
  {
    hide InOrder, Tally;
    var q := l.sem.lists.At(MemoryQueue);
    assert PermitOk(l.sem.permits[i]);
    assert Linked(l.sem.permits[i], MemoryQueue) <==> i in q;
    forall j | j in q ensures j < |l.sem.permits| && l.sem.permits[j].state.WaitingForMemory? {
      assert Linked(l.sem.permits[j], MemoryQueue) && PermitOk(l.sem.permits[j]);
    }
  }

  lemma EvictionMeans(l: Local, i: nat)
    requires Inv(l) && Live(l.sem, i) && l.sem.permits[i].state in {Active, ActiveNeedCpu, WaitingForMemory}
    requires l.sem.permits[i].hook == QueueOf(l.sem.permits[i].state)
    ensures ShouldEvictInactiveRead(Retire(Load(l, i))) <==> EvictedAtOnce(l, i)
  {
    hide Inv, Retire, LimitOf, Exposure, SlotsBesides, Affordable;
    var c := Load(l, i);
    var r := Retire(c);
    RetireSlots(c);
    RetireLists(c);
    SlotsBesidesMean(l, i);
    OthersForMemory(l, i);
    if l.sem.available.memory >= 0 && r.sem.lists.memory == [] && l.sem.lists.admission != [] {
      QueuedHere(l, l.sem.lists.admission[0]);
      UnitsMean(l, l.sem.permits[l.sem.lists.admission[0]].base);
      SameUnits(l.sem, r.sem, l.pool, l.sem.permits[l.sem.lists.admission[0]].base);
    }
  }

  lemma SameUnits(s: Sem, s': Sem, pool: Pool, units: Resources)
    requires s'.available == s.available && s'.initial == s.initial
    ensures HasAvailableUnits(s', pool, units) == HasAvailableUnits(s, pool, units)
  {}

  // ---------- the end of being inactive ----------

  /** A read that is unregistered runs again, with all it holds. */
  lemma UnregisterOutcome(l: Local, i: nat)
    requires Inv(l) && Allowed(l, Unregister(i))
    ensures var l', p := Apply(l, Unregister(i)), l.sem.permits[i];
            && |l'.sem.permits| == |l.sem.permits| && SameAccounts(l, l')
            && l'.sem.permits[i].state == RunState(p) && l'.sem.permits[i].hook == PermitList
            && l'.sem.permits[i].charged == p.charged && l'.sem.permits[i].baseConsumed == p.baseConsumed
  {
    hide Inv, DequeuePermit, OnActive;
    var c1 := DequeuePermit(Load(l, i));
    RunsBy(Check(c1, c1.p.state.Inactive?));
  }

  lemma EvictReturns(l: Local, c: Ctx)
    requires c.i < |l.sem.permits| && c.sem == l.sem && c.pool == l.pool
    requires c.p.base.NonNegative() && 0 <= c.sem.borrowed && !c.pool.fault
    requires !Evict(c).sem.fault && !Evict(c).pool.fault
    ensures var c' := Evict(c);
            && c'.i == c.i && c'.sem.permits == c.sem.permits && c'.p.aborted == c.p.aborted
            && LeavesEvicted(l, Local(c'.sem, c'.pool), c.p, c'.p)
  {
    hide DequeuePermit, ReleaseBase, Max, Min;
    var c1 := DequeuePermit(c);
    ReleaseReturns(SetState(Check(c1, c1.p.state.Inactive?), Evicted));
  }

  /** An evicted read gives its base units back. */
  lemma EvictOutcome(l: Local, i: nat)
    requires Inv(l) && Allowed(l, EvictOne(i))
    ensures var l', p := Apply(l, EvictOne(i)), l.sem.permits[i];
            |l'.sem.permits| == |l.sem.permits| && LeavesEvicted(l, l', p, l'.sem.permits[i])
  {
    hide Inv, PermitOk, Evict, Max, Min;
    ApplyKeeps(l, EvictOne(i));
    Begins(l, i);
    Sounds(Apply(l, EvictOne(i)));
    PermitBase(l.sem.permits[i]);
    EvictReturns(l, Load(l, i));
  }

  // ---------- timeouts and the end ----------

  /** A timeout. */
  predicate TimedOut(l: Local, l': Local, p: Permit, i: nat)
    requires i < |l'.sem.permits|
  {
    var p' := l'.sem.permits[i];
    && p'.aborted && p'.hook == PermitList && !p'.needCpu && !p'.awaits
    && if p.state.Inactive? then LeavesEvicted(l, l', p, p')
       else
         && p'.state == PreemptiveAborted && p'.charged == p.charged && p'.baseConsumed == p.baseConsumed
         && p'.requested == (if p.state.WaitingForMemory? then 0 else p.requested)
         && SameAccounts(l, l')
  }

  /** A timed out permit waits no longer and has no CPU slot; an inactive read is evicted, any other
      read is aborted and keeps what it is charged. */
  lemma ExpireOutcome(l: Local, i: nat)
    requires Inv(l) && Allowed(l, Expire(i))
    ensures var l' := Apply(l, Expire(i));
            && |l'.sem.permits| == |l.sem.permits| && TimedOut(l, l', l.sem.permits[i], i)
            && l'.sem.blessed == l.sem.blessed
  {
    hide Inv, PermitOk, OnTimeout, TimedOut;
    ApplyKeeps(l, Expire(i));
    Begins(l, i);
    Sounds(Apply(l, Expire(i)));
    PermitBase(l.sem.permits[i]);
    TimesOut(l, Load(l, i));
  }

  lemma TimesOut(l: Local, c: Ctx)
    requires c.i < |l.sem.permits| && c == Load(l, c.i) && PermitOk(c.p) && c.p.live
    requires c.p.base.NonNegative() && 0 <= c.sem.borrowed && !c.pool.fault
    requires !OnTimeout(c).sem.fault && !OnTimeout(c).pool.fault
    ensures var l' := Store(OnTimeout(c));
            && |l'.sem.permits| == |l.sem.permits| && TimedOut(l, l', c.p, c.i)
            && l'.sem.blessed == l.sem.blessed
  {
    hide DequeuePermit, Evict, Unmarked, Max, Min;
    var c0 := c.(p := c.p.(aborted := true));
    if c.p.state.Inactive? {
      EvictReturns(l, c0);
      EvictedMarks(c0);
    }
  }

  lemma EvictedMarks(c: Ctx)
    ensures Evict(c).p.needCpu == c.p.needCpu && Evict(c).p.awaits == c.p.awaits
    ensures Evict(c).sem.blessed == c.sem.blessed
  {
    hide DequeuePermit, ReleaseBase;
  }

  /** A permit that ends is charged nothing any more, is not blessed and is on no list. */
  lemma EndOutcome(l: Local, op: Op, i: nat)
    requires Inv(l) && Allowed(l, op) && (op == End(i) || op == DropHandle(i))
    ensures var l' := Apply(l, op);
            && |l'.sem.permits| == |l.sem.permits|
            && !l'.sem.permits[i].live && l'.sem.permits[i].charged == NOTHING
            && l'.sem.blessed == (if l.sem.blessed == Some(i) then None else l.sem.blessed)
            && forall q: Queue :: i !in l'.sem.lists.At(q)
  {
    hide Inv, PermitOk, Destroy, DequeuePermit;
    ApplyKeeps(l, op);
    Begins(l, i);
    var c := if op.End? then Load(l, i) else DequeuePermit(Load(l, i));
    Buries(c);
    var l' := Apply(l, op);
    GoneFrom(l', i);
  }

  lemma Buries(c: Ctx)
    ensures var c' := Destroy(c);
            && c'.i == c.i && c'.sem.permits == c.sem.permits && !c'.p.live
            && c'.sem.blessed == if c.sem.blessed == Some(c.i) then None else c.sem.blessed
  {
    hide ReleaseBase, Signal, OnNotNeedCpu, OnNotAwaits, Unlink;
  }

  lemma GoneFrom(l: Local, i: nat)
    requires Inv(l) && i < |l.sem.permits| && !l.sem.permits[i].live
    ensures l.sem.permits[i].charged == NOTHING && forall q: Queue :: i !in l.sem.lists.At(q)
  {
    hide InOrder, Tally;
    assert PermitOk(l.sem.permits[i]);
    forall q: Queue ensures i !in l.sem.lists.At(q) {
      assert i in l.sem.lists.At(q) ==> Linked(l.sem.permits[i], q);
    }
  }
}
