/** Every operation of the semaphore keeps the invariant and conserves the pool's memory. */
module SemaphoreOperations {
  import opened Wrappers
  import opened ReaderPermit
  import opened Semaphore
  import opened SemaphoreInvariant
  import opened SemaphoreSteps

  /** Sound, and the waiting and inactive permits are counted. */
  ghost predicate Tidy(c: Ctx) {
    Sound(c) && Counted(c.sem)
  }

  /** What an operation on permit `i` starts from. */
  lemma Begin(l: Local, i: nat)
    requires Inv(l) && i < |l.sem.permits| && l.sem.permits[i].live
    ensures var c := Load(l, i); Tidy(c) && PermitOk(c.p) && Sane(c.p) && BlessedOk(l.sem)
  {
    Enter(l, i);
    assert PermitOk(l.sem.permits[i]);
  }

  /** What is in a list is a live permit whose state belongs there. */
  lemma BeginAt(l: Local, q: Queue)
    requires Inv(l) && l.sem.lists.At(q) != []
    ensures var i := l.sem.lists.At(q)[0];
            && i < |l.sem.permits|
            && var c := Load(l, i);
            Tidy(c) && PermitOk(c.p) && Sane(c.p) && BlessedOk(l.sem) && c.p.hook == q
  {
    var i := l.sem.lists.At(q)[0];
    assert i in l.sem.lists.At(q);
    assert Linked(l.sem.permits[i], q);
    Begin(l, i);
  }

  lemma DequeueKeeps(c: Ctx)
    requires Tidy(c) && c.p.hook == QueueOf(c.p.state) && c.p.hook != PermitList
    ensures var c' := DequeuePermit(c);
            && Tidy(c')
            && c'.sem.lists == Append(Cut(c.sem.lists, c.p.hook, c.i), PermitList, c.i)
  {
    MoveToKeeps(c, PermitList);
    var moved := MoveTo(c, PermitList);
    assert |c.sem.lists.At(c.p.hook)| > 0;
    SoundTouch(moved, DequeuePermit(c));
  }

  lemma ParkReadyKeeps(c: Ctx)
    requires Tidy(c) && c.p.hook == PermitList
    ensures var c' := ParkReady(c);
            && Tidy(c')
            && c'.p.requested == (if c.p.state.WaitingForMemory? then 0 else c.p.requested)
  {
    MoveToKeeps(c, ReadyList);
    var moved := MoveTo(c, ReadyList);
    OnInactiveKeeps(moved, WaitingForExecution);
    SoundTouch(OnInactive(moved, WaitingForExecution), ParkReady(c));
  }

  lemma EnqueueKeeps(c: Ctx, st: State)
    requires Tidy(c) && c.p.hook == PermitList
    requires st.WaitingForAdmission? || st.WaitingForMemory?
    requires st.WaitingForAdmission? ==> Latest(c)
    requires c.sem.waiters < c.sem.config.maxQueueLength
    ensures var c' := EnqueueWaiter(c, st);
            && Tidy(c')
            && c'.p.requested == (if c.p.state.WaitingForMemory? then 0 else c.p.requested)
  {
    OnInactiveKeeps(c, st);
    var waiting := OnInactive(c, st);
    MoveToKeeps(waiting, QueueOf(st));
    SoundTouch(MoveTo(waiting, QueueOf(st)), EnqueueWaiter(c, st));
  }

  lemma OnAdmissionKeeps(c: Ctx)
    requires Tidy(c) && !c.p.needCpu && !c.p.baseConsumed && !c.p.state.ActiveAwait?
    requires c.p.hook == PermitList
    ensures var o := OnAdmission(c);
            && Tidy(o.c)
            && Sane(o.c.p) && PermitOk(o.c.p) && o.c.p.state.Running() && o.c.p.hook == PermitList
            && Conserved(Local(c.sem, c.pool), Local(o.c.sem, o.c.pool))
  {
    hide Sound, OnActive, Consume;
    OnActiveKeeps(c);
    var c1 := OnActive(c);
    ConsumeKeeps(c1, c1.p.base);
    var o := Consume(c1, c1.p.base);
    if o.ok {
      SoundTouch(o.c, OnAdmission(c).c);
    }
  }

  lemma OnGrantedMemoryKeeps(c: Ctx)
    requires Tidy(c) && (c.p.state.WaitingForMemory? ==> !c.p.needCpu && c.p.hook == PermitList)
    requires !c.p.state.WaitingForMemory? ==> PermitOk(c.p)
    ensures var o := OnGrantedMemory(c);
            && Tidy(o.c)
            && Sane(o.c.p) && PermitOk(o.c.p)
            && (c.p.state.WaitingForMemory? ==> o.c.p.state.Running())
            && Conserved(Local(c.sem, c.pool), Local(o.c.sem, o.c.pool))
  {
    hide Sound, OnActive, Consume;
    if c.p.state.WaitingForMemory? {
      OnActiveKeeps(c);
    }
    var c1 := if c.p.state.WaitingForMemory? then OnActive(c) else c;
    var c2 := c1.(p := c1.p.(requested := 0));
    SoundTouch(c1, c2);
    ConsumeKeeps(c2, Resources(0, c1.p.requested));
  }

  /** A permit taken off the wait list, about to be granted memory or admitted. */
  ghost predicate Dequeued(c: Ctx) {
    && Tidy(c) && Sane(c.p) && !c.p.needCpu && c.p.hook == PermitList && !c.p.state.ActiveAwait?
    && (!c.p.state.WaitingForMemory? ==> !c.p.baseConsumed)
  }

  lemma ServeKeeps(c: Ctx)
    requires Dequeued(c)
    ensures var o := Serve(c);
            && Tidy(o.c) && Sane(o.c.p) && PermitOk(o.c.p) && o.c.p.state.Running() && o.c.p.hook == PermitList
            && Conserved(Local(c.sem, c.pool), Local(o.c.sem, o.c.pool))
  {
    hide Sound, OnAdmission, OnGrantedMemory;
    if c.p.state.WaitingForMemory? {
      var blessed := c.(sem := c.sem.(blessed := Some(c.i)));
      SoundTouch(c, blessed);
      OnGrantedMemoryKeeps(blessed);
    } else {
      OnAdmissionKeeps(c);
    }
  }

  // ---------- whole operations ----------

  /** The permit is back in order and the blessed permit is still entitled to be so. */
  lemma Finish(l: Local, c: Ctx)
    requires Tidy(c) && PermitOk(c.p)
    requires Conserved(l, Local(c.sem, c.pool))
    requires BlessedOk(l.sem) && c.sem.permits == l.sem.permits && c.i < |l.sem.permits|
    requires c.sem.blessed == l.sem.blessed || c.sem.blessed == None || c.sem.blessed == Some(c.i)
    requires c.sem.blessed == Some(c.i) ==> MayBeBlessed(c.p)
    ensures Inv(Store(c)) && Conserved(l, Store(c))
  {
    Leave(c);
  }

  lemma DoWaitAdmissionKeeps(l: Local, i: nat)
    requires Inv(l) && i < |l.sem.permits| && l.sem.permits[i].live
    requires l.sem.permits[i].state.Active? || l.sem.permits[i].state.Evicted?
    requires !l.sem.permits[i].needCpu && !l.sem.permits[i].baseConsumed && l.sem.blessed != Some(i)
    ensures var l' := Store(DoWaitAdmission(Load(l, i)));
            Inv(l') && Conserved(l, l')
  {
    hide Inv, Tidy, EnterOrQueue, EnqueueWaiter, OnAdmission, WithReadyPermit, CanAdmitRead, Store;
    Begin(l, i);
    var c := Load(l, i);
    var c0 := c.(p := c.p.(arrival := c.sem.requests), sem := c.sem.(requests := c.sem.requests + 1));
    ArriveKeeps(c);
    if CanAdmitRead(c0.sem, c0.pool, c0.p).decision != Yes || !c0.sem.lists.NoWaiter() {
      EnqueueForAdmission(l, c0);
      Queues(c0);
    } else {
      EnterKeeps(l, c0);
      Enters(c0);
    }
  }

  lemma Queues(c: Ctx)
    requires CanAdmitRead(c.sem, c.pool, c.p).decision != Yes || !c.sem.lists.NoWaiter()
    ensures EnterOrQueue(c) == EnqueueWaiter(c, WaitingForAdmission)
  {
    hide CanAdmitRead, EnqueueWaiter, OnAdmission, WithReadyPermit;
  }

  lemma Enters(c: Ctx)
    requires CanAdmitRead(c.sem, c.pool, c.p).decision == Yes && c.sem.lists.NoWaiter()
    ensures var o := OnAdmission(c);
            EnterOrQueue(c) == if o.ok && o.c.p.hasFunc then WithReadyPermit(o.c) else o.c
  {
    hide CanAdmitRead, EnqueueWaiter, OnAdmission, WithReadyPermit;
  }

  /** A permit that asks for admission and may be queued or admitted. */
  ghost predicate Asking(l: Local, c: Ctx) {
    && Tidy(c) && PermitOk(c.p) && Sane(c.p) && c.p.hook == PermitList && !c.p.needCpu && !c.p.baseConsumed
    && (c.p.state.Active? || c.p.state.Evicted?)
    && Conserved(l, Local(c.sem, c.pool)) && BlessedOk(l.sem) && c.i < |l.sem.permits|
    && c.sem.permits == l.sem.permits && c.sem.blessed == l.sem.blessed && c.sem.blessed != Some(c.i)
  }

  lemma EnqueueForAdmission(l: Local, c: Ctx)
    requires Asking(l, c) && Latest(c)
    ensures var l' := Store(EnqueueWaiter(c, WaitingForAdmission));
            Inv(l') && Conserved(l, l')
  {
    hide Inv, Sound, OnInactive, MoveTo, Store;
    if c.sem.waiters < c.sem.config.maxQueueLength {
      EnqueueKeeps(c, WaitingForAdmission);
    }
    Finish(l, EnqueueWaiter(c, WaitingForAdmission));
  }

  lemma EnterKeeps(l: Local, c: Ctx)
    requires Asking(l, c)
    ensures var o := OnAdmission(c);
            var l' := Store(if o.ok && o.c.p.hasFunc then WithReadyPermit(o.c) else o.c);
            Inv(l') && Conserved(l, l')
  {
    hide Inv, Sound, OnAdmission, ParkReady, Store;
    OnAdmissionKeeps(c);
    var o := OnAdmission(c);
    if o.ok && o.c.p.hasFunc && o.c.sem.waiters < o.c.sem.config.maxQueueLength {
      ParkReadyKeeps(o.c);
    }
    Finish(l, if o.ok && o.c.p.hasFunc then WithReadyPermit(o.c) else o.c);
  }

  /** A permit that asks for admission takes the next arrival number. */
  lemma ArriveKeeps(c: Ctx)
    requires Tidy(c) && c.p.hook == PermitList
    ensures var c0 := c.(p := c.p.(arrival := c.sem.requests), sem := c.sem.(requests := c.sem.requests + 1));
            Tidy(c0) && Latest(c0)
  {
    hide Tally;
    var c0 := c.(p := c.p.(arrival := c.sem.requests), sem := c.sem.(requests := c.sem.requests + 1));
    var ps, ps0 := c.sem.permits[c.i := c.p], c0.sem.permits[c.i := c0.p];
    assert forall j: nat, q | j < |ps| :: Linked(ps0[j], q) <==> Linked(ps[j], q);
    assert c.i !in c.sem.lists.At(AdmissionQueue);
    assert forall a | 0 <= a < |c.sem.lists.admission| :: c.sem.lists.admission[a] in c.sem.lists.At(AdmissionQueue);
  }

  lemma AdmitFrontKeeps(l: Local, shed: bool)
    requires Inv(l) && !l.sem.lists.NoWaiter()
    ensures var i := l.sem.lists.Front();
            && i < |l.sem.permits|
            && var l' := Store(AdmitFront(Load(l, i), shed));
            Inv(l') && Conserved(l, l')
  {
    hide Inv, Sound, DequeuePermit, Serve, ParkReady, OnPreemptiveAborted, Store;
    var i := l.sem.lists.Front();
    BeginAt(l, if l.sem.lists.memory == [] then AdmissionQueue else MemoryQueue);
    var c := Load(l, i);
    DequeueKeeps(c);
    var c1 := DequeuePermit(c);
    if c1.p.state.WaitingForAdmission? && shed {
      ShedKeeps(l, c1);
    } else {
      ServeFrontKeeps(l, c1);
    }
  }

  /** What the front of the wait list is like once it is taken off. */
  ghost predicate TakenOff(l: Local, c: Ctx) {
    && Dequeued(c) && c.i < |l.sem.permits|
    && Conserved(l, Local(c.sem, c.pool)) && BlessedOk(l.sem)
    && c.sem.permits == l.sem.permits && c.sem.blessed == l.sem.blessed && c.sem.blessed != Some(c.i)
    && c.p.live && !c.p.awaits
  }

  lemma ShedKeeps(l: Local, c: Ctx)
    requires TakenOff(l, c) && c.p.state.WaitingForAdmission?
    ensures var l' := Store(OnPreemptiveAborted(c));
            Inv(l') && Conserved(l, l')
  {
    hide Inv, Sound, Store;
    SoundTouch(c, OnPreemptiveAborted(c));
    Finish(l, OnPreemptiveAborted(c));
  }

  lemma ServeFrontKeeps(l: Local, c: Ctx)
    requires TakenOff(l, c)
    ensures var o := Serve(c);
            var l' := Store(if o.ok && o.c.p.hasFunc then ParkReady(o.c) else o.c);
            Inv(l') && Conserved(l, l')
  {
    hide Inv, Sound, Serve, ParkReady, Store;
    ServeKeeps(c);
    var o := Serve(c);
    ServeTable(c);
    if o.ok && o.c.p.hasFunc {
      ParkReadyKeeps(o.c);
    }
    Finish(l, if o.ok && o.c.p.hasFunc then ParkReady(o.c) else o.c);
  }

  lemma ServeTable(c: Ctx)
    ensures var c' := Serve(c).c;
            && c'.i == c.i && c'.sem.permits == c.sem.permits && c'.p.live == c.p.live
            && (c'.sem.blessed == c.sem.blessed || c'.sem.blessed == Some(c.i))
  {
    hide OnActive, Kills, Take;
  }

  lemma ExecuteKeeps(l: Local)
    requires Inv(l) && l.sem.lists.ready != []
    ensures var i := l.sem.lists.ready[0];
            && i < |l.sem.permits|
            && var l' := Store(Execute(Load(l, i)));
            Inv(l') && Conserved(l, l')
  {
    hide Inv, Sound, DequeuePermit, OnActive, OnInactive, OnAdmission, OnGrantedMemory, ParkReady, OnEvicted,
      ReleaseBase, MoveTo, CanAdmitRead, Store;
    var i := l.sem.lists.ready[0];
    BeginAt(l, ReadyList);
    var c := Load(l, i);
    DequeueKeeps(c);
    var c1 := DequeuePermit(c);
    OnActiveKeeps(c1);
    SoundTouch(OnActive(c1), Execute(c));
    Finish(l, Execute(c));
  }

  lemma WithReadyPermitKeeps(l: Local, i: nat)
    requires Inv(l) && i < |l.sem.permits| && Linked(l.sem.permits[i], PermitList)
    ensures var c := Load(l, i);
            var l' := Store(WithReadyPermit(c.(p := c.p.(hasFunc := true))));
            Inv(l') && Conserved(l, l')
  {
    hide Inv, Sound, DequeuePermit, OnActive, OnInactive, OnAdmission, OnGrantedMemory, ParkReady, OnEvicted,
      ReleaseBase, MoveTo, CanAdmitRead, Store;
    Begin(l, i);
    var c := Load(l, i);
    var c1 := c.(p := c.p.(hasFunc := true));
    SoundTouch(c, c1);
    if c1.sem.waiters < c1.sem.config.maxQueueLength {
      ParkReadyKeeps(c1);
    }
    Finish(l, WithReadyPermit(c1));
  }

  lemma RequestMemoryKeeps(l: Local, i: nat, memory: nat)
    requires Inv(l) && i < |l.sem.permits| && l.sem.permits[i].live
    requires var st := l.sem.permits[i].state; st.Running() || st.WaitingForMemory? || st.PreemptiveAborted?
    ensures var l' := Store(RequestMemory(Load(l, i), memory));
            Inv(l') && Conserved(l, l')
  {
    hide Inv, Sound, Contend, SerializeLimit, Exposure, OnGrantedMemory, Store;
    Begin(l, i);
    var c := Load(l, i);
    var c0 := c.(p := c.p.(requested := c.p.requested + memory));
    RequestedMore(c, memory);
    var c' := RequestMemory(c, memory);
    if c0.p.state.WaitingForMemory? {
      Finish(l, c0);
    } else if c' == OnGrantedMemory(c0).c {
      GrantKeeps(l, c0);
    } else {
      ContendKeeps(l, c0);
    }
  }

  /** A permit that does not wait has asked for memory. */
  ghost predicate Requesting(l: Local, c: Ctx) {
    && Tidy(c) && PermitOk(c.p) && Sane(c.p) && c.p.hook == PermitList && c.i < |l.sem.permits| && c.p.live
    && Conserved(l, Local(c.sem, c.pool)) && BlessedOk(l.sem)
    && c.sem.permits == l.sem.permits && c.sem.blessed == l.sem.blessed
    && (c.p.state.Running() || c.p.state.PreemptiveAborted?)
  }

  lemma GrantKeeps(l: Local, c: Ctx)
    requires Requesting(l, c.(sem := c.sem.(blessed := l.sem.blessed)))
    requires c.sem.blessed == l.sem.blessed || c.sem.blessed == Some(c.i)
    ensures var l' := Store(OnGrantedMemory(c).c);
            Inv(l') && Conserved(l, l')
  {
    hide Inv, Sound, OnGrantedMemory, Store;
    SoundTouch(c.(sem := c.sem.(blessed := l.sem.blessed)), c);
    OnGrantedMemoryKeeps(c);
    GrantTable(c);
    Finish(l, OnGrantedMemory(c).c);
  }

  lemma GrantTable(c: Ctx)
    ensures var c' := OnGrantedMemory(c).c;
            && c'.i == c.i && c'.sem.permits == c.sem.permits && c'.p.live == c.p.live
            && c'.sem.blessed == c.sem.blessed
  {
    hide OnActive, Kills, Take;
  }

  lemma ContendKeeps(l: Local, c: Ctx)
    requires Requesting(l, c)
    ensures var l' := Store(Contend(c));
            Inv(l') && Conserved(l, l')
  {
    hide Inv, Tidy, OnGrantedMemory, EnqueueWaiter, Store;
    if c.sem.blessed.None? || c.sem.blessed == Some(c.i) {
      GrantKeeps(l, c.(sem := c.sem.(blessed := Some(c.i))));
    } else {
      EnqueueForMemory(l, c);
    }
  }

  lemma RequestedMore(c: Ctx, memory: nat)
    requires Tidy(c) && PermitOk(c.p) && Sane(c.p)
    ensures var c0 := c.(p := c.p.(requested := c.p.requested + memory));
            Tidy(c0) && PermitOk(c0.p) && Sane(c0.p)
  {
    SoundTouch(c, c.(p := c.p.(requested := c.p.requested + memory)));
  }

  lemma EnqueueForMemory(l: Local, c: Ctx)
    requires Tidy(c) && PermitOk(c.p) && Sane(c.p) && c.p.hook == PermitList && c.i < |l.sem.permits|
    requires Conserved(l, Local(c.sem, c.pool)) && BlessedOk(l.sem)
    requires c.sem.permits == l.sem.permits && c.sem.blessed == l.sem.blessed && c.sem.blessed != Some(c.i)
    requires c.p.state.Running() || c.p.state.PreemptiveAborted?
    ensures var l' := Store(EnqueueWaiter(c, WaitingForMemory));
            Inv(l') && Conserved(l, l')
  {
    hide Inv, Sound, OnInactive, MoveTo, Store;
    if c.sem.waiters < c.sem.config.maxQueueLength {
      EnqueueKeeps(c, WaitingForMemory);
    }
    Finish(l, EnqueueWaiter(c, WaitingForMemory));
  }

  lemma OnEvictedKeeps(c: Ctx)
    requires Tidy(c) && c.p.state.Inactive? && !c.p.needCpu && c.p.hook == PermitList
    ensures var c' := OnEvicted(c);
            && Tidy(c') && PermitOk(c'.p)
            && Conserved(Local(c.sem, c.pool), Local(c'.sem, c'.pool))
  {
    SoundTouch(c, SetState(c, Evicted));
    ReleaseBaseKeeps(SetState(c, Evicted));
  }

  lemma EvictKeeps(l: Local, i: nat)
    requires Inv(l) && i < |l.sem.permits| && Linked(l.sem.permits[i], InactiveReads)
    ensures var l' := Store(Evict(Load(l, i)));
            Inv(l') && Conserved(l, l')
  {
    hide Inv, Sound, DequeuePermit, OnActive, OnInactive, OnAdmission, OnGrantedMemory, ParkReady, OnEvicted,
      ReleaseBase, MoveTo, CanAdmitRead, Store;
    Begin(l, i);
    DequeueKeeps(Load(l, i));
    OnEvictedKeeps(DequeuePermit(Load(l, i)));
    Finish(l, Evict(Load(l, i)));
  }

  lemma UnregisterKeeps(l: Local, i: nat)
    requires Inv(l) && i < |l.sem.permits| && Linked(l.sem.permits[i], InactiveReads)
    ensures var l' := Store(UnregisterInactiveRead(Load(l, i)));
            Inv(l') && Conserved(l, l')
  {
    hide Inv, Sound, DequeuePermit, OnActive, OnInactive, OnAdmission, OnGrantedMemory, ParkReady, OnEvicted,
      ReleaseBase, MoveTo, CanAdmitRead, Store;
    Begin(l, i);
    var c := Load(l, i);
    DequeueKeeps(c);
    OnActiveKeeps(DequeuePermit(c));
    Finish(l, UnregisterInactiveRead(c));
  }

  lemma RegisterKeeps(l: Local, i: nat)
    requires Inv(l) && i < |l.sem.permits| && l.sem.permits[i].live
    requires l.sem.permits[i].aborted || l.sem.permits[i].state in {Active, ActiveNeedCpu, WaitingForMemory}
    ensures var l' := Store(RegisterInactiveRead(Load(l, i)));
            Inv(l') && Conserved(l, l')
  {
    hide Inv, Sound, Retire, OnEvicted, ReleaseBase, MoveTo, ShouldEvictInactiveRead, Store;
    Begin(l, i);
    var c := Load(l, i);
    if c.p.aborted {
      ReleaseBaseKeeps(c);
      Finish(l, RegisterInactiveRead(c));
    } else {
      RetireKeeps(c);
      SettleInactive(l, Retire(c));
    }
  }

  lemma RetireKeeps(c: Ctx)
    requires Tidy(c) && PermitOk(c.p) && Sane(c.p) && c.p.live
    requires c.p.state in {Active, ActiveNeedCpu, WaitingForMemory}
    ensures var c' := Retire(c);
            && Tidy(c') && Sane(c'.p) && c'.p.state.Inactive?
            && !c'.p.needCpu && !c'.p.awaits && c'.p.hook == PermitList
            && Conserved(Local(c.sem, c.pool), Local(c'.sem, c'.pool))
            && c'.sem.blessed != Some(c.i) && (c'.sem.blessed == c.sem.blessed || c'.sem.blessed == None)
  {
    hide Sound, Waitless, OnInactive;
    WaitlessKeeps(c);
    var c1 := Waitless(c);
    OnInactiveKeeps(c1, Inactive);
    SoundTouch(OnInactive(c1, Inactive), Unbless(OnInactive(c1, Inactive)));
  }

  lemma WaitlessKeeps(c: Ctx)
    requires Tidy(c) && PermitOk(c.p) && c.p.live && c.p.state in {Active, ActiveNeedCpu, WaitingForMemory}
    ensures Tidy(Waitless(c)) && Waitless(c).p == c.p.(hook := PermitList)
  {
    hide Sound, DequeuePermit;
    if c.p.state.WaitingForMemory? {
      DequeueKeeps(c);
    }
  }

  /** The read is parked as inactive, or evicted on the spot. */
  lemma SettleInactive(l: Local, c: Ctx)
    requires Tidy(c) && Sane(c.p) && c.p.state.Inactive? && !c.p.needCpu && !c.p.awaits && c.p.hook == PermitList
    requires Conserved(l, Local(c.sem, c.pool))
    requires BlessedOk(l.sem) && c.sem.permits == l.sem.permits && c.i < |l.sem.permits|
    requires c.sem.blessed == l.sem.blessed || c.sem.blessed == None
    requires c.sem.blessed != Some(c.i)
    ensures var parked := MoveTo(c, InactiveReads);
            var l' := Store(if ShouldEvictInactiveRead(c) then OnEvicted(c)
                            else parked.(sem := parked.sem.(inactiveReads := parked.sem.inactiveReads + 1)));
            Inv(l') && Conserved(l, l')
  {
    hide Inv, Sound, OnEvicted, CanAdmitRead, Store;
    if ShouldEvictInactiveRead(c) {
      OnEvictedKeeps(c);
      Finish(l, OnEvicted(c));
    } else {
      MoveToKeeps(c, InactiveReads);
      var parked := MoveTo(c, InactiveReads);
      var counted := parked.(sem := parked.sem.(inactiveReads := parked.sem.inactiveReads + 1));
      SoundTouch(parked, counted);
      Finish(l, counted);
    }
  }

  lemma OnTimeoutKeeps(l: Local, i: nat)
    requires Inv(l) && i < |l.sem.permits| && l.sem.permits[i].live
    ensures var l' := Store(OnTimeout(Load(l, i)));
            Inv(l') && Conserved(l, l')
  {
    hide Inv, Sound, DequeuePermit, OnInactive, OnEvicted, Store;
    Begin(l, i);
    var c := Load(l, i);
    var c0 := c.(p := c.p.(aborted := true));
    SoundTouch(c, c0);
    if c0.p.hook == PermitList {
      OnInactiveKeeps(c0, PreemptiveAborted);
      Finish(l, OnInactive(c0, PreemptiveAborted));
    } else {
      DequeueKeeps(c0);
      TimedOutWaiting(l, DequeuePermit(c0));
    }
  }

  lemma TimedOutWaiting(l: Local, c: Ctx)
    requires Tidy(c) && Sane(c.p) && c.p.hook == PermitList && !c.p.needCpu
    requires Conserved(l, Local(c.sem, c.pool)) && BlessedOk(l.sem)
    requires c.sem.permits == l.sem.permits && c.sem.blessed == l.sem.blessed && c.i < |l.sem.permits|
    requires c.p.state.Inactive? ==> c.sem.blessed != Some(c.i)
    ensures var l' := Store(if c.p.state.Inactive? then OnEvicted(c) else OnInactive(c, PreemptiveAborted));
            Inv(l') && Conserved(l, l')
  {
    hide Inv, Sound, OnInactive, OnEvicted, Store;
    if c.p.state.Inactive? {
      OnEvictedKeeps(c);
      Finish(l, OnEvicted(c));
    } else {
      OnInactiveKeeps(c, PreemptiveAborted);
      Finish(l, OnInactive(c, PreemptiveAborted));
    }
  }

  /** One need_cpu or awaits guard is created or destroyed. */
  datatype Guard = NeedCpuOn | NeedCpuOff | AwaitsOn | AwaitsOff

  function Mark(c: Ctx, g: Guard): Ctx {
    match g
    case NeedCpuOn => MarkNeedCpu(c)
    case NeedCpuOff => MarkNotNeedCpu(c)
    case AwaitsOn => MarkAwaits(c)
    case AwaitsOff => MarkNotAwaits(c)
  }

  /** A guard can only be destroyed if one exists. */
  predicate GuardHeld(p: Permit, g: Guard) {
    && (g.NeedCpuOff? ==> p.needCpuBranches > 0)
    && (g.AwaitsOff? ==> p.awaitsBranches > 0)
  }

  /** The outcome of a mark: accounts in order, everything in its place. */
  predicate Marked(c: Ctx, c': Ctx) {
    && Accounted(c') && PermitOk(c'.p)
    && SamePlaces(c, c') && Counted(c'.sem) == Counted(c.sem)
    && c'.pool == c.pool && c'.sem.borrowed == c.sem.borrowed && c'.sem.blessed == c.sem.blessed
    && MayBeBlessed(c'.p) == MayBeBlessed(c.p)
  }

  lemma MarkAccounts(c: Ctx, g: Guard)
    requires Accounted(c) && Covered(c) && PermitOk(c.p) && GuardHeld(c.p, g)
    ensures var c' := Mark(c, g);
            Marked(c, c')
  {
    match g
    case NeedCpuOn => NeedCpuAccounts(c);
    case AwaitsOn => AwaitsAccounts(c);
    case AwaitsOff => NotAwaitsAccounts(c);
    case NeedCpuOff => NotNeedCpuAccounts(c);
  }

  lemma NeedCpuAccounts(c: Ctx)
    requires Accounted(c) && Covered(c) && PermitOk(c.p)
    ensures var c' := MarkNeedCpu(c);
            Marked(c, c')
  {}

  lemma AwaitsAccounts(c: Ctx)
    requires Accounted(c) && Covered(c) && PermitOk(c.p)
    ensures var c' := MarkAwaits(c);
            Marked(c, c')
  {}

  lemma NotAwaitsAccounts(c: Ctx)
    requires Accounted(c) && Covered(c) && PermitOk(c.p) && c.p.awaitsBranches > 0
    ensures var c' := MarkNotAwaits(c);
            Marked(c, c')
  {
    var c1 := c.(p := c.p.(awaitsBranches := c.p.awaitsBranches - 1));
    if c1.p.awaits && c1.p.awaitsBranches == 0 {
      OnNotAwaitsAccounts(SetState(c1, ActiveNeedCpu));
    }
  }

  lemma NotNeedCpuAccounts(c: Ctx)
    requires Accounted(c) && Covered(c) && PermitOk(c.p) && c.p.needCpuBranches > 0
    ensures var c' := MarkNotNeedCpu(c);
            Marked(c, c')
  {
    hide StopNeedingCpu;
    var c1 := c.(p := c.p.(needCpuBranches := c.p.needCpuBranches - 1));
    if c1.p.needCpu && c1.p.needCpuBranches == 0 {
      StopNeedingCpuAccounts(c1);
    }
  }

  lemma StopNeedingCpuAccounts(c: Ctx)
    requires Accounted(c) && Covered(c) && c.p.needCpu
    ensures var c' := StopNeedingCpu(c);
            && Accounted(c')
            && c'.p == c.p.(state := Active, needCpu := false, awaits := false)
            && c' == c.(sem := c.sem.(needCpuPermits := c'.sem.needCpuPermits, awaitsPermits := c'.sem.awaitsPermits),
                        p := c'.p)
  {
    hide OnNotNeedCpu, OnNotAwaits;
    if c.p.awaits {
      OnNotAwaitsAccounts(c);
    }
    var c1 := if c.p.awaits then OnNotAwaits(c) else c;
    OnNotNeedCpuAccounts(SetState(c1, Active));
  }

  lemma MarkKeeps(l: Local, i: nat, g: Guard)
    requires Inv(l) && i < |l.sem.permits| && l.sem.permits[i].live && GuardHeld(l.sem.permits[i], g)
    ensures var l' := Store(Mark(Load(l, i), g));
            Inv(l') && Conserved(l, l')
  {
    hide Inv, Placed, Mark, Store;
    Begin(l, i);
    var c := Load(l, i);
    OthersCover(c);
    MarkAccounts(c, g);
    PlacesKept(c, Mark(c, g));
    Finish(l, Mark(c, g));
  }

  lemma ConsumeOpKeeps(l: Local, i: nat, r: Resources)
    requires Inv(l) && i < |l.sem.permits| && l.sem.permits[i].live && r.NonNegative()
    ensures var l' := Store(Consume(Load(l, i), r).c);
            Inv(l') && Conserved(l, l')
  {
    hide Inv, Sound, Consume, Store;
    Begin(l, i);
    ConsumeKeeps(Load(l, i), r);
    Finish(l, Consume(Load(l, i), r).c);
  }

  /** Holders return no more than they were charged beyond the base units. */
  lemma SignalOpKeeps(l: Local, i: nat, r: Resources)
    requires Inv(l) && i < |l.sem.permits| && l.sem.permits[i].live && r.NonNegative()
    requires l.sem.permits[i].Owed().Plus(r).AtMost(l.sem.permits[i].charged)
    ensures var l' := Store(Signal(Load(l, i), r));
            Inv(l') && Conserved(l, l')
  {
    hide Inv, Sound, Signal, Store;
    Begin(l, i);
    SignalKeeps(Load(l, i), r);
    Finish(l, Signal(Load(l, i), r));
  }

  lemma ReleaseBaseOpKeeps(l: Local, i: nat)
    requires Inv(l) && i < |l.sem.permits| && l.sem.permits[i].live
    ensures var l' := Store(ReleaseBase(Load(l, i)));
            Inv(l') && Conserved(l, l')
  {
    hide Inv, Sound, ReleaseBase, Store;
    Begin(l, i);
    ReleaseBaseKeeps(Load(l, i));
    Finish(l, ReleaseBase(Load(l, i)));
  }

  /** No guard is left. */
  predicate Unguarded(p: Permit) {
    p.needCpuBranches == 0 && p.awaitsBranches == 0
  }

  lemma DestroyTidy(l: Local, c: Ctx)
    requires Tidy(c) && Sane(c.p) && c.p.hook == PermitList && Unguarded(c.p) && !c.p.needCpu && !c.p.awaits
    requires Conserved(l, Local(c.sem, c.pool))
    requires BlessedOk(l.sem) && c.sem.permits == l.sem.permits && c.i < |l.sem.permits|
    requires c.sem.blessed == l.sem.blessed
    ensures Inv(Store(Destroy(c))) && Conserved(l, Store(Destroy(c)))
  {
    hide Sound, Inv, Destroy, Repaid, Listed, InOrder, Tally;
    RepaidKeeps(c);
    DestroyUnlinks(c);
    Buried(Repaid(c), Destroy(c));
  }

  lemma RepaidKeeps(c: Ctx)
    requires Tidy(c) && Sane(c.p)
    ensures var c' := Repaid(c);
            && Tidy(c')
            && Conserved(Local(c.sem, c.pool), Local(c'.sem, c'.pool))
            && c'.p == c.p.(charged := NOTHING, baseConsumed := false)
            && c'.i == c.i
            && c'.sem == c.sem.(available := c'.sem.available, borrowed := c'.sem.borrowed, leaks := c'.sem.leaks,
                                fault := c'.sem.fault)
            && c'.sem.leaks == c.sem.leaks + (if c.p.charged == c.p.Owed() then 0 else 1)
  {
    hide Tidy, Repaid, Conserved;
    RepaidChanges(c);
    RepaidTidy(c);
  }

  /** Which fields the destructor's payments change, and when they count as a leak. */
  lemma RepaidChanges(c: Ctx)
    requires Sane(c.p)
    ensures var c' := Repaid(c);
            && c'.p == c.p.(charged := NOTHING, baseConsumed := false)
            && c'.i == c.i
            && c'.sem == c.sem.(available := c'.sem.available, borrowed := c'.sem.borrowed, leaks := c'.sem.leaks,
                                fault := c'.sem.fault)
            && c'.sem.leaks == c.sem.leaks + (if c.p.charged == c.p.Owed() then 0 else 1)
  {
    hide ReleaseBase, Signal;
  }

  lemma RepaidTidy(c: Ctx)
    requires Tidy(c) && Sane(c.p)
    ensures Tidy(Repaid(c)) && Conserved(Local(c.sem, c.pool), Local(Repaid(c).sem, Repaid(c).pool))
  {
    hide Sound, ReleaseBase, Signal;
    ReleaseBaseKeeps(c);
    var c1 := ReleaseBase(c);
    if c1.p.charged.NonZero() {
      SoundLeak(c1);
      assert ReportLeak(c1).p.Owed().Plus(c1.p.charged) == c1.p.charged;
      SignalKeeps(ReportLeak(c1), c1.p.charged);
    }
  }

  lemma SoundLeak(c: Ctx)
    requires Sound(c)
    ensures Sound(ReportLeak(c))
  {
    PlacesKept(c, ReportLeak(c));
  }

  /** With no guard left, the destructor then only unlinks the permit. */
  lemma DestroyUnlinks(c: Ctx)
    requires Unguarded(c.p) && Repaid(c).i == c.i
    requires Repaid(c).p == c.p.(charged := NOTHING, baseConsumed := false)
    ensures var c1 := Repaid(c);
            var blessed := if c1.sem.blessed == Some(c.i) then None else c1.sem.blessed;
            Destroy(c) == c1.(sem := c1.sem.(lists := Cut(c1.sem.lists, c.p.hook, c.i), blessed := blessed),
                              p := c1.p.(live := false))
  {
    hide ReleaseBase, Signal;
  }

  lemma Buried(c: Ctx, c': Ctx)
    requires Tidy(c) && c.p.hook == PermitList && c.p.charged == NOTHING
    requires !c.p.needCpu && !c.p.awaits && !c.p.baseConsumed
    requires BlessedOk(c.sem)
    requires c' == c.(sem := c.sem.(lists := Cut(c.sem.lists, PermitList, c.i),
                                    blessed := if c.sem.blessed == Some(c.i) then None else c.sem.blessed),
                      p := c.p.(live := false))
    ensures Inv(Store(c'))
  {
    hide Listed, InOrder, Tally;
    var ps, ps' := c.sem.permits[c.i := c.p], c'.sem.permits[c.i := c'.p];
    CutUnlinks(c.sem.lists, ps, c.i);
    DeadUnlisted(c.sem.lists, ps, c.i, c'.p);
    assert ps' == ps[c.i := c'.p];
    TallyUpdate(c'.sem.permits, c'.i, c'.p);
    SameArrivals(c'.sem.lists.admission, ps, ps', c'.sem.requests);
  }

  lemma DeadUnlisted(ls: Lists, ps: seq<Permit>, i: nat, dead: Permit)
    requires Listed(ls, ps) && i < |ps| && Linked(ps[i], PermitList) && !dead.live
    ensures Listed(Cut(ls, PermitList, i), ps[i := dead])
  {
    var ls', ps' := Cut(ls, PermitList, i), ps[i := dead];
    CutUnlinks(ls, ps, i);
    forall q: Queue
      ensures NoDuplicates(ls'.At(q))
      ensures forall j | j in ls'.At(q) :: j < |ps'| && Linked(ps'[j], q)
      ensures forall j: nat | j < |ps'| && Linked(ps'[j], q) :: j in ls'.At(q)
    {
      assert forall j | j in ls'.At(q) :: j in ls.At(q) && j != i;
      assert forall j: nat | j < |ps| && Linked(ps[j], q) :: j in ls.At(q);
    }
  }

  lemma DestroyKeeps(l: Local, i: nat)
    requires Inv(l) && i < |l.sem.permits| && Linked(l.sem.permits[i], PermitList) && Unguarded(l.sem.permits[i])
    ensures var l' := Store(Destroy(Load(l, i)));
            Inv(l') && Conserved(l, l')
  {
    hide Inv, Sound, Destroy, Store;
    Begin(l, i);
    DestroyTidy(l, Load(l, i));
  }

  lemma AbandonKeeps(l: Local, i: nat)
    requires Inv(l) && i < |l.sem.permits| && Linked(l.sem.permits[i], InactiveReads) && Unguarded(l.sem.permits[i])
    ensures var l' := Store(Abandon(Load(l, i)));
            Inv(l') && Conserved(l, l')
  {
    hide Inv, Sound, Destroy, DequeuePermit, Store;
    Begin(l, i);
    DequeueKeeps(Load(l, i));
    DestroyTidy(l, DequeuePermit(Load(l, i)));
  }

  lemma FreshAppended(m: seq<nat>, n: nat)
    requires NoDuplicates(m) && forall j | j in m :: j < n
    ensures NoDuplicates(m + [n])
  {
    assert forall a | 0 <= a < |m| :: m[a] in m;
  }

  lemma NewListed(ls: Lists, ps: seq<Permit>, p: Permit)
    requires Listed(ls, ps) && Linked(p, PermitList)
    ensures Listed(Append(ls, PermitList, |ps|), ps + [p])
  {
    var ls', ps' := Append(ls, PermitList, |ps|), ps + [p];
    forall q: Queue
      ensures NoDuplicates(ls'.At(q))
      ensures forall j | j in ls'.At(q) :: j < |ps'| && Linked(ps'[j], q)
      ensures forall j: nat | j < |ps'| && Linked(ps'[j], q) :: j in ls'.At(q)
    {
      NewInQueue(ls, ps, p, q);
    }
  }

  lemma NewInQueue(ls: Lists, ps: seq<Permit>, p: Permit, q: Queue)
    requires Listed(ls, ps) && Linked(p, PermitList)
    ensures var l, ps' := Append(ls, PermitList, |ps|).At(q), ps + [p];
            && NoDuplicates(l)
            && (forall j | j in l :: j < |ps'| && Linked(ps'[j], q))
            && (forall j: nat | j < |ps'| && Linked(ps'[j], q) :: j in l)
  {
    var n, m, l := |ps|, ls.At(q), Append(ls, PermitList, |ps|).At(q);
    assert NoDuplicates(m) && (forall j | j in m :: j < n && Linked(ps[j], q));
    assert forall j: nat | j < n && Linked(ps[j], q) :: j in m;
    assert l == if q == PermitList then m + [n] else m;
    FreshAppended(m, n);
  }

  lemma NewInOrder(queue: seq<nat>, ps: seq<Permit>, p: Permit, requests: nat)
    requires InOrder(queue, ps, requests)
    ensures InOrder(queue, ps + [p], requests)
  {}

  lemma NewPermitOk(base: Resources, hasFunc: bool)
    requires base.NonNegative()
    ensures PermitOk(NewPermit(base, hasFunc))
    ensures TotalsOf(NewPermit(base, hasFunc)) == Totals(0, 0, 0, 0)
  {}

  lemma CreateKeeps(l: Local, base: Resources, hasFunc: bool)
    requires Inv(l) && base.NonNegative()
    ensures var l' := Create(l, base, hasFunc);
            Inv(l') && Conserved(l, l')
  {
    hide Listed, InOrder, Tally, PermitOk;
    var p := NewPermit(base, hasFunc);
    TallyAppend(l.sem.permits, p);
    NewListed(l.sem.lists, l.sem.permits, p);
    NewInOrder(l.sem.lists.admission, l.sem.permits, p, l.sem.requests);
    NewPermitOk(base, hasFunc);
  }

  lemma SetResourcesKeeps(l: Local, r: Resources, unreduced: nat)
    requires Inv(l) && 0 <= r.memory
    ensures var l' := l.(sem := SetResources(l.sem, r, unreduced));
            Inv(l') && Conserved(l, l')
  {}
}
