/** Every step inside an operation keeps what `Sound` says. */
module SemaphoreSteps {
  import opened Wrappers
  import opened ReaderPermit
  import opened Semaphore
  import opened SemaphoreInvariant

  // ---------- lists ----------

  /** Unlinking cuts one element out of the list. */
  lemma {:induction false} WithoutCuts(l: seq<nat>, i: nat) returns (k: nat)
    requires i in l
    ensures k < |l| && l[k] == i && Without(l, i) == l[..k] + l[k + 1..]
  {
    if l[0] == i {
      k := 0;
    } else {
      var k' := WithoutCuts(l[1..], i);
      k := k' + 1;
      assert [l[0]] + (l[1..][..k'] + l[1..][k' + 1..]) == l[..k] + l[k + 1..];
    }
  }

  lemma WithoutMembers(l: seq<nat>, i: nat)
    requires NoDuplicates(l) && i in l
    ensures NoDuplicates(Without(l, i))
    ensures |Without(l, i)| == |l| - 1
    ensures forall j :: j in Without(l, i) <==> j in l && j != i
  {
    var k := WithoutCuts(l, i);
    var w := Without(l, i);
    forall j ensures j in w <==> j in l && j != i {
      if j in l && j != i {
        var a :| 0 <= a < |l| && l[a] == j;
        assert w[if a < k then a else a - 1] == j;
      }
    }
  }

  /** Unlinking from the admission queue leaves the others in order. */
  lemma WithoutKeepsOrder(queue: seq<nat>, ps: seq<Permit>, requests: nat, i: nat)
    requires InOrder(queue, ps, requests) && i in queue
    ensures InOrder(Without(queue, i), ps, requests)
  {
    var k := WithoutCuts(queue, i);
  }

  /** The lists after unlinking permit `i`: all as before, without `i`. */
  ghost predicate Unlinked(ls: Lists, ls': Lists, i: nat) {
    forall q: Queue ::
      && NoDuplicates(ls'.At(q))
      && (forall j :: j in ls'.At(q) <==> j in ls.At(q) && j != i)
  }

  lemma CutUnlinks(ls: Lists, ps: seq<Permit>, i: nat)
    requires Listed(ls, ps) && i < |ps| && ps[i].live
    ensures Unlinked(ls, Cut(ls, ps[i].hook, i), i)
    ensures |Cut(ls, ps[i].hook, i).At(ps[i].hook)| == |ls.At(ps[i].hook)| - 1
  {
    var h := ps[i].hook;
    var ls' := Cut(ls, h, i);
    assert Linked(ps[i], h);
    WithoutMembers(ls.At(h), i);
    forall q: Queue
      ensures NoDuplicates(ls'.At(q))
      ensures forall j :: j in ls'.At(q) <==> j in ls.At(q) && j != i
    {
      if q == h {
        assert ls'.At(q) == Without(ls.At(h), i);
      } else {
        assert ls'.At(q) == ls.At(q);
        assert i in ls.At(q) ==> Linked(ps[i], q);
      }
    }
  }

  lemma MoveListed(ls: Lists, ps: seq<Permit>, i: nat, q: Queue)
    requires Listed(ls, ps) && i < |ps| && ps[i].live && q != ps[i].hook
    ensures Listed(Append(Cut(ls, ps[i].hook, i), q, i), ps[i := ps[i].(hook := q)])
  {
    hide Cut, Append;
    var ls', ps' := Append(Cut(ls, ps[i].hook, i), q, i), ps[i := ps[i].(hook := q)];
    forall k: Queue
      ensures NoDuplicates(ls'.At(k))
      ensures forall j | j in ls'.At(k) :: j < |ps'| && Linked(ps'[j], k)
      ensures forall j: nat | j < |ps'| && Linked(ps'[j], k) :: j in ls'.At(k)
    {
      MovedQueue(ls, ps, i, q, k);
      assert forall j | j in ls.At(k) :: j < |ps| && Linked(ps[j], k);
      assert forall j: nat | j < |ps| && Linked(ps[j], k) :: j in ls.At(k);
    }
  }

  lemma MovedQueue(ls: Lists, ps: seq<Permit>, i: nat, q: Queue, k: Queue)
    requires Listed(ls, ps) && i < |ps| && ps[i].live && q != ps[i].hook
    ensures var l' := Append(Cut(ls, ps[i].hook, i), q, i).At(k);
            NoDuplicates(l') && forall j :: j in l' <==> (j in ls.At(k) && j != i) || (j == i && k == q)
  {
    hide Cut, Listed;
    var cut := Cut(ls, ps[i].hook, i);
    CutUnlinks(ls, ps, i);
    AppendAt(cut, q, i, k);
    if k == q {
      AddedLast(cut.At(k), i);
    }
  }

  lemma AppendAt(ls: Lists, q: Queue, i: nat, k: Queue)
    ensures Append(ls, q, i).At(k) == if k == q then ls.At(k) + [i] else ls.At(k)
  {}

  lemma AddedLast(m: seq<nat>, i: nat)
    requires NoDuplicates(m) && i !in m
    ensures NoDuplicates(m + [i]) && forall j :: j in m + [i] <==> j in m || j == i
  {
    assert forall a | 0 <= a < |m| :: m[a] in m;
  }

  // ---------- steps on a context ----------

  /** Only the semaphore's accounts and this permit's own fields differ. */
  predicate SamePlaces(c: Ctx, c': Ctx) {
    && c'.i == c.i
    && c'.sem.permits == c.sem.permits
    && c'.sem.lists == c.sem.lists
    && c'.sem.requests == c.sem.requests
    && c'.p.hook == c.p.hook
    && c'.p.live == c.p.live
    && c'.p.arrival == c.p.arrival
  }

  /** Changes that leave every permit in its place keep the lists. */
  lemma PlacesKept(c: Ctx, c': Ctx)
    requires Placed(c) && SamePlaces(c, c')
    ensures Placed(c')
  {
    var ps, ps' := c.sem.permits[c.i := c.p], c'.sem.permits[c'.i := c'.p];
    assert forall j: nat, q | j < |ps| :: Linked(ps'[j], q) <==> Linked(ps[j], q);
  }

  /** The permit may join the queue for admission only as its latest arrival. */
  predicate Latest(c: Ctx) {
    && c.p.arrival < c.sem.requests
    && (forall j | j in c.sem.lists.admission ::
          j != c.i && j < |c.sem.permits| && c.sem.permits[j].arrival < c.p.arrival)
  }

  lemma MoveToPlaces(c: Ctx, q: Queue)
    requires Placed(c) && c.p.live && q != c.p.hook
    requires q.AdmissionQueue? ==> Latest(c)
    ensures Placed(MoveTo(c, q))
    ensures |MoveTo(c, q).sem.lists.At(c.p.hook)| == |c.sem.lists.At(c.p.hook)| - 1
  {
    var ps := c.sem.permits[c.i := c.p];
    MoveListed(c.sem.lists, ps, c.i, q);
    CutUnlinks(c.sem.lists, ps, c.i);
    assert ps[c.i := c.p.(hook := q)] == c.sem.permits[c.i := c.p.(hook := q)];
    MoveToInOrder(c.sem.lists, ps, c.sem.requests, c.i, q);
  }

  lemma JoinInOrder(queue: seq<nat>, ps: seq<Permit>, requests: nat, i: nat)
    requires InOrder(queue, ps, requests) && i < |ps| && ps[i].arrival < requests
    requires forall j | j in queue :: j < |ps| && ps[j].arrival < ps[i].arrival
    ensures InOrder(queue + [i], ps, requests)
  {
    assert forall a | 0 <= a < |queue| :: queue[a] in queue;
  }

  lemma SameArrivals(queue: seq<nat>, ps: seq<Permit>, ps': seq<Permit>, requests: nat)
    requires InOrder(queue, ps, requests) && |ps'| == |ps|
    requires forall j: nat | j < |ps| :: ps'[j].arrival == ps[j].arrival
    ensures InOrder(queue, ps', requests)
  {}

  lemma MoveToInOrder(ls: Lists, ps: seq<Permit>, requests: nat, i: nat, q: Queue)
    requires Listed(ls, ps) && InOrder(ls.admission, ps, requests)
    requires i < |ps| && ps[i].live && q != ps[i].hook
    requires q.AdmissionQueue? ==>
               && ps[i].arrival < requests
               && (forall j | j in ls.admission :: j < |ps| && ps[j].arrival < ps[i].arrival)
    ensures InOrder(Append(Cut(ls, ps[i].hook, i), q, i).admission, ps[i := ps[i].(hook := q)], requests)
  {
    var queue := Append(Cut(ls, ps[i].hook, i), q, i).admission;
    if ps[i].hook.AdmissionQueue? {
      assert Linked(ps[i], AdmissionQueue);
      assert i in ls.At(AdmissionQueue);
      WithoutKeepsOrder(ls.admission, ps, requests, i);
    } else if q.AdmissionQueue? {
      JoinInOrder(ls.admission, ps, requests, i);
    }
    SameArrivals(queue, ps, ps[i := ps[i].(hook := q)], requests);
  }

  lemma MoveToKeeps(c: Ctx, q: Queue)
    requires Sound(c) && q != c.p.hook
    requires q.AdmissionQueue? ==> Latest(c)
    ensures var c' := MoveTo(c, q);
            && Sound(c')
            && c'.sem.lists == Append(Cut(c.sem.lists, c.p.hook, c.i), q, c.i)
            && |c'.sem.lists.At(c.p.hook)| == |c.sem.lists.At(c.p.hook)| - 1
  {
    MoveToPlaces(c, q);
  }

  lemma OnActiveAccounts(c: Ctx)
    requires Accounted(c) && Covered(c) && !c.p.needCpu
    ensures var c' := OnActive(c);
            && Accounted(c')
            && c'.p.state == (if c.p.needCpuBranches == 0 then Active
                              else if c.p.awaitsBranches == 0 then ActiveNeedCpu else ActiveAwait)
            && c'.p.needCpu == !c'.p.state.Active?
            && c'.p.awaits == c'.p.state.ActiveAwait?
  {}

  lemma OnActiveKeeps(c: Ctx)
    requires Sound(c) && !c.p.needCpu
    ensures var c' := OnActive(c);
            && Sound(c')
            && c'.p.state == (if c.p.needCpuBranches == 0 then Active
                              else if c.p.awaitsBranches == 0 then ActiveNeedCpu else ActiveAwait)
            && c'.p.needCpu == !c'.p.state.Active?
            && c'.p.awaits == c'.p.state.ActiveAwait?
  {
    OthersCover(c);
    OnActiveAccounts(c);
    PlacesKept(c, OnActive(c));
  }

  lemma OnNotAwaitsAccounts(c: Ctx)
    requires Accounted(c) && Covered(c) && c.p.awaits
    ensures var c' := OnNotAwaits(c);
            && Accounted(c') && Covered(c')
            && c' == c.(sem := c.sem.(awaitsPermits := c.sem.awaitsPermits - 1), p := c.p.(awaits := false))
  {}

  lemma OnNotNeedCpuAccounts(c: Ctx)
    requires Accounted(c) && Covered(c) && c.p.needCpu && !c.p.awaits
    ensures var c' := OnNotNeedCpu(c);
            && Accounted(c') && Covered(c')
            && c' == c.(sem := c.sem.(needCpuPermits := c.sem.needCpuPermits - 1), p := c.p.(needCpu := false))
  {}

  lemma OnInactiveAccounts(c: Ctx, st: State)
    requires Accounted(c) && Covered(c)
    ensures var c' := OnInactive(c, st);
            && Accounted(c')
            && c'.p.requested == (if c.p.state.WaitingForMemory? then 0 else c.p.requested)
  {
    var c2 := SetState(if c.p.state.WaitingForMemory? then c.(p := c.p.(requested := 0)) else c, st);
    assert Accounted(c2) && Covered(c2);
    if c2.p.awaits {
      OnNotAwaitsAccounts(c2);
    }
    var c3 := if c2.p.awaits then OnNotAwaits(c2) else c2;
    if c3.p.needCpu {
      OnNotNeedCpuAccounts(c3);
    }
  }

  lemma OnInactiveKeeps(c: Ctx, st: State)
    requires Sound(c)
    ensures var c' := OnInactive(c, st);
            && Sound(c')
            && c'.p.requested == (if c.p.state.WaitingForMemory? then 0 else c.p.requested)
  {
    OthersCover(c);
    OnInactiveAccounts(c, st);
    PlacesKept(c, OnInactive(c, st));
  }

  lemma ConsumeKeeps(c: Ctx, r: Resources)
    requires Sound(c) && r.NonNegative()
    ensures var o := Consume(c, r);
            && Sound(o.c)
            && Conserved(Local(c.sem, c.pool), Local(o.c.sem, o.c.pool))
  {
    if !Kills(c.sem, c.pool, r) {
      TakeKeeps(Local(c.sem, c.pool), r, Current(c));
      PlacesKept(c, Consume(c, r).c);
    }
  }

  lemma SignalKeeps(c: Ctx, r: Resources)
    requires Sound(c) && r.NonNegative() && c.p.Owed().Plus(r).AtMost(c.p.charged)
    ensures var c' := Signal(c, r);
            && Sound(c')
            && Conserved(Local(c.sem, c.pool), Local(c'.sem, c'.pool))
  {
    OthersCover(c);
    GiveKeeps(Local(c.sem, c.pool), r, Current(c));
    PlacesKept(c, Signal(c, r));
  }

  lemma ReleaseBaseKeeps(c: Ctx)
    requires Sound(c)
    ensures var c' := ReleaseBase(c);
            && Sound(c')
            && Conserved(Local(c.sem, c.pool), Local(c'.sem, c'.pool))
  {
    if c.p.baseConsumed {
      var c1 := c.(p := c.p.(baseConsumed := false));
      PlacesKept(c, c1);
      SignalKeeps(c1, c.p.base);
    }
  }

  /** A change to fields that no total, list or order depends on. */
  lemma SoundTouch(c: Ctx, c': Ctx)
    requires Sound(c) && SamePlaces(c, c') && Sane(c'.p)
    requires c'.pool == c.pool && TotalsOf(c'.p) == TotalsOf(c.p)
    requires c'.sem == c.sem.(waiters := c'.sem.waiters, inactiveReads := c'.sem.inactiveReads,
                              blessed := c'.sem.blessed)
    ensures Sound(c')
  {
    PlacesKept(c, c');
  }

  // ---------- entering and leaving an operation ----------

  lemma Enter(l: Local, i: nat)
    requires Inv(l) && i < |l.sem.permits| && l.sem.permits[i].live
    ensures Sound(Load(l, i))
    ensures Current(Load(l, i)) == Tally(l.sem.permits)
  {
    assert PermitOk(l.sem.permits[i]);
    assert l.sem.permits[i := l.sem.permits[i]] == l.sem.permits;
  }

  lemma Leave(c: Ctx)
    requires Sound(c) && PermitOk(c.p) && Counted(c.sem) && BlessedOk(Store(c).sem)
    ensures Inv(Store(c))
  {
    TallyUpdate(c.sem.permits, c.i, c.p);
  }
}
