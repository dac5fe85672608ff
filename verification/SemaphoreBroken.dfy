/** `reader_concurrency_semaphore::broken`: the wait list is emptied, the permits keep their state. */
module SemaphoreBroken {
  import opened Wrappers
  import opened ReaderPermit
  import opened Semaphore
  import opened SemaphoreInvariant
  import opened SemaphoreSteps
  import opened SemaphoreOperations

  /** What the loop keeps: the lists hold the permits hooked into them and are counted, and whoever
      is still in the wait list is in the state that queued them. */
  ghost predicate Breaking(s: Sem) {
    && Listed(s.lists, s.permits)
    && Counted(s)
    && (forall j | j in s.lists.admission :: j < |s.permits| && s.permits[j].state.WaitingForAdmission?)
    && (forall j | j in s.lists.memory :: j < |s.permits| && s.permits[j].state.WaitingForMemory?)
  }

  /** The permit is taken off the wait list and nothing else about it changes. */
  function Dropped(p: Permit): Permit {
    if p.live && (p.hook.AdmissionQueue? || p.hook.MemoryQueue?) then p.(hook := PermitList) else p
  }

  /** The semaphore after one turn of the loop, which takes the front, memory queue first, to the
      end of the permit list. */
  function FrontDropped(s: Sem): Sem
    requires !s.lists.NoWaiter() && s.lists.Front() < |s.permits|
  {
    var i, ls := s.lists.Front(), s.lists;
    s.(permits := s.permits[i := s.permits[i].(hook := PermitList)],
       lists := ls.(memory := if ls.memory == [] then [] else ls.memory[1..],
                    admission := if ls.memory == [] then ls.admission[1..] else ls.admission,
                    others := ls.others + [i]),
       waiters := s.waiters - 1)
  }

  lemma FrontWaits(s: Sem)
    requires Breaking(s) && !s.lists.NoWaiter()
    ensures var i, ls := s.lists.Front(), s.lists;
            && i < |s.permits| && s.permits[i].live
            && s.permits[i].hook == (if ls.memory == [] then AdmissionQueue else MemoryQueue)
            && (s.permits[i].state.WaitingForAdmission? || s.permits[i].state.WaitingForMemory?)
            && s.waiters > 0
  {
    var q := if s.lists.memory == [] then AdmissionQueue else MemoryQueue;
    assert s.lists.Front() in s.lists.At(q);
    InQueue(s.lists, s.permits, q, s.lists.Front());
  }

  lemma DequeueFront(l: Local)
    requires Breaking(l.sem) && !l.sem.lists.NoWaiter()
    ensures var i := l.sem.lists.Front();
            && i < |l.sem.permits|
            && Store(DequeuePermit(Load(l, i))) == Local(FrontDropped(l.sem), l.pool)
  {
    hide Breaking, Without;
    FrontWaits(l.sem);
    FrontGoes(if l.sem.lists.memory == [] then l.sem.lists.admission else l.sem.lists.memory);
  }

  lemma BreakFront(l: Local)
    requires Breaking(l.sem) && !l.sem.lists.NoWaiter()
    ensures l.sem.lists.Front() < |l.sem.permits|
    ensures Breaking(FrontDropped(l.sem))
  {
    hide Listed, Without;
    FrontWaits(l.sem);
    var ls, i, s' := l.sem.lists, l.sem.lists.Front(), FrontDropped(l.sem);
    FrontGoes(if ls.memory == [] then ls.admission else ls.memory);
    MoveListed(ls, l.sem.permits, i, PermitList);
    assert s'.lists == Append(Cut(ls, l.sem.permits[i].hook, i), PermitList, i);
    assert forall j | j in s'.lists.admission :: j in ls.admission;
    assert forall j | j in s'.lists.memory :: j in ls.memory;
  }

  lemma FrontGoes(queue: seq<nat>)
    requires queue != []
    ensures Without(queue, queue[0]) == queue[1..]
  {}

  lemma InQueue(ls: Lists, ps: seq<Permit>, q: Queue, i: nat)
    requires Listed(ls, ps) && i in ls.At(q)
    ensures i < |ps| && Linked(ps[i], q)
  {}

  /** The loop of `broken`. */
  ghost function Broken(l: Local): (r: Local)
    requires Breaking(l.sem)
    ensures Breaking(r.sem)
    decreases |l.sem.lists.admission| + |l.sem.lists.memory|
  {
    if l.sem.lists.NoWaiter() then l
    else
      DequeueFront(l);
      BreakFront(l);
      Broken(Store(DequeuePermit(Load(l, l.sem.lists.Front()))))
  }

  /** The loop appends the memory queue and then the admission queue to the permit list, unhooks
      exactly their permits and leaves in `waiters` the number of reads that are ready to run. */
  lemma {:induction false} BrokenEmptiesTheWaitList(l: Local)
    requires Breaking(l.sem)
    ensures var r, ls := Broken(l), l.sem.lists;
            && r.pool == l.pool
            && r.sem == l.sem.(permits := r.sem.permits, waiters := |ls.ready|,
                               lists := Lists([], [], ls.ready, ls.inactive, ls.others + ls.memory + ls.admission))
            && |r.sem.permits| == |l.sem.permits|
            && (forall j | 0 <= j < |l.sem.permits| :: r.sem.permits[j] == Dropped(l.sem.permits[j]))
    decreases |l.sem.lists.admission| + |l.sem.lists.memory|
  {
    hide DequeuePermit, Breaking, Store;
    if l.sem.lists.NoWaiter() {
      NobodyDropped(l.sem);
      assert l.sem.lists.others + [] + [] == l.sem.lists.others;
    } else {
      DequeueFront(l);
      BreakFront(l);
      BrokenEmptiesTheWaitList(Local(FrontDropped(l.sem), l.pool));
      DroppedNext(l.sem);
    }
  }

  /** What one turn of the loop leaves for the others to do. */
  lemma DroppedNext(s: Sem)
    requires Breaking(s) && !s.lists.NoWaiter() && s.lists.Front() < |s.permits|
    ensures var s', ls := FrontDropped(s), s.lists;
            && s'.lists.ready == ls.ready && s'.lists.inactive == ls.inactive
            && s'.lists.others + s'.lists.memory + s'.lists.admission == ls.others + ls.memory + ls.admission
            && |s'.permits| == |s.permits|
            && (forall j | 0 <= j < |s.permits| :: Dropped(s'.permits[j]) == Dropped(s.permits[j]))
            && s' == s.(permits := s'.permits, waiters := s'.waiters, lists := s'.lists)
  {
    hide Breaking;
    FrontWaits(s);
    var ls, i := s.lists, s.lists.Front();
    if ls.memory == [] {
      assert ls.others + [i] + [] + ls.admission[1..] == ls.others + [] + ls.admission;
    } else {
      assert ls.others + [i] + ls.memory[1..] + ls.admission == ls.others + ls.memory + ls.admission;
    }
  }

  lemma NobodyDropped(s: Sem)
    requires Breaking(s) && s.lists.NoWaiter()
    ensures s.waiters == |s.lists.ready|
    ensures forall j | 0 <= j < |s.permits| :: Dropped(s.permits[j]) == s.permits[j]
  {
    assert s.lists.At(AdmissionQueue) == [] && s.lists.At(MemoryQueue) == [];
  }

  lemma InvBreaks(l: Local)
    requires Inv(l)
    ensures Breaking(l.sem)
  {
    hide Listed, InOrder, Tally, Balanced, BlessedOk;
    forall j | j in l.sem.lists.admission ensures j < |l.sem.permits| && l.sem.permits[j].state.WaitingForAdmission? {
      InQueue(l.sem.lists, l.sem.permits, AdmissionQueue, j);
      assert PermitOk(l.sem.permits[j]);
    }
    forall j | j in l.sem.lists.memory ensures j < |l.sem.permits| && l.sem.permits[j].state.WaitingForMemory? {
      InQueue(l.sem.lists, l.sem.permits, MemoryQueue, j);
      assert PermitOk(l.sem.permits[j]);
    }
  }

  /** Every live permit is hooked into the list its state calls for. */
  ghost predicate HooksFollowStates(s: Sem) {
    forall j: nat | j < |s.permits| && s.permits[j].live :: s.permits[j].hook == QueueOf(s.permits[j].state)
  }

  /** `broken` empties the wait list, counts correctly and keeps every list exact, but states and
      lists agree afterwards exactly if nobody was waiting. */
  lemma BrokenStrandsWaiters(l: Local)
    requires Inv(l)
    ensures Breaking(l.sem)
    ensures var s := Broken(l).sem;
            && s.lists.NoWaiter()
            && Listed(s.lists, s.permits) && Counted(s) && s.waiters == |s.lists.ready|
            && (HooksFollowStates(s) <==> l.sem.lists.NoWaiter())
            && (Inv(Broken(l)) <==> l.sem.lists.NoWaiter())
  {
    InvBreaks(l);
    BrokenEmptiesTheWaitList(l);
    if l.sem.lists.NoWaiter() {
      forall j: nat | j < |l.sem.permits| && l.sem.permits[j].live
        ensures l.sem.permits[j].hook == QueueOf(l.sem.permits[j].state)
      {
        assert PermitOk(l.sem.permits[j]);
      }
    } else {
      var i := l.sem.lists.Front();
      var q := if l.sem.lists.memory == [] then AdmissionQueue else MemoryQueue;
      assert i in l.sem.lists.At(q);
      InQueue(l.sem.lists, l.sem.permits, q, i);
      assert !PermitOk(Broken(l).sem.permits[i]);
    }
  }
}
