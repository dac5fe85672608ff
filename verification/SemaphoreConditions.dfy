/** When a semaphore lets a read in, grants or refuses memory: conditions on the permits' states and
    charges, the limits and the pool, and their agreement with the decisions the code takes. */
module SemaphoreConditions {
  import opened Wrappers
  import opened ReaderPermit
  import opened Semaphore
  import opened SemaphoreInvariant
  import opened SemaphoreTheorems

  // ---------- memory ----------

  /** What the pool could lend. */
  function Idle(pool: Pool): int {
    if pool.available < 0 then 0 else pool.available
  }

  /** Memory charged to reads beyond what is lent for them. */
  function Held(l: Local): int {
    Tally(l.sem.permits).memory - l.sem.borrowed
  }

  /** With `memory` more, what is held beyond all that the pool could lend reaches a multiple of the
      limit; a multiplier of zero or the largest one, and unlimited semaphores, switch that off. */
  predicate Reaches(l: Local, multiplier: nat, memory: int) {
    && multiplier != 0 && multiplier != UINT32_MAX && l.sem.initial != Resources(INT_MAX, SSIZE_MAX)
    && l.sem.initial.memory * multiplier <= Held(l) - Idle(l.pool) + memory
  }

  /** A charge of `memory` is refused: memory is used up, the kill limit is reached, and it would be
      reached too if the semaphore had its part of the memory that is in the pool. */
  predicate Refused(l: Local, memory: int) {
    && l.sem.available.memory <= 0
    && Reaches(l, l.sem.config.killLimitMultiplier, memory)
    && l.sem.unreduced * l.sem.config.killLimitMultiplier <= Held(l) + memory
  }

  lemma LimitMeans(l: Local, multiplier: nat, memory: int)
    requires Inv(l)
    ensures LimitOf(l.sem, multiplier).ReachedBy(Exposure(l.sem, l.pool) + memory) <==> Reaches(l, multiplier, memory)
  {
    hide Listed, InOrder, PermitOk, Tally;
    assert 0 <= l.sem.initial.memory * multiplier;
  }

  lemma KillsMeans(l: Local, units: Resources)
    requires Inv(l)
    ensures Kills(l.sem, l.pool, units) <==> Refused(l, units.memory)
  {
    hide Listed, InOrder, PermitOk, Tally, LimitOf, Reaches, Exposure;
    LimitMeans(l, l.sem.config.killLimitMultiplier, units.memory);
  }

  // ---------- admission ----------

  /** CPU slots in use: permits that need the CPU and do not await anything. */
  function SlotsTaken(ps: seq<Permit>): int {
    |NeedingCpu(ps)| - |Awaiting(ps)|
  }

  /** The units are there, with what the pool could lend, or no read is admitted at all. */
  predicate Affordable(l: Local, units: Resources) {
    || Tally(l.sem.permits).count == 0
    || (units.count <= l.sem.available.count && units.memory <= l.sem.available.memory + Idle(l.pool))
  }

  /** Memory is overdrawn and what is held has reached a multiple of the limit. */
  predicate Overdrawn(l: Local, multiplier: nat) {
    l.sem.available.memory < 0 && Reaches(l, multiplier, 0)
  }

  /** A read that asks for these base units may come in. */
  predicate MayEnter(l: Local, base: Resources) {
    && !Overdrawn(l, l.sem.config.killLimitMultiplier)
    && !Overdrawn(l, l.sem.config.serializeLimitMultiplier)
    && l.sem.lists.ready == []
    && SlotsTaken(l.sem.permits) < l.sem.config.cpuConcurrency
    && Affordable(l, base)
  }

  /** A read that waits for memory may go on. */
  predicate MayGoOn(l: Local) {
    && !Overdrawn(l, l.sem.config.killLimitMultiplier)
    && (Overdrawn(l, l.sem.config.serializeLimitMultiplier) ==> l.sem.blessed.None?)
  }

  lemma SlotsMean(l: Local)
    requires Inv(l)
    ensures CpuConcurrencyLimitReached(l.sem) <==> l.sem.config.cpuConcurrency <= SlotsTaken(l.sem.permits)
  {
    hide Listed, InOrder, PermitOk, Tally, NeedingCpu, Awaiting;
    MarksAreStates(l.sem.permits);
  }

  lemma UnitsMean(l: Local, units: Resources)
    requires Inv(l)
    ensures HasAvailableUnits(l.sem, l.pool, units) == AllOk <==> Affordable(l, units)
  {
    hide Listed, InOrder, PermitOk, Tally;
  }

  /** The decision of `can_admit_read`. */
  lemma DecisionMeans(l: Local, p: Permit)
    requires Inv(l)
    ensures CanAdmitRead(l.sem, l.pool, p).decision == Yes <==>
              if p.state.WaitingForMemory? then MayGoOn(l) else MayEnter(l, p.base)
  {
    hide Inv, LimitOf, Exposure, Reaches, Affordable, SlotsTaken, CpuConcurrencyLimitReached, HasAvailableUnits;
    LimitMeans(l, l.sem.config.killLimitMultiplier, 0);
    LimitMeans(l, l.sem.config.serializeLimitMultiplier, 0);
    SlotsMean(l);
    UnitsMean(l, p.base);
  }

  /** Its reason is a lack of memory or count exactly if the read is held up by the limits, or
      nothing but its units is missing. */
  lemma ReasonMeans(l: Local, p: Permit)
    requires Inv(l)
    ensures CanAdmitRead(l.sem, l.pool, p).why in {MemoryResources, CountResources} <==>
              if p.state.WaitingForMemory? then !MayGoOn(l)
              else
                || Overdrawn(l, l.sem.config.killLimitMultiplier)
                || Overdrawn(l, l.sem.config.serializeLimitMultiplier)
                || (&& l.sem.lists.ready == []
                    && SlotsTaken(l.sem.permits) < l.sem.config.cpuConcurrency
                    && !Affordable(l, p.base))
  {
    hide Inv, LimitOf, Exposure, Reaches, Affordable, SlotsTaken, CpuConcurrencyLimitReached;
    LimitMeans(l, l.sem.config.killLimitMultiplier, 0);
    LimitMeans(l, l.sem.config.serializeLimitMultiplier, 0);
    SlotsMean(l);
    UnitsMean(l, p.base);
  }

  // ---------- what the decisions depend on ----------

  lemma SameDecision(s: Sem, s': Sem, pool: Pool, p: Permit, p': Permit)
    requires s' == s.(permits := s'.permits, lists := s.lists.(others := s'.lists.others), requests := s'.requests)
    requires p'.state == p.state && p'.base == p.base
    ensures CanAdmitRead(s', pool, p') == CanAdmitRead(s, pool, p)
  {}

  lemma SameKills(s: Sem, s': Sem, pool: Pool, units: Resources)
    requires s'.config == s.config && s'.initial == s.initial && s'.available == s.available
    requires s'.unreduced == s.unreduced
    ensures Kills(s', pool, units) == Kills(s, pool, units)
  {}
}
