/** `reader_concurrency_semaphore_group`: memory is split between the shared pool and the member
    semaphores by weight.  Shares are computed with exact reals. */
module SemaphoreGroup {
  import opened Wrappers
  import opened ReaderPermit
  import opened Semaphore
  import opened SemaphoreInvariant
  import opened SemaphoreOperations
  import opened SemaphoreRuns
  import opened SemaphoreObjects

  // ---------- shares ----------

  function Sum(ws: seq<int>): int {
    if ws == [] then 0 else Sum(ws[..|ws| - 1]) + ws[|ws| - 1]
  }

  /** The part of `memory` due to a member of the given weight, rounded down. */
  function Share(weight: nat, totalWeight: nat, memory: nat): (r: nat)
    requires totalWeight > 0
  {
    ShareRounds(weight as real, totalWeight as real, memory as real);
    ((weight as real / totalWeight as real) * memory as real).Floor
  }

  lemma ShareRounds(w: real, t: real, m: real)
    requires 0.0 <= w && 0.0 < t && 0.0 <= m
    ensures 0.0 <= (w / t) * m == w * (m / t)
  {
    assert 0.0 <= m / t;
    assert 0.0 <= w * (m / t);
  }

  /** `part` is the largest amount that is no more than `weight` parts in `totalWeight` of the memory. */
  predicate IsShare(part: int, weight: nat, totalWeight: nat, memory: nat) {
    part * totalWeight <= weight * memory < (part + 1) * totalWeight
  }

  lemma ShareIsLargest(weight: nat, totalWeight: nat, memory: nat)
    requires totalWeight > 0
    ensures IsShare(Share(weight, totalWeight, memory), weight, totalWeight, memory)
  {
    hide Share, Scale;
    var x := ShareIsFloor(weight, totalWeight, memory);
    FloorBrackets(x);
    ScaleInt(weight, memory);
    Brackets(Share(weight, totalWeight, memory), x, totalWeight, weight * memory);
  }

  function Scale(x: real, t: real): real {
    x * t
  }

  lemma ScaleInt(a: int, b: int)
    ensures (a * b) as real == Scale(a as real, b as real)
  {}

  lemma ScaleOrder(a: real, b: real, t: real)
    requires a <= b && 0.0 < t
    ensures Scale(a, t) <= Scale(b, t) && (a < b ==> Scale(a, t) < Scale(b, t))
  {
    assert 0.0 <= (b - a) * t;
  }

  lemma ShareIsFloor(weight: nat, totalWeight: nat, memory: nat) returns (x: real)
    requires totalWeight > 0
    ensures x.Floor == Share(weight, totalWeight, memory)
    ensures Scale(x, totalWeight as real) == Scale(weight as real, memory as real)
  {
    x := (weight as real / totalWeight as real) * memory as real;
    ScaleBack(weight as real, totalWeight as real, memory as real);
  }

  lemma ScaleBack(w: real, t: real, m: real)
    requires 0.0 < t
    ensures Scale((w / t) * m, t) == Scale(w, m)
  {
    assert (w / t) * t == w;
    assert (w / t) * m * t == (w / t) * t * m;
  }

  lemma FloorBrackets(x: real)
    ensures x.Floor as real <= x < x.Floor as real + 1.0
  {}

  lemma Brackets(part: int, x: real, t: nat, p: int)
    requires part as real <= x < part as real + 1.0 && 0 < t && Scale(x, t as real) == p as real
    ensures part * t <= p < (part + 1) * t
  {
    hide Scale;
    ScaleOrder(part as real, x, t as real);
    ScaleOrder(x, part as real + 1.0, t as real);
    ScaleInt(part, t);
    ScaleInt(part + 1, t);
    assert (part + 1) as real == part as real + 1.0;
  }

  function Shares(ws: seq<nat>, totalWeight: nat, memory: nat): (r: seq<int>)
    requires totalWeight > 0
    ensures |r| == |ws|
  {
    seq(|ws|, k requires 0 <= k < |ws| => Share(ws[k], totalWeight, memory))
  }

  /** Rounded down, the shares never add up to more than the memory they divide. */
  lemma {:induction false} SharesFit(ws: seq<nat>, totalWeight: nat, memory: nat)
    requires totalWeight > 0
    ensures 0 <= Sum(Shares(ws, totalWeight, memory))
    ensures Sum(Shares(ws, totalWeight, memory)) as real <= Sum(ws) as real * (memory as real / totalWeight as real)
  {
    if ws != [] {
      var n := |ws| - 1;
      var u := memory as real / totalWeight as real;
      SharesFit(ws[..n], totalWeight, memory);
      ShareRounds(ws[n] as real, totalWeight as real, memory as real);
      assert Shares(ws, totalWeight, memory)[..n] == Shares(ws[..n], totalWeight, memory);
      assert Sum(ws) as real == Sum(ws[..n]) as real + ws[n] as real;
      assert Sum(ws) as real * u == Sum(ws[..n]) as real * u + ws[n] as real * u;
    }
  }

  /** Each share falls short of its exact part by less than one. */
  lemma {:induction false} SharesLoseLittle(ws: seq<nat>, totalWeight: nat, memory: nat)
    requires totalWeight > 0
    ensures var exact, given := Sum(ws) * memory, (Sum(Shares(ws, totalWeight, memory)) + |ws|) * totalWeight;
            if ws == [] then exact == given else exact < given
  {
    hide Share;
    if ws != [] {
      var n := |ws| - 1;
      SharesLoseLittle(ws[..n], totalWeight, memory);
      ShareIsLargest(ws[n], totalWeight, memory);
      assert Shares(ws, totalWeight, memory)[..n] == Shares(ws[..n], totalWeight, memory);
      var s, part := Sum(Shares(ws[..n], totalWeight, memory)), Share(ws[n], totalWeight, memory);
      AddParts(Sum(ws[..n]), ws[n], s + n, part + 1, memory, totalWeight);
    }
  }

  lemma AddParts(a: int, b: int, s: int, p: int, m: int, t: int)
    requires a * m <= s * t && b * m < p * t
    ensures (a + b) * m < (s + p) * t
  {
    assert (a + b) * m == a * m + b * m;
    assert (s + p) * t == s * t + p * t;
  }

  lemma SharesNonNegative(ws: seq<nat>, totalWeight: nat, memory: nat)
    requires totalWeight > 0
    ensures forall k | 0 <= k < |ws| :: 0 <= Shares(ws, totalWeight, memory)[k]
  {}

  lemma SharesWithin(ws: seq<nat>, totalWeight: nat, memory: nat)
    requires totalWeight > 0 && Sum(ws) <= totalWeight
    ensures 0 <= Sum(Shares(ws, totalWeight, memory)) <= memory
  {
    SharesFit(ws, totalWeight, memory);
    var s, t, m := Sum(ws) as real, totalWeight as real, memory as real;
    assert s * (m / t) <= t * (m / t);
    assert t * (m / t) == m;
  }

  lemma {:induction false} SumNonNegative(ws: seq<nat>)
    ensures 0 <= Sum(ws)
  {
    if ws != [] {
      SumNonNegative(ws[..|ws| - 1]);
    }
  }

  /** Of amounts that are not negative, each one is within the sum. */
  lemma {:induction false} SumCovers(ws: seq<int>, k: int)
    requires -1 <= k < |ws| && forall j | 0 <= j < |ws| :: 0 <= ws[j]
    ensures 0 <= Sum(ws) && (0 <= k ==> ws[k] <= Sum(ws))
  {
    if ws != [] {
      var n := |ws| - 1;
      SumCovers(ws[..n], if k == n then -1 else k);
    }
  }

  lemma {:induction false} SumUpdate(ws: seq<int>, k: nat, w: int)
    requires k < |ws|
    ensures Sum(ws[k := w]) == Sum(ws) - ws[k] + w
  {
    var n := |ws| - 1;
    if k < n {
      SumUpdate(ws[..n], k, w);
      assert ws[k := w][..n] == ws[..n][k := w];
    } else {
      assert ws[k := w][..n] == ws[..n];
    }
  }

  lemma SumNone()
    ensures Sum([]) == 0
  {}

  lemma SumSnoc(ws: seq<int>, w: int)
    ensures Sum(ws + [w]) == Sum(ws) + w
  {
    assert (ws + [w])[..|ws|] == ws;
  }

  lemma {:induction false} SumRemove(ws: seq<int>, k: nat)
    requires k < |ws|
    ensures Sum(ws[..k] + ws[k + 1..]) == Sum(ws) - ws[k]
  {
    var n := |ws| - 1;
    var rest := ws[..k] + ws[k + 1..];
    if k < n {
      SumRemove(ws[..n], k);
      assert rest[..n - 1] == ws[..n][..k] + ws[..n][k + 1..];
    } else {
      assert rest == ws[..n];
    }
  }

  /** Giving the first member what rounding left over distributes everything. */
  lemma RemainderToFirst(weights: seq<nat>, stopping: seq<nat>, totalWeight: nat, memory: nat, limits: seq<int>)
    requires weights != [] && totalWeight == Sum(weights) + Sum(stopping) && totalWeight > 0
    requires var shares := Shares(weights, totalWeight, memory);
             limits == shares[0 := shares[0] + (memory - Sum(shares))]
    ensures Sum(limits) == memory
    ensures forall k | 0 <= k < |limits| :: limits[k] >= 0
  {
    var shares := Shares(weights, totalWeight, memory);
    SumNonNegative(stopping);
    SharesWithin(weights, totalWeight, memory);
    SumUpdate(shares, 0, shares[0] + memory - Sum(shares));
  }

  /** `part` is no less than a share of the given weight, and what it has beyond the exact part is
      less than one for each member and the parts of the semaphores that are not members any more. */
  predicate IsFirstShare(part: int, weight: nat, gone: int, members: nat, totalWeight: nat, memory: nat) {
    weight * memory < (part + 1) * totalWeight && part * totalWeight < (weight + gone) * memory + members * totalWeight
  }

  lemma FirstShare(weights: seq<nat>, stopping: seq<nat>, totalWeight: nat, memory: nat)
    requires weights != [] && totalWeight == Sum(weights) + Sum(stopping) && totalWeight > 0
    ensures var shares := Shares(weights, totalWeight, memory);
            IsFirstShare(shares[0] + (memory - Sum(shares)), weights[0], Sum(stopping), |weights|, totalWeight, memory)
  {
    hide Share, Sum, IsShare, IsFirstShare;
    var shares := Shares(weights, totalWeight, memory);
    SumNonNegative(stopping);
    SharesWithin(weights, totalWeight, memory);
    ShareIsLargest(weights[0], totalWeight, memory);
    SharesLoseLittle(weights, totalWeight, memory);
    var first, rest := shares[0], memory - Sum(shares);
    FirstGets(first, rest, weights[0], Sum(weights), Sum(stopping), |weights|, totalWeight, memory);
  }

  lemma FirstGets(first: nat, rest: nat, w: nat, members: int, gone: int, n: nat, t: nat, m: nat)
    requires IsShare(first, w, t, m) && t == members + gone && members * m < (m - rest + n) * t
    ensures IsFirstShare(first + rest, w, gone, n, t, m)
  {
    assert (first + rest + 1) * t == (first + 1) * t + rest * t;
    assert (m - rest + n) * t == m * t - rest * t + n * t;
    assert m * t == members * m + gone * m;
    assert (w + gone) * m == w * m + gone * m;
    assert (first + rest) * t == first * t + rest * t;
    assert 0 <= rest * t;
  }

  // ---------- the group ----------

  type Semaphores = seq<ReaderConcurrencySemaphore>

  predicate Different<T(==)>(s: seq<T>) {
    forall a, b | 0 <= a < b < |s| :: s[a] != s[b]
  }

  ghost function MemoryLimits(sems: Semaphores): seq<int>
    reads sems
  {
    seq(|sems|, k requires 0 <= k < |sems| reads sems => sems[k].initial.memory)
  }

  ghost function LoansOf(sems: Semaphores): seq<int>
    reads sems
  {
    seq(|sems|, k requires 0 <= k < |sems| reads sems => sems[k].borrowed)
  }

  ghost function PermitsOf(sems: Semaphores): (r: set<PermitObject>)
    reads sems
    ensures forall s, p | s in sems && p in s.permits :: p in r
  {
    set s, p | s in sems && p in s.permits :: p
  }

  /** The semaphores borrow from the pool and keep their invariant. */
  ghost predicate Members(pool: SharedPool, sems: Semaphores)
    reads pool, sems, PermitsOf(sems)
  {
    forall s | s in sems :: s.pool == pool && s.Valid()
  }

  /** The pool's free memory and all loans add up to the pool. */
  ghost predicate InBalance(pool: SharedPool, sems: Semaphores, leaving: Semaphores)
    reads pool, sems, leaving, PermitsOf(sems), PermitsOf(leaving)
  {
    && !pool.fault
    && Members(pool, sems) && Members(pool, leaving)
    && pool.available + Sum(LoansOf(sems)) + Sum(LoansOf(leaving)) == pool.total
  }

  ghost predicate NoneShared(a: seq<PermitObject>, b: seq<PermitObject>) {
    forall p | p in a :: p !in b
  }

  /** No two semaphores have a permit object in common. */
  ghost predicate Apart(sems: Semaphores)
    reads sems
  {
    forall s, t | s in sems && t in sems && s != t :: NoneShared(s.permits, t.permits)
  }

  lemma ApartSubset(sems: Semaphores, some: Semaphores)
    requires Apart(sems) && forall s | s in some :: s in sems
    ensures Apart(some)
  {}

  /** A new member without a loan. */
  lemma JoinBalances(pool: SharedPool, sems: Semaphores, s: ReaderConcurrencySemaphore, leaving: Semaphores)
    requires InBalance(pool, sems, leaving) && Apart(sems + leaving)
    requires s.pool == pool && s.Valid() && s.borrowed == 0 && s.permits == []
    ensures InBalance(pool, sems + [s], leaving) && Apart(sems + [s] + leaving)
  {
    hide Sum, ReaderConcurrencySemaphore.Valid;
    assert LoansOf(sems + [s]) == LoansOf(sems) + [0];
    SumSnoc(LoansOf(sems), 0);
  }

  /** A member that is leaving. */
  lemma MoveBalances(pool: SharedPool, sems: Semaphores, leaving: Semaphores, k: nat)
    requires InBalance(pool, sems, leaving) && Apart(sems + leaving) && k < |sems|
    ensures InBalance(pool, sems[..k] + sems[k + 1..], leaving + [sems[k]])
    ensures Apart(sems[..k] + sems[k + 1..] + (leaving + [sems[k]]))
  {
    hide Sum, ReaderConcurrencySemaphore.Valid;
    ApartSubset(sems + leaving, sems[..k] + sems[k + 1..] + (leaving + [sems[k]]));
    assert LoansOf(sems[..k] + sems[k + 1..]) == LoansOf(sems)[..k] + LoansOf(sems)[k + 1..];
    assert LoansOf(leaving + [sems[k]]) == LoansOf(leaving) + [sems[k].borrowed];
    SumRemove(LoansOf(sems), k);
    SumSnoc(LoansOf(leaving), sems[k].borrowed);
  }

  /** A member that has left, without a loan. */
  lemma DropBalances(pool: SharedPool, sems: Semaphores, leaving: Semaphores, k: nat)
    requires InBalance(pool, sems, leaving) && Apart(sems + leaving) && k < |leaving| && leaving[k].borrowed == 0
    ensures InBalance(pool, sems, leaving[..k] + leaving[k + 1..])
    ensures Apart(sems + (leaving[..k] + leaving[k + 1..]))
  {
    hide Sum, ReaderConcurrencySemaphore.Valid;
    ApartSubset(sems + leaving, sems + (leaving[..k] + leaving[k + 1..]));
    assert LoansOf(leaving[..k] + leaving[k + 1..]) == LoansOf(leaving)[..k] + LoansOf(leaving)[k + 1..];
    SumRemove(LoansOf(leaving), k);
  }

  /** What the pool and a new semaphore need of each other. */
  lemma NewMember(pool: SharedPool, sems: Semaphores, leaving: Semaphores, config: Config, count: int)
    requires InBalance(pool, sems, leaving)
    ensures PoolOk(NewSem(config, Resources(count, 0)), pool.Value())
    ensures var s := NewSem(config, Resources(count, 0)); s.borrowed == 0 && s.permits == []
  {
    hide Sum, ReaderConcurrencySemaphore.Valid;
    LoansNonNegative(pool, sems);
    LoansNonNegative(pool, leaving);
  }

  lemma Requested(l: Local, i: nat, memory: nat)
    requires Allowed(l, Request(i, memory))
    ensures i < |l.sem.permits|
  {}

  lemma MemberOf(pool: SharedPool, sems: Semaphores, k: nat)
    requires Members(pool, sems) && k < |sems|
    ensures sems[k].pool == pool && sems[k].Valid()
  {}

  lemma PoolResized(l: Local, total: int)
    requires Inv(l)
    ensures Inv(l.(pool := l.pool.SetTotal(total)))
  {}

  lemma StoppedOwesNothing(s: ReaderConcurrencySemaphore)
    requires s.Valid() && forall p | p in s.permits :: !p.live
    ensures s.borrowed == 0
  {
    NoLoanWithoutPermits(s.Value().sem);
  }

  lemma {:induction false} LoansNonNegative(pool: SharedPool, sems: Semaphores)
    requires Members(pool, sems)
    ensures 0 <= Sum(LoansOf(sems))
  {
    hide Inv;
    if sems != [] {
      var n := |sems| - 1;
      LoansNonNegative(pool, sems[..n]);
      assert LoansOf(sems)[..n] == LoansOf(sems[..n]);
      Lends(sems[n]);
    }
  }

  lemma Lends(s: ReaderConcurrencySemaphore)
    requires s.Valid()
    ensures 0 <= s.borrowed
  {}

  /** Nothing about a member changes but its limits, and its balance moves with them. */
  twostate predicate Resized(s: ReaderConcurrencySemaphore)
    reads s, s.permits
  {
    && s.permits == old(s.permits)
    && s.Fields(Values(s.permits)) == SetResources(old(s.Fields(Values(s.permits))), s.initial, s.unreduced)
  }

  twostate lemma Untouched(s: ReaderConcurrencySemaphore)
    requires unchanged(s) && forall p | p in s.permits :: unchanged(p)
    ensures Resized(s)
  {
    forall k | 0 <= k < |s.permits| ensures s.permits[k].Value() == old(s.permits[k].Value()) {
      assert s.permits[k] in s.permits;
    }
    assert Values(s.permits) == old(Values(s.permits));
  }

  twostate lemma AllUntouched(sems: Semaphores)
    requires forall s | s in sems :: unchanged(s) && forall p | p in s.permits :: unchanged(p)
    ensures forall s | s in sems :: Resized(s)
  {
    forall s | s in sems ensures Resized(s) {
      Untouched(s);
    }
  }

  lemma ResizedTwice(s: Sem, r: Resources, u: nat, r': Resources, u': nat)
    ensures SetResources(SetResources(s, r, u), r', u') == SetResources(s, r', u')
  {}

  lemma PoolUsable(s: ReaderConcurrencySemaphore)
    requires s.Valid()
    ensures !s.pool.fault && 0 <= s.borrowed
  {}

  twostate lemma OldLends(s: ReaderConcurrencySemaphore)
    requires old(s.Valid()) && unchanged(s)
    ensures 0 <= s.borrowed
  {}

  twostate lemma StillValid(s: ReaderConcurrencySemaphore)
    requires old(s.Valid()) && unchanged(s) && forall p | p in s.permits :: unchanged(p)
    requires !s.pool.fault && s.pool.available + s.borrowed <= s.pool.total
    ensures s.Valid()
  {
    forall k | 0 <= k < |s.permits| ensures s.permits[k].Value() == old(s.permits[k].Value()) {
      assert s.permits[k] in s.permits;
    }
    assert Values(s.permits) == old(Values(s.permits));
  }

  /** The members' limits. */
  ghost predicate Limited(sems: Semaphores, count: int, limits: seq<int>)
    reads sems
  {
    |limits| == |sems| && forall k | 0 <= k < |sems| :: sems[k].initial == Resources(count, limits[k])
  }

  lemma LimitsFound(sems: Semaphores, count: int, limits: seq<int>)
    requires Limited(sems, count, limits)
    ensures MemoryLimits(sems) == limits && |limits| == |sems|
    ensures forall k | 0 <= k < |sems| :: sems[k].initial == Resources(count, limits[k])
  {}

  lemma DifferentRemove<T>(s: seq<T>, k: nat)
    requires Different(s) && k < |s|
    ensures Different(s[..k] + s[k + 1..]) && s[k] !in s[..k] + s[k + 1..]
  {}

  lemma DifferentMove<T>(s: seq<T>, t: seq<T>, k: nat)
    requires Different(s + t) && k < |s|
    ensures Different(s[..k] + s[k + 1..] + (t + [s[k]]))
  {
    var n, u, v := |s| + |t| - 1, s + t, s[..k] + s[k + 1..] + (t + [s[k]]);
    assert v[n] == u[k];
    assert forall a | 0 <= a < n :: v[a] == u[if a < k then a else a + 1];
  }

  lemma DifferentDrop<T>(s: seq<T>, t: seq<T>, k: nat)
    requires Different(s + t) && k < |t|
    ensures Different(s + (t[..k] + t[k + 1..]))
  {
    var u, v := s + t, s + (t[..k] + t[k + 1..]);
    assert forall a | 0 <= a < |v| :: v[a] == u[if a < |s| + k then a else a + 1];
  }

  lemma DifferentJoin<T>(s: seq<T>, x: T, t: seq<T>)
    requires Different(s + t) && x !in s && x !in t
    ensures Different(s + [x] + t)
  {
    var u, v := s + t, s + [x] + t;
    assert forall a | 0 <= a < |u| :: u[a] == v[if a < |s| then a else a + 1] && u[a] != x;
    assert forall a | 0 <= a < |v| && a != |s| :: v[a] == u[if a < |s| then a else a - 1];
  }

  lemma DifferentPart<T>(s: seq<T>, t: seq<T>)
    requires Different(s + t)
    ensures Different(s) && forall a, b | 0 <= a < |s| && 0 <= b < |t| :: s[a] != t[b]
  {
    var u := s + t;
    assert forall a | 0 <= a < |s| :: s[a] == u[a];
    assert forall b | 0 <= b < |t| :: t[b] == u[|s| + b];
  }

  lemma AllOthers<T>(s: seq<T>, k: nat)
    requires Different(s) && k < |s|
    ensures forall j | 0 <= j < |s| && j != k :: s[j] != s[k]
  {}

  class ReaderConcurrencySemaphoreGroup {
    const totalMemory: nat
    const maxConcurrentReads: int
    const config: Config
    const pool: SharedPool
    var sharedPoolFraction: real
    var totalWeight: nat
    var names: seq<string>
    var weights: seq<nat>
    var sems: Semaphores
    /** Removed semaphores that have not stopped yet, and their weights. */
    var leaving: Semaphores
    var stopping: seq<nat>

    ghost predicate Weighed()
      reads this
    {
      && |names| == |weights| == |sems| && |leaving| == |stopping|
      && Different(sems + leaving) && Different(names)
      && totalWeight == Sum(weights) + Sum(stopping)
    }

    ghost predicate Valid()
      reads this, pool, sems, leaving, PermitsOf(sems), PermitsOf(leaving)
    {
      Weighed() && InBalance(pool, sems, leaving) && Apart(sems + leaving)
    }

    constructor (memory: nat, maxReads: int, config: Config, fraction: real)
      ensures Valid() && fresh(pool) && sems == [] && leaving == [] && totalMemory == memory
      ensures pool.Value() == Pool(0, 0, false)
    {
      totalMemory, maxConcurrentReads, this.config := memory, maxReads, config;
      sharedPoolFraction, totalWeight := fraction, 0;
      names, weights, sems, leaving, stopping := [], [], [], [], [];
      pool := new SharedPool(0);
    }

    /** An operation of one member that keeps its invariant, only moves memory between the pool and
        its loan, and touches no other member keeps the whole group in balance. */
    twostate lemma MemberSteps(k: nat)
      requires old(Valid()) && unchanged(this) && k < |sems|
      requires sems[k].Valid() && Conserved(old(sems[k].Value()), sems[k].Value())
      requires forall p | p in sems[k].permits :: p in old(sems[k].permits) || fresh(p)
      requires forall j | 0 <= j < |sems| && j != k ::
                 unchanged(sems[j]) && forall p | p in sems[j].permits :: unchanged(p)
      requires forall j | 0 <= j < |leaving| ::
                 unchanged(leaving[j]) && forall p | p in leaving[j].permits :: unchanged(p)
      ensures Valid()
    {
      hide Sum, Different, Inv, Values;
      DifferentPart(sems, leaving);
      AllOthers(sems, k);
      StillApart(k);
      assert LoansOf(sems) == old(LoansOf(sems))[k := sems[k].borrowed];
      SumUpdate(old(LoansOf(sems)), k, sems[k].borrowed);
      assert LoansOf(leaving) == old(LoansOf(leaving));
      PoolUsable(sems[k]);
      forall j | 0 <= j < |sems| && j != k ensures 0 <= sems[j].borrowed {
        OldLends(sems[j]);
      }
      forall j | 0 <= j < |leaving| ensures 0 <= leaving[j].borrowed {
        OldLends(leaving[j]);
      }
      forall j | 0 <= j < |sems| && j != k ensures sems[j].pool == pool && sems[j].Valid() {
        SumCovers(LoansOf(sems), j);
        SumCovers(LoansOf(leaving), -1);
        StillValid(sems[j]);
      }
      forall j | 0 <= j < |leaving| ensures leaving[j].pool == pool && leaving[j].Valid() {
        SumCovers(LoansOf(sems), -1);
        SumCovers(LoansOf(leaving), j);
        StillValid(leaving[j]);
      }
    }

    twostate lemma StillApart(k: nat)
      requires old(Apart(sems + leaving)) && unchanged(this) && k < |sems|
      requires forall p | p in sems[k].permits :: p in old(sems[k].permits) || fresh(p)
      requires forall j | 0 <= j < |sems| && j != k :: sems[j].permits == old(sems[j].permits)
      requires forall j | 0 <= j < |leaving| :: leaving[j].permits == old(leaving[j].permits)
      ensures Apart(sems + leaving)
    {
      var all := sems + leaving;
      assert forall j | 0 <= j < |all| && j != k :: all[j].permits == old(all[j].permits);
      forall s, t | s in all && t in all && s != t ensures NoneShared(s.permits, t.permits) {
        assert old(NoneShared(s.permits, t.permits));
      }
    }

    /** A read of member `k` asks for memory: the group is still in balance. */
    method RequestMemoryOf(k: nat, i: nat, memory: nat)
      requires Valid() && k < |sems| && Allowed(sems[k].Value(), Request(i, memory))
      modifies sems[k], pool, sems[k].permits[i]
      ensures Valid() && sems == old(sems) && leaving == old(leaving)
      ensures sems[k].Value() == Apply(old(sems[k].Value()), Request(i, memory))
    {
      hide Sum, Different, Inv, Values, Allowed, Apply;
      DifferentPart(sems, leaving);
      AllOthers(sems, k);
      Requested(sems[k].Value(), i, memory);
      PermitIsOwn(k, i);
      sems[k].RequestMemory(i, memory);
      MemberSteps(k);
    }

    /** No other member has this permit. */
    lemma PermitIsOwn(k: nat, i: nat)
      requires Apart(sems + leaving) && Different(sems + leaving) && k < |sems| && i < |sems[k].permits|
      ensures forall j | 0 <= j < |sems| && j != k :: sems[k].permits[i] !in sems[j].permits
      ensures forall j | 0 <= j < |leaving| :: sems[k].permits[i] !in leaving[j].permits
    {
      var all := sems + leaving;
      AllOthers(all, k);
      forall j | 0 <= j < |all| && j != k ensures sems[k].permits[i] !in all[j].permits {
        assert NoneShared(all[k].permits, all[j].permits);
      }
      assert forall j | 0 <= j < |sems| :: all[j] == sems[j];
      assert forall j | 0 <= j < |leaving| :: all[|sems| + j] == leaving[j];
    }

    /** The fraction of the memory, rounded down; fractions out of range are cut to it. */
    function SharedMemory(): (r: nat)
      reads this
      ensures r <= totalMemory
      ensures sharedPoolFraction <= 0.0 ==> r == 0
      ensures sharedPoolFraction >= 1.0 ==> r == totalMemory
      ensures 0.0 <= sharedPoolFraction <= 1.0 ==>
                r as real <= totalMemory as real * sharedPoolFraction < r as real + 1.0
    {
      var f := if sharedPoolFraction < 0.0 then 0.0 else if sharedPoolFraction > 1.0 then 1.0 else sharedPoolFraction;
      assert 0.0 <= totalMemory as real * f <= totalMemory as real;
      (totalMemory as real * f).Floor
    }

    /** Every member has its share of the dedicated memory, the first one also what rounding left
        over, and knows its share of all the memory. */
    ghost predicate Divided(dedicated: nat)
      reads this, sems
      requires |weights| == |sems|
    {
      && (forall k | 1 <= k < |sems| :: IsShare(sems[k].initial.memory, weights[k], totalWeight, dedicated))
      && (sems != [] ==>
            IsFirstShare(sems[0].initial.memory, weights[0], Sum(stopping), |sems|, totalWeight, dedicated))
      && (forall k | 0 <= k < |sems| :: IsShare(sems[k].unreduced, weights[k], totalWeight, totalMemory))
    }

    /** The members' limits and the pool add up to the configured memory, exactly. */
    ghost predicate Adjusted()
      reads this, pool, sems
    {
      && Sum(MemoryLimits(sems)) + pool.total == totalMemory
      && pool.total == SharedMemory()
      && (forall k | 0 <= k < |sems| :: sems[k].initial.memory >= 0 && sems[k].initial.count == maxConcurrentReads)
      && |weights| == |sems| && Divided(totalMemory - SharedMemory())
    }

    /** Division by the total weight is meaningful whenever there is a member to divide for. */
    ghost predicate CanAdjust()
      reads this
    {
      sems != [] ==> totalWeight > 0
    }

    method Distribute(dedicated: nat) returns (distributed: int)
      requires Valid() && totalWeight > 0
      modifies sems
      ensures Valid()
      ensures distributed == Sum(Shares(weights, totalWeight, dedicated))
      ensures Limited(sems, maxConcurrentReads, Shares(weights, totalWeight, dedicated))
      ensures forall k | 0 <= k < |sems| :: sems[k].unreduced == Share(weights[k], totalWeight, totalMemory)
      ensures forall s | s in sems :: Resized(s)
    {
      hide Share, Sum, InBalance, Apart, Different, SetResources, Values, ReaderConcurrencySemaphore.Fields;
      ghost var shares := Shares(weights, totalWeight, dedicated);
      distributed := 0;
      SumNone();
      assert shares[..0] == [];
      for k := 0 to |sems|
        invariant distributed == Sum(shares[..k]) && Valid()
        invariant forall j | 0 <= j < k ::
                    && sems[j].initial == Resources(maxConcurrentReads, shares[j]) && Resized(sems[j])
                    && sems[j].unreduced == Share(weights[j], totalWeight, totalMemory)
        invariant forall j | k <= j < |sems| :: unchanged(sems[j])
      {
        var share := Share(weights[k], totalWeight, dedicated);
        ResizeMember(k, Resources(maxConcurrentReads, share), Share(weights[k], totalWeight, totalMemory));
        assert shares[..k + 1] == shares[..k] + [share];
        SumSnoc(shares[..k], share);
        distributed := distributed + share;
      }
      assert shares[..|sems|] == shares;
    }

    method ResizeMember(k: nat, r: Resources, unreduced: nat)
      requires Valid() && k < |sems| && 0 <= r.memory
      modifies sems[k]
      ensures Valid() && Resized(sems[k]) && sems[k].initial == r && sems[k].unreduced == unreduced
      ensures forall j | 0 <= j < |sems| && j != k :: unchanged(sems[j])
    {
      hide Inv, Sum, Different, NoneShared;
      DifferentPart(sems, leaving);
      AllOthers(sems, k);
      sems[k].UpdateResources(r, unreduced);
      assert LoansOf(sems) == old(LoansOf(sems)) && LoansOf(leaving) == old(LoansOf(leaving));
    }

    /** What rounding left over goes to the first member. */
    method GiveRemainder(remainder: nat, ghost limits: seq<int>)
      requires Valid() && sems != [] && Limited(sems, maxConcurrentReads, limits) && 0 <= limits[0]
      modifies sems[0]
      ensures Valid() && Limited(sems, maxConcurrentReads, limits[0 := limits[0] + remainder])
      ensures Resized(sems[0]) && sems[0].unreduced == old(sems[0].unreduced)
      ensures forall j | 1 <= j < |sems| :: unchanged(sems[j])
    {
      hide InBalance, Different, SetResources, Sum;
      var s := sems[0];
      ResizeMember(0, s.initial.Plus(Resources(0, remainder)), s.unreduced);
    }

    /** All of the dedicated memory is distributed. */
    method DistributeExactly(dedicated: nat) returns (ghost limits: seq<int>)
      requires Valid() && totalWeight > 0 && sems != []
      modifies sems
      ensures Valid() && Limited(sems, maxConcurrentReads, limits)
      ensures var shares := Shares(weights, totalWeight, dedicated);
              limits == shares[0 := shares[0] + (dedicated - Sum(shares))]
      ensures forall k | 0 <= k < |sems| :: sems[k].unreduced == Share(weights[k], totalWeight, totalMemory)
      ensures forall s | s in sems :: Resized(s)
    {
      hide Share, Shares, Sum, Different, Limited, InBalance, Apart, SetResources, Values,
        ReaderConcurrencySemaphore.Fields;
      var distributed := Distribute(dedicated);
      ghost var shares := Shares(weights, totalWeight, dedicated);
      SumNonNegative(stopping);
      SharesWithin(weights, totalWeight, dedicated);
      SharesNonNegative(weights, totalWeight, dedicated);
      ghost var first := sems[0];
      ghost var was, r, u := old(first.Fields(Values(first.permits))), first.initial, first.unreduced;
      GiveRemainder(dedicated - distributed, shares);
      ResizedTwice(was, r, u, first.initial, first.unreduced);
      limits := shares[0 := shares[0] + (dedicated - distributed)];
    }

    method DistributeAll(dedicated: nat)
      requires Valid() && totalWeight > 0 && sems != []
      modifies sems
      ensures Valid() && Sum(MemoryLimits(sems)) == dedicated
      ensures forall k | 0 <= k < |sems| ::
                && sems[k].initial.memory >= 0 && sems[k].initial.count == maxConcurrentReads
      ensures Divided(dedicated)
      ensures forall s | s in sems :: Resized(s)
    {
      hide Share, Shares, Sum, Different, Limited, MemoryLimits, InBalance, SetResources, Resized, IsShare,
        IsFirstShare;
      ghost var limits := DistributeExactly(dedicated);
      LimitsFound(sems, maxConcurrentReads, limits);
      RemainderToFirst(weights, stopping, totalWeight, dedicated, limits);
      LimitsDivide(dedicated, limits);
    }

    lemma LimitsDivide(dedicated: nat, limits: seq<int>)
      requires Weighed() && totalWeight > 0 && sems != [] && |limits| == |sems|
      requires var shares := Shares(weights, totalWeight, dedicated);
               limits == shares[0 := shares[0] + (dedicated - Sum(shares))]
      requires forall k | 0 <= k < |sems| ::
                 && sems[k].initial.memory == limits[k]
                 && sems[k].unreduced == Share(weights[k], totalWeight, totalMemory)
      ensures Divided(dedicated)
    {
      hide Share, Sum, Different, IsShare, IsFirstShare;
      FirstShare(weights, stopping, totalWeight, dedicated);
      forall k | 0 <= k < |sems|
        ensures IsShare(Share(weights[k], totalWeight, dedicated), weights[k], totalWeight, dedicated)
        ensures IsShare(Share(weights[k], totalWeight, totalMemory), weights[k], totalWeight, totalMemory)
      {
        ShareIsLargest(weights[k], totalWeight, dedicated);
        ShareIsLargest(weights[k], totalWeight, totalMemory);
      }
    }

    method Adjust()
      requires Valid() && CanAdjust()
      modifies pool, sems
      ensures Valid()
      ensures sems != [] ==> Adjusted() && pool.Value() == old(pool.Value()).SetTotal(SharedMemory())
      ensures sems == [] ==> pool.Value() == old(pool.Value())
      ensures forall s | s in sems :: Resized(s)
    {
      hide Share, Shares, Sum, Different, InBalance, Apart, SetResources, IsShare, IsFirstShare, MemoryLimits;
      if sems != [] {
        var shared := SharedMemory();
        ResizePool(shared);
        DistributeAll(totalMemory - shared);
      }
    }

    method ResizePool(total: int)
      requires Valid()
      modifies pool
      ensures Valid() && pool.Value() == old(pool.Value()).SetTotal(total)
    {
      hide Sum, Inv;
      forall s | s in sems + leaving ensures Inv(s.Value().(pool := pool.Value().SetTotal(total))) {
        PoolResized(s.Value(), total);
      }
      pool.SetTotalMemory(total);
    }

    /** The total weight follows the members' and the stopping semaphores' weights. */
    method ChangeWeight(k: nat, weight: nat)
      requires Valid() && k < |sems| && (weight != weights[k] ==> totalWeight - weights[k] + weight > 0)
      modifies this`weights, this`totalWeight, pool, sems
      ensures Valid() && weights == old(weights)[k := weight]
      ensures totalWeight == old(totalWeight) - old(weights)[k] + weight
      ensures weight != old(weights)[k] ==> Adjusted()
      ensures forall s | s in sems :: Resized(s)
    {
      hide Sum, Different, LoansOf, NoneShared, ReaderConcurrencySemaphore.Valid, SetResources;
      if weight != weights[k] {
        SumUpdate(weights, k, weight);
        totalWeight := totalWeight - weights[k] + weight;
        weights := weights[k := weight];
        Adjust();
      } else {
        AllUntouched(sems);
      }
    }

    function Find(name: string): (r: Option<nat>)
      requires |names| == |sems|
      reads this
      ensures r.Some? ==> r.value < |names| && names[r.value] == name
      ensures r.None? ==> name !in names
    {
      FindFrom(name, 0)
    }

    function FindFrom(name: string, k: nat): (r: Option<nat>)
      requires k <= |names| == |sems|
      reads this
      ensures r.Some? ==> r.value < |names| && names[r.value] == name
      ensures r.None? ==> name !in names[k..]
      decreases |names| - k
    {
      if k == |names| then None
      else if names[k] == name then Some(k)
      else assert names[k..] == [names[k]] + names[k + 1..]; FindFrom(name, k + 1)
    }

    method AddOrUpdate(name: string, shares: nat) returns (k: nat)
      requires Valid()
      requires var f := Find(name);
               var was := if f.Some? then weights[f.value] else 0;
               shares != was ==> totalWeight - was + shares > 0
      modifies this`names, this`weights, this`sems, this`totalWeight, pool, sems
      ensures Valid() && k < |names| && names[k] == name && weights[k] == shares
      ensures name in old(names) ==> names == old(names) && weights == old(weights)[k := shares] && sems == old(sems)
      ensures name !in old(names) ==>
                names == old(names) + [name] && weights == old(weights) + [shares]
                && fresh(sems[k]) && sems == old(sems) + [sems[k]]
      ensures stopping == old(stopping) && leaving == old(leaving)
      ensures (if name in old(names) then k < |old(weights)| && old(weights)[k] != shares else shares > 0) ==>
                Adjusted()
      ensures forall s | s in old(sems) :: Resized(s)
    {
      hide Sum, Different, InBalance, Apart, SetResources, Values, FindFrom, Adjusted;
      hide ReaderConcurrencySemaphore.Fields;
      var found := Find(name);
      if found.Some? {
        k := found.value;
      } else {
        k := |sems|;
        Join(name);
      }
      assert forall s | s in old(sems) ::
          s in sems && s.permits == old(s.permits) && s.Fields(Values(s.permits)) == old(s.Fields(Values(s.permits)));
      ChangeWeight(k, shares);
    }

    /** A new member of weight zero. */
    method Join(name: string)
      requires Valid() && name !in names
      modifies this`names, this`weights, this`sems
      ensures Valid() && names == old(names) + [name] && weights == old(weights) + [0]
      ensures |sems| == |old(sems)| + 1 && sems[..|sems| - 1] == old(sems) && fresh(sems[|sems| - 1])
      ensures forall s | s in old(sems) :: s.Fields(Values(s.permits)) == old(s.Fields(Values(s.permits)))
    {
      hide Sum, Different, LoansOf, NoneShared, ReaderConcurrencySemaphore.Valid, Values;
      var s := NewSemaphore();
      JoinBalances(pool, sems, s, leaving);
      SumSnoc(weights, 0);
      DifferentJoin(sems, s, leaving);
      assert names + [] == names && names + [name] + [] == names + [name];
      DifferentJoin(names, name, []);
      names, weights, sems := names + [name], weights + [0], sems + [s];
    }

    method NewSemaphore() returns (s: ReaderConcurrencySemaphore)
      requires InBalance(pool, sems, leaving)
      ensures fresh(s) && s.pool == pool && s.Valid() && s.borrowed == 0 && s.permits == []
    {
      hide InBalance, ReaderConcurrencySemaphore.Valid, NewSem, PoolOk;
      NewMember(pool, sems, leaving, config, maxConcurrentReads);
      s := new ReaderConcurrencySemaphore(config, Resources(maxConcurrentReads, 0), pool);
    }

    /** `remove`, until the semaphore has stopped: its weight and its loan still count. */
    method Remove(name: string)
      requires Valid()
      modifies this`names, this`weights, this`sems, this`stopping, this`leaving
      ensures Valid() && totalWeight == old(totalWeight) && name !in names
      ensures name !in old(names) ==> names == old(names) && stopping == old(stopping) && leaving == old(leaving)
      ensures name in old(names) ==> exists k | 0 <= k < |old(names)| && old(names)[k] == name ::
                names == old(names)[..k] + old(names)[k + 1..] && sems == old(sems)[..k] + old(sems)[k + 1..]
                && weights == old(weights)[..k] + old(weights)[k + 1..] && stopping == old(stopping) + [old(weights)[k]]
                && leaving == old(leaving) + [old(sems)[k]]
    {
      hide Sum, Different, InBalance, Apart, FindFrom;
      var found := Find(name);
      if found.Some? {
        Extract(found.value);
      }
    }

    method Extract(k: nat)
      requires Valid() && k < |names|
      modifies this`names, this`weights, this`sems, this`stopping, this`leaving
      ensures Valid() && old(names)[k] !in names
      ensures names == old(names)[..k] + old(names)[k + 1..] && sems == old(sems)[..k] + old(sems)[k + 1..]
      ensures weights == old(weights)[..k] + old(weights)[k + 1..] && stopping == old(stopping) + [old(weights)[k]]
      ensures leaving == old(leaving) + [old(sems)[k]]
    {
      hide Sum, Different, LoansOf, NoneShared, ReaderConcurrencySemaphore.Valid;
      SumRemove(weights, k);
      SumSnoc(stopping, weights[k]);
      DifferentRemove(names, k);
      DifferentMove(sems, leaving, k);
      MoveBalances(pool, sems, leaving, k);
      leaving, stopping := leaving + [sems[k]], stopping + [weights[k]];
      names, weights, sems := names[..k] + names[k + 1..], weights[..k] + weights[k + 1..], sems[..k] + sems[k + 1..];
    }

    /** `remove`, once the semaphore has stopped: all its permits are gone and its weight is
        released. */
    method Release(k: nat)
      requires Valid() && k < |leaving| && forall p | p in leaving[k].permits :: !p.live
      requires stopping[k] != 0 && sems != [] ==> totalWeight > stopping[k]
      modifies this`stopping, this`leaving, this`totalWeight, pool, sems
      ensures Valid() && stopping == old(stopping)[..k] + old(stopping)[k + 1..]
      ensures leaving == old(leaving)[..k] + old(leaving)[k + 1..]
      ensures totalWeight == old(totalWeight) - old(stopping)[k]
      ensures old(stopping)[k] != 0 && sems != [] ==> Adjusted()
      ensures forall s | s in sems :: Resized(s)
    {
      hide Sum, Different, InBalance, Apart, SetResources, Values, ReaderConcurrencySemaphore.Fields, Adjusted;
      var weight := stopping[k];
      Forget(k);
      if weight != 0 {
        Adjust();
      } else {
        AllUntouched(sems);
      }
    }

    method Forget(k: nat)
      requires Valid() && k < |leaving| && forall p | p in leaving[k].permits :: !p.live
      modifies this`stopping, this`leaving, this`totalWeight
      ensures Valid() && stopping == old(stopping)[..k] + old(stopping)[k + 1..]
      ensures leaving == old(leaving)[..k] + old(leaving)[k + 1..]
      ensures totalWeight == old(totalWeight) - old(stopping)[k]
    {
      hide Sum, Different, LoansOf, NoneShared, ReaderConcurrencySemaphore.Valid;
      SumRemove(stopping, k);
      DifferentDrop(sems, leaving, k);
      StoppedLeaves(k);
      DropBalances(pool, sems, leaving, k);
      var weight := stopping[k];
      stopping, leaving := stopping[..k] + stopping[k + 1..], leaving[..k] + leaving[k + 1..];
      SumNonNegative(weights);
      SumNonNegative(stopping);
      totalWeight := totalWeight - weight;
    }

    lemma StoppedLeaves(k: nat)
      requires InBalance(pool, sems, leaving) && k < |leaving| && forall p | p in leaving[k].permits :: !p.live
      ensures leaving[k].borrowed == 0
    {
      MemberOf(pool, leaving, k);
      StoppedOwesNothing(leaving[k]);
    }

    /** A live update of the fraction re-splits the memory. */
    method SetSharedPoolFraction(fraction: real)
      requires Valid() && CanAdjust()
      modifies this`sharedPoolFraction, pool, sems
      ensures Valid() && sharedPoolFraction == fraction
      ensures sems != [] ==> Adjusted()
      ensures forall s | s in sems :: Resized(s)
    {
      hide Sum, Different, LoansOf, NoneShared, ReaderConcurrencySemaphore.Valid, SetResources;
      sharedPoolFraction := fraction;
      Adjust();
    }
  }
}
