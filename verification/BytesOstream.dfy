/** `bytes_ostream`: a chain of chunks that behaves like one byte string.  Sizes are unbounded. */
module Ostream {
  import opened Integers
  import opened Fragments

  const CHUNK_HEADER := 24
  const DEFAULT_CHUNK_SIZE := 512
  const MAX_ALLOC_SIZE := 128 * 1024
  const MAX_CHUNK_SIZE := MAX_ALLOC_SIZE - CHUNK_HEADER

  // ---------- chunk sizes ----------

  predicate IsPowerOfTwo(n: nat) {
    n == 1 || (n > 1 && n % 2 == 0 && IsPowerOfTwo(n / 2))
  }

  /** The smallest power of two that is at least `n` and at least `from`, itself a power of two. */
  function BitCeilFrom(from: nat, n: nat): (r: nat)
    requires IsPowerOfTwo(from)
    ensures IsPowerOfTwo(r) && from <= r && n <= r && (r == from || r < 2 * n)
    decreases n - from
  {
    if n <= from then from else BitCeilFrom(2 * from, n)
  }

  /** `std::bit_ceil` */
  function BitCeil(n: nat): (r: nat)
    ensures IsPowerOfTwo(r) && n <= r && (n > 0 ==> r < 2 * n)
  {
    BitCeilFrom(1, n)
  }

  /** Powers of two are at least twice the smaller ones. */
  lemma {:induction false} PowersAreApart(p: nat, q: nat)
    requires IsPowerOfTwo(p) && IsPowerOfTwo(q) && p < q
    ensures 2 * p <= q
  {
    if p > 1 {
      PowersAreApart(p / 2, q / 2);
    }
  }

  lemma MaxIsPower()
    ensures IsPowerOfTwo(MAX_ALLOC_SIZE)
  {
    Doubled(1);
    Doubled(2);
    Doubled(4);
    Doubled(8);
    Times16(16);
    Times16(256);
    Times16(4096);
    Doubled(65536);
  }

  lemma Doubled(n: nat)
    requires IsPowerOfTwo(n)
    ensures IsPowerOfTwo(2 * n)
  {
    assert 2 * n / 2 == n;
  }

  lemma Times16(n: nat)
    requires IsPowerOfTwo(n)
    ensures IsPowerOfTwo(16 * n)
  {
    Doubled(n);
    Doubled(2 * n);
    Doubled(4 * n);
    Doubled(8 * n);
  }

  function Max(a: nat, b: nat): nat {
    if a < b then b else a
  }

  /** `next_alloc_size`, given the size of the current chunk's data or the initial allocation. */
  function NextAllocSize(wish: nat, data: nat): nat {
    BitCeil(Max(Min(wish, MAX_ALLOC_SIZE), data + CHUNK_HEADER))
  }

  lemma RoomForData(wish: nat, data: nat)
    ensures data + CHUNK_HEADER <= NextAllocSize(wish, data)
  {}

  /** After an allocation of `last` bytes, the next one doubles it up to the maximum; data of a chunk's
      size never makes it exceed that. */
  lemma AllocationsDouble(last: nat, data: nat)
    requires IsPowerOfTwo(last) && DEFAULT_CHUNK_SIZE <= last <= MAX_ALLOC_SIZE && data <= MAX_CHUNK_SIZE
    ensures var n := NextAllocSize((last - CHUNK_HEADER) * 2, data);
            IsPowerOfTwo(n) && Min(2 * last, MAX_ALLOC_SIZE) <= n <= MAX_ALLOC_SIZE
  {
    var n := NextAllocSize((last - CHUNK_HEADER) * 2, data);
    MaxIsPower();
    if last < n { PowersAreApart(last, n); }
    if MAX_ALLOC_SIZE < n { PowersAreApart(MAX_ALLOC_SIZE, n); }
  }

  lemma FirstAllocation(data: nat)
    requires data <= MAX_CHUNK_SIZE
    ensures var n := NextAllocSize(DEFAULT_CHUNK_SIZE, data);
            IsPowerOfTwo(n) && DEFAULT_CHUNK_SIZE <= n <= MAX_ALLOC_SIZE
  {
    var n := NextAllocSize(DEFAULT_CHUNK_SIZE, data);
    MaxIsPower();
    if MAX_ALLOC_SIZE < n { PowersAreApart(MAX_ALLOC_SIZE, n); }
  }

  // ---------- chunks ----------

  function Overwrite(s: seq<byte>, at: nat, v: seq<byte>): (r: seq<byte>)
    requires at + |v| <= |s|
    ensures |r| == |s|
  {
    s[..at] + v + s[at + |v|..]
  }

  class Chunk {
    const data: array<byte>
    var fragSize: nat
    var next: Chunk?

    constructor (size: nat, fragSize: nat)
      requires fragSize <= size
      ensures data.Length == size && this.fragSize == fragSize && next == null && fresh(data)
    {
      data := new byte[size];
      this.fragSize, next := fragSize, null;
    }

    ghost predicate Holds(f: Fragment)
      reads this, data
    {
      fragSize == |f| && fragSize <= data.Length && data[..fragSize] == f
    }
  }

  function Allocated(c: Chunk): nat {
    c.data.Length + CHUNK_HEADER
  }

  // ---------- chains ----------

  /** Each chunk points to the next one, the last to none. */
  ghost predicate Linked(chain: seq<Chunk>)
    reads chain`next
  {
    && (forall k | 0 <= k < |chain| - 1 :: chain[k].next == chain[k + 1])
    && (chain != [] ==> chain[|chain| - 1].next == null)
  }

  ghost predicate Distinct(chain: seq<Chunk>) {
    forall a, b | 0 <= a < b < |chain| :: chain[a] != chain[b] && chain[a].data != chain[b].data
  }

  ghost predicate Owned(chain: seq<Chunk>, repr: set<object>) {
    forall c | c in chain :: c in repr && c.data in repr
  }

  ghost predicate Holding(chain: seq<Chunk>, frags: seq<Fragment>)
    reads chain, set c | c in chain :: c.data
  {
    |chain| == |frags| && forall k | 0 <= k < |chain| :: chain[k].Holds(frags[k])
  }

  twostate predicate Kept(c: Chunk)
    reads c, c.data
  {
    c.fragSize == old(c.fragSize) && c.data[..] == old(c.data[..])
  }

  lemma OthersDiffer(chain: seq<Chunk>)
    requires Distinct(chain) && chain != []
    ensures forall x | x in chain[..|chain| - 1] :: x != chain[|chain| - 1] && x.data != chain[|chain| - 1].data
  {}

  lemma DistinctSnoc(chain: seq<Chunk>, c: Chunk, repr: set<object>)
    requires Distinct(chain) && Owned(chain, repr) && c !in repr && c.data !in repr
    ensures Distinct(chain + [c]) && Owned(chain + [c], repr + {c, c.data})
  {}

  twostate lemma LinkedSnoc(chain: seq<Chunk>, new c: Chunk)
    requires old(Linked(chain)) && c.next == null
    requires chain != [] ==>
               chain[|chain| - 1].next == c && forall x | x in chain[..|chain| - 1] :: x.next == old(x.next)
    ensures Linked(chain + [c])
  {}

  twostate lemma HoldingSnoc(chain: seq<Chunk>, new frags: seq<Fragment>, new c: Chunk, new f: Fragment)
    requires old(Holding(chain, frags))
    requires c.Holds(f)
    requires forall k | 0 <= k < |chain| :: Kept(chain[k])
    ensures Holding(chain + [c], frags + [f])
  {
    forall k | 0 <= k < |chain| ensures chain[k].Holds(frags[k]) {
      var x := chain[k];
      assert Kept(x) && old(x.Holds(frags[k]));
      assert x.data[..x.fragSize] == x.data[..][..x.fragSize];
    }
  }

  lemma OwnedLast(chain: seq<Chunk>, repr: set<object>)
    requires Owned(chain, repr)
    ensures forall k | 0 <= k < |chain| :: chain[k] in repr && chain[k].data in repr
  {}

  lemma OwnedCut(chain: seq<Chunk>, repr: set<object>, k: nat)
    requires Owned(chain, repr) && k < |chain|
    ensures Owned(chain[..k + 1], repr)
  {}

  lemma NoChunks(repr: set<object>)
    ensures Owned([], repr) && Distinct([]) && Linked([]) && Holding([], []) && Flatten([]) == []
  {}

  lemma ChunkHolds(chain: seq<Chunk>, frags: seq<Fragment>, k: nat)
    requires Holding(chain, frags) && k < |chain|
    ensures |frags| == |chain| && chain[k].Holds(frags[k])
  {}

  lemma Single(c: Chunk, f: Fragment, repr: set<object>)
    requires c.next == null && c.Holds(f)
    ensures Linked([c]) && Distinct([c]) && Owned([c], repr + {c, c.data}) && Holding([c], [f]) && Flatten([f]) == f
  {
    assert [f][..0] == [];
  }

  lemma LastHolds(chain: seq<Chunk>, frags: seq<Fragment>)
    requires Holding(chain, frags)
    ensures |frags| == |chain| && (chain != [] ==> chain[|chain| - 1].Holds(frags[|chain| - 1]))
  {}

  twostate lemma HoldingLast(chain: seq<Chunk>, new frags: seq<Fragment>, new f: Fragment)
    requires chain != [] && old(Holding(chain, frags))
    requires chain[|chain| - 1].Holds(f)
    requires forall k | 0 <= k < |chain| - 1 :: Kept(chain[k])
    ensures Holding(chain, frags[|chain| - 1 := f])
  {
    forall k | 0 <= k < |chain| - 1 ensures chain[k].Holds(frags[k]) {
      var x := chain[k];
      assert Kept(x) && old(x.Holds(frags[k]));
      assert x.data[..x.fragSize] == x.data[..][..x.fragSize];
    }
  }

  /** Every allocation is a power of two up to the maximum and, short of that, at least twice the last. */
  ghost predicate Doubling(chain: seq<Chunk>) {
    forall k | 0 <= k < |chain| ::
      && IsPowerOfTwo(Allocated(chain[k])) && DEFAULT_CHUNK_SIZE <= Allocated(chain[k]) <= MAX_ALLOC_SIZE
      && (k > 0 ==> Min(2 * Allocated(chain[k - 1]), MAX_ALLOC_SIZE) <= Allocated(chain[k]))
  }

  /** The chunk that `n` bytes of data not fitting the chain are given. */
  ghost predicate IsNext(initial: nat, chain: seq<Chunk>, n: nat, c: Chunk) {
    Allocated(c) == NextAllocSize(if chain == [] then initial else chain[|chain| - 1].data.Length * 2, n)
  }

  lemma DoublingNext(chain: seq<Chunk>, n: nat, c: Chunk)
    requires Doubling(chain) && n <= MAX_CHUNK_SIZE && IsNext(DEFAULT_CHUNK_SIZE, chain, n, c)
    ensures Doubling(chain + [c])
  {
    hide IsPowerOfTwo, NextAllocSize;
    if chain == [] {
      FirstAllocation(n);
    } else {
      AllocationsDouble(Allocated(chain[|chain| - 1]), n);
    }
  }

  /** Nothing that was there has changed; the last chunk may hold more, and chunks may follow. */
  ghost predicate Grown(was: seq<Chunk>, wasFrags: seq<Fragment>, chain: seq<Chunk>, frags: seq<Fragment>)
    requires |was| == |wasFrags| && |chain| == |frags|
  {
    && |was| <= |chain| && chain[..|was|] == was
    && (forall k | 0 <= k < |was| - 1 :: frags[k] == wasFrags[k])
    && (was != [] ==> wasFrags[|was| - 1] <= frags[|was| - 1])
  }

  lemma GrownSelf(was: seq<Chunk>, wasFrags: seq<Fragment>)
    requires |was| == |wasFrags|
    ensures Grown(was, wasFrags, was, wasFrags)
  {}

  lemma GrownTransitive(a: seq<Chunk>, x: seq<Fragment>, b: seq<Chunk>, y: seq<Fragment>,
                        c: seq<Chunk>, z: seq<Fragment>)
    requires |a| == |x| && |b| == |y| && |c| == |z| && Grown(a, x, b, y) && Grown(b, y, c, z)
    ensures Grown(a, x, c, z)
  {
    assert c[..|a|] == c[..|b|][..|a|];
    if a != [] {
      var n := |a| - 1;
      assert x[n] <= y[n] && y[n] <= z[n];
    }
  }

  lemma GrownLast(was: seq<Chunk>, wasFrags: seq<Fragment>, v: Fragment)
    requires |was| == |wasFrags| > 0
    ensures Grown(was, wasFrags, was, wasFrags[|was| - 1 := wasFrags[|was| - 1] + v])
  {}

  lemma GrownNext(was: seq<Chunk>, wasFrags: seq<Fragment>, chain: seq<Chunk>, frags: seq<Fragment>,
                  c: Chunk, f: Fragment)
    requires |was| == |wasFrags| && |chain| == |frags| && Grown(was, wasFrags, chain, frags)
    ensures Grown(was, wasFrags, chain + [c], frags + [f])
  {}

  /** Every chunk but the first holds something. */
  ghost predicate Filled(frags: seq<Fragment>) {
    forall k | 0 < k < |frags| :: frags[k] != []
  }

  // ---------- positions ----------

  datatype Position = Position(chunk: Chunk?, offset: nat)

  ghost function IndexOf(chain: seq<Chunk>, c: Chunk): (k: nat)
    requires c in chain
    ensures k < |chain| && chain[k] == c
  {
    var k: nat :| k < |chain| && chain[k] == c;
    k
  }

  /** The start of the stream before its first write, or a place in a chunk up to what it holds. */
  ghost predicate Marks(p: Position, chain: seq<Chunk>, frags: seq<Fragment>)
    requires |chain| == |frags|
  {
    if p.chunk == null then p.offset == 0 else p.chunk in chain && p.offset <= |frags[IndexOf(chain, p.chunk)]|
  }

  /** How many bytes of the stream come before the position. */
  ghost function OffsetOf(p: Position, chain: seq<Chunk>, frags: seq<Fragment>): (r: nat)
    requires |chain| == |frags| && Marks(p, chain, frags)
  {
    if p.chunk == null then 0 else |Flatten(frags[..IndexOf(chain, p.chunk)])| + p.offset
  }

  /** Positions stay valid, at the same place, while the stream only grows. */
  lemma MarksKept(p: Position, was: seq<Chunk>, wasFrags: seq<Fragment>, chain: seq<Chunk>, frags: seq<Fragment>)
    requires |was| == |wasFrags| && |chain| == |frags| && Distinct(chain)
    requires Marks(p, was, wasFrags) && Grown(was, wasFrags, chain, frags)
    ensures Marks(p, chain, frags) && OffsetOf(p, chain, frags) == OffsetOf(p, was, wasFrags)
  {
    if p.chunk != null {
      var k := IndexOf(was, p.chunk);
      assert chain[k] == was[k];
      assert IndexOf(chain, p.chunk) == k;
      assert frags[..k] == wasFrags[..k];
    }
  }

  /** `q` is at or before `p`, in chain order. */
  ghost predicate Precedes(q: Position, p: Position, chain: seq<Chunk>)
    requires p.chunk == null || p.chunk in chain
    requires q.chunk == null || q.chunk in chain
  {
    || q.chunk == null
    || (p.chunk != null
        && (IndexOf(chain, q.chunk) < IndexOf(chain, p.chunk) || (q.chunk == p.chunk && q.offset <= p.offset)))
  }

  /** The chain up to and including chunk `k`, of which `n` bytes are kept. */
  ghost function CutFrags(frags: seq<Fragment>, k: nat, n: nat): (r: seq<Fragment>)
    requires k < |frags| && n <= |frags[k]|
    ensures |r| == k + 1
  {
    frags[..k] + [frags[k][..n]]
  }

  /** The chain was cut after `m` bytes of chunk `k`. */
  ghost predicate IsCut(was: seq<Chunk>, wasFrags: seq<Fragment>, k: nat, m: nat,
                        chain: seq<Chunk>, frags: seq<Fragment>)
    requires |was| == |wasFrags|
  {
    k < |was| && m <= |wasFrags[k]| && chain == was[..k + 1] && frags == CutFrags(wasFrags, k, m)
  }

  lemma CutFlattens(frags: seq<Fragment>, k: nat, n: nat)
    requires k < |frags| && n <= |frags[k]|
    ensures |Flatten(frags[..k])| + n <= |Flatten(frags)|
    ensures Flatten(CutFrags(frags, k, n)) == Flatten(frags)[..|Flatten(frags[..k])| + n]
  {
    FlattenSplit(frags, k);
    FlattenSnoc(frags[..k], frags[k][..n]);
  }

  /** Positions at or before a cut stay valid, at the same place. */
  lemma MarksCut(q: Position, p: Position, chain: seq<Chunk>, frags: seq<Fragment>)
    requires |chain| == |frags| && Distinct(chain) && Marks(p, chain, frags) && Marks(q, chain, frags)
    requires p.chunk != null && Precedes(q, p, chain)
    ensures var k := IndexOf(chain, p.chunk);
            && Marks(q, chain[..k + 1], CutFrags(frags, k, p.offset))
            && OffsetOf(q, chain[..k + 1], CutFrags(frags, k, p.offset)) == OffsetOf(q, chain, frags)
  {
    if q.chunk != null {
      var k, j := IndexOf(chain, p.chunk), IndexOf(chain, q.chunk);
      var cut := CutFrags(frags, k, p.offset);
      assert chain[..k + 1][j] == q.chunk && IndexOf(chain[..k + 1], q.chunk) == j;
      assert cut[..j] == frags[..j];
    }
  }

  lemma MarkOwned(p: Position, chain: seq<Chunk>, frags: seq<Fragment>, repr: set<object>)
    requires |chain| == |frags| && Owned(chain, repr) && Marks(p, chain, frags)
    ensures p.chunk == null || p.chunk in repr
  {}

  /** Removing a suffix leaves the positions at or before the new end valid, at the same place. */
  lemma MarksTruncated(q: Position, was: seq<Chunk>, wasFrags: seq<Fragment>, k: nat, m: nat,
                       chain: seq<Chunk>, frags: seq<Fragment>)
    requires |was| == |wasFrags| && Distinct(was) && IsCut(was, wasFrags, k, m, chain, frags)
    requires Marks(q, was, wasFrags) && Precedes(q, Position(was[k], m), was)
    ensures Marks(q, chain, frags) && OffsetOf(q, chain, frags) == OffsetOf(q, was, wasFrags)
  {
    assert IndexOf(was, was[k]) == k;
    MarksCut(q, Position(was[k], m), was, wasFrags);
  }

  /** Positions in bytes that are kept are at or before the new end, unless they stand at the very
      start of a later chunk. */
  lemma KeptPrecede(q: Position, was: seq<Chunk>, wasFrags: seq<Fragment>, k: nat, m: nat)
    requires |was| == |wasFrags| && Distinct(was) && k < |was| && m <= |wasFrags[k]|
    requires Marks(q, was, wasFrags) && OffsetOf(q, was, wasFrags) <= |Flatten(wasFrags[..k])| + m
    ensures Precedes(q, Position(was[k], m), was) <==>
              q.chunk == null || IndexOf(was, q.chunk) <= k || q.offset > 0
  {
    assert IndexOf(was, was[k]) == k;
    if q.chunk != null {
      var j := IndexOf(was, q.chunk);
      if j > k {
        FlattenStep(wasFrags, k);
        FlattenPrefix(wasFrags, k + 1, j);
      }
    }
  }

  lemma FlattenPrefix(frags: seq<Fragment>, j: nat, k: nat)
    requires j <= k <= |frags|
    ensures |Flatten(frags[..j])| <= |Flatten(frags[..k])|
  {
    assert frags[..k] == frags[..j] + frags[j..k];
    FlattenConcat(frags[..j], frags[j..k]);
  }

  /** Retracting to a position leaves the earlier ones valid, at the same place. */
  lemma MarksRetracted(q: Position, p: Position, was: seq<Chunk>, wasFrags: seq<Fragment>,
                       chain: seq<Chunk>, frags: seq<Fragment>)
    requires |was| == |wasFrags| && |chain| == |frags| && Distinct(was)
    requires Marks(p, was, wasFrags) && Marks(q, was, wasFrags) && Precedes(q, p, was)
    requires p.chunk == null ==> chain == []
    requires p.chunk != null ==>
               var k := IndexOf(was, p.chunk); chain == was[..k + 1] && frags == CutFrags(wasFrags, k, p.offset)
    ensures Marks(q, chain, frags) && OffsetOf(q, chain, frags) == OffsetOf(q, was, wasFrags)
  {
    if p.chunk != null {
      MarksCut(q, p, was, wasFrags);
    }
  }

  twostate lemma HoldingCut(chain: seq<Chunk>, new frags: seq<Fragment>, new k: nat, new n: nat)
    requires k < |chain| && Distinct(chain) && old(Holding(chain, frags)) && n <= |frags[k]|
    requires forall j | 0 <= j < k :: Kept(chain[j])
    requires chain[k].fragSize == n && chain[k].data[..] == old(chain[k].data[..])
    ensures Holding(chain[..k + 1], CutFrags(frags, k, n))
  {
    forall j | 0 <= j < k ensures chain[j].Holds(frags[j]) {
      var x := chain[j];
      assert Kept(x) && old(x.Holds(frags[j]));
      assert x.data[..x.fragSize] == x.data[..][..x.fragSize];
    }
    assert old(chain[k].Holds(frags[k]));
    assert chain[k].data[..n] == chain[k].data[..][..n] == frags[k][..n];
  }

  twostate lemma LinkedCut(chain: seq<Chunk>, new k: nat)
    requires k < |chain| && old(Linked(chain)) && chain[k].next == null
    requires forall j | 0 <= j < k :: chain[j].next == old(chain[j].next)
    ensures Linked(chain[..k + 1])
  {}

  // ---------- placeholders ----------

  /** Room for `length` bytes within a chunk, to be filled in later. */
  datatype PlaceHolder = PlaceHolder(chunk: Chunk, at: nat, length: nat)

  ghost predicate Reserved(ph: PlaceHolder, chain: seq<Chunk>, frags: seq<Fragment>)
    requires |chain| == |frags|
  {
    ph.chunk in chain && ph.at + ph.length <= |frags[IndexOf(chain, ph.chunk)]|
  }

  ghost function PlaceOf(ph: PlaceHolder, chain: seq<Chunk>, frags: seq<Fragment>): nat
    requires |chain| == |frags| && Reserved(ph, chain, frags)
  {
    |Flatten(frags[..IndexOf(chain, ph.chunk)])| + ph.at
  }

  lemma OverwriteFlattens(frags: seq<Fragment>, k: nat, at: nat, v: seq<byte>)
    requires k < |frags| && at + |v| <= |frags[k]|
    ensures |Flatten(frags[..k])| + at + |v| <= |Flatten(frags)|
    ensures Flatten(frags[k := Overwrite(frags[k], at, v)]) == Overwrite(Flatten(frags), |Flatten(frags[..k])| + at, v)
  {
    hide Overwrite, Flatten;
    FlattenSplit(frags, k);
    FlattenUpdate(frags, k, Overwrite(frags[k], at, v));
    OverwriteMiddle(Flatten(frags[..k]), frags[k], Flatten(frags[k + 1..]), at, v);
  }

  lemma OverwriteMiddle(a: seq<byte>, f: seq<byte>, c: seq<byte>, at: nat, v: seq<byte>)
    requires at + |v| <= |f|
    ensures Overwrite(a + f + c, |a| + at, v) == a + Overwrite(f, at, v) + c
  {
    var all := a + f + c;
    assert all[..|a| + at] == a + f[..at];
    assert all[|a| + at + |v|..] == f[at + |v|..] + c;
  }

  lemma OverwritePrefix(s: seq<byte>, at: nat, v: seq<byte>, m: nat)
    requires at + |v| <= m <= |s|
    ensures Overwrite(s, at, v)[..m] == Overwrite(s[..m], at, v)
    ensures m == at + |v| ==> Overwrite(s, at, v)[..m] == s[..at] + v
  {}

  /** Placeholders stay where they are while the stream only grows. */
  lemma ReservedKept(ph: PlaceHolder, was: seq<Chunk>, wasFrags: seq<Fragment>, chain: seq<Chunk>, frags: seq<Fragment>)
    requires |was| == |wasFrags| && |chain| == |frags| && Distinct(chain)
    requires Reserved(ph, was, wasFrags) && Grown(was, wasFrags, chain, frags)
    ensures Reserved(ph, chain, frags) && PlaceOf(ph, chain, frags) == PlaceOf(ph, was, wasFrags)
  {
    MarksKept(Position(ph.chunk, ph.at + ph.length), was, wasFrags, chain, frags);
  }

  /** The placeholder lies after everything that was in the stream. */
  ghost predicate Beyond(ph: PlaceHolder, was: seq<Chunk>, wasFrags: seq<Fragment>, chain: seq<Chunk>)
    requires |was| == |wasFrags| && ph.chunk in chain
  {
    var k := IndexOf(chain, ph.chunk);
    k >= |was| || (k == |was| - 1 && ph.at >= |wasFrags[k]|)
  }

  lemma GrownOverwrite(ph: PlaceHolder, v: seq<byte>, was: seq<Chunk>, wasFrags: seq<Fragment>,
                       chain: seq<Chunk>, frags: seq<Fragment>)
    requires |was| == |wasFrags| && |chain| == |frags| && Reserved(ph, chain, frags) && |v| == ph.length
    requires Grown(was, wasFrags, chain, frags) && Beyond(ph, was, wasFrags, chain)
    ensures var k := IndexOf(chain, ph.chunk);
            Grown(was, wasFrags, chain, frags[k := Overwrite(frags[k], ph.at, v)])
  {}

  twostate lemma HoldingUpdate(chain: seq<Chunk>, new frags: seq<Fragment>, new k: nat, new f: Fragment)
    requires k < |chain| && old(Holding(chain, frags))
    requires chain[k].Holds(f)
    requires forall j | 0 <= j < |chain| && j != k :: Kept(chain[j])
    ensures Holding(chain, frags[k := f])
  {
    forall j | 0 <= j < |chain| && j != k ensures chain[j].Holds(frags[j]) {
      var x := chain[j];
      assert Kept(x) && old(x.Holds(frags[j]));
      assert x.data[..x.fragSize] == x.data[..][..x.fragSize];
    }
  }

  class BytesOstream {
    var begin: Chunk?
    var current: Chunk?
    var size: nat
    var initialChunkSize: nat
    ghost var chain: seq<Chunk>
    ghost var frags: seq<Fragment>
    ghost var repr: set<object>

    /** `size` is the sum of the fragment sizes and `current` the last chunk. */
    ghost predicate Valid()
      reads this, repr
      ensures Valid() ==> this in repr && |chain| == |frags| && (current == null <==> chain == [])
      ensures Valid() ==> Distinct(chain) && Owned(chain, repr) && size == |Contents()|
      ensures Valid() && current != null ==> current in repr && current.data in repr
    {
      && this in repr && Owned(chain, repr) && Distinct(chain) && Linked(chain) && Holding(chain, frags)
      && begin == (if chain == [] then null else chain[0])
      && current == (if chain == [] then null else chain[|chain| - 1])
      && size == |Flatten(frags)|
    }

    /** The byte string the stream stands for. */
    ghost function Contents(): seq<byte>
      reads this
    {
      Flatten(frags)
    }

    constructor (initialChunkSize: nat := DEFAULT_CHUNK_SIZE)
      ensures Valid() && fresh(repr) && Contents() == [] && chain == [] && this.initialChunkSize == initialChunkSize
    {
      begin, current, size, this.initialChunkSize := null, null, 0, initialChunkSize;
      chain, frags, repr := [], [], {this};
    }

    function CurrentSpaceLeft(): (r: nat)
      requires Valid()
      reads this, repr
    {
      LastHolds(chain, frags);
      if current == null then 0 else current.data.Length - current.fragSize
    }

    /** Links a new chunk at the end of the chain. */
    method Link(c: Chunk)
      requires Valid() && c !in repr && c.data !in repr && c.next == null && c.fragSize <= c.data.Length
      modifies this, current
      ensures Valid() && repr == old(repr) + {c, c.data} && initialChunkSize == old(initialChunkSize)
      ensures chain == old(chain) + [c] && frags == old(frags) + [old(c.data[..c.fragSize])] && current == c
    {
      hide Flatten, Distinct, Linked, Holding, Owned;
      ghost var f := c.data[..c.fragSize];
      OwnedLast(chain, repr);
      if current == null {
        begin := c;
      } else {
        OthersDiffer(chain);
        current.next := c;
      }
      LinkedSnoc(chain, c);
      HoldingSnoc(chain, frags, c, f);
      DistinctSnoc(chain, c, repr);
      FlattenSnoc(frags, f);
      current := c;
      size := size + c.fragSize;
      chain, frags, repr := chain + [c], frags + [f], repr + {c, c.data};
    }

    method AllocNew(n: nat) returns (c: Chunk)
      requires Valid() && n > 0
      modifies this, current
      ensures Valid() && fresh(repr - old(repr)) && fresh(c) && fresh(c.data)
      ensures chain == old(chain) + [c] && current == c && c.fragSize == n && n <= c.data.Length
      ensures frags == old(frags) + [c.data[..n]] && initialChunkSize == old(initialChunkSize)
      ensures IsNext(initialChunkSize, old(chain), n, c)
    {
      hide NextAllocSize, Flatten, Distinct, Linked, Holding, Owned;
      var wish := if current == null then initialChunkSize else current.data.Length * 2;
      RoomForData(wish, n);
      c := new Chunk(NextAllocSize(wish, n) - CHUNK_HEADER, n);
      Link(c);
    }

    method WriteCurrent(v: seq<byte>)
      requires Valid() && v != [] && |v| <= CurrentSpaceLeft()
      modifies this`size, this`frags, current, current.data
      ensures Valid() && chain != [] && current == old(current)
      ensures frags == old(frags)[|chain| - 1 := old(frags)[|chain| - 1] + v]
    {
      hide Flatten, Distinct, Linked, Holding, Owned;
      var c, at := current, current.fragSize;
      ghost var f := frags[|chain| - 1] + v;
      OthersDiffer(chain);
      LastHolds(chain, frags);
      OverwritePrefix(c.data[..], at, v, at + |v|);
      Copy(c.data, at, v);
      c.fragSize := at + |v|;
      assert c.data[..at + |v|] == c.data[..][..at + |v|];
      HoldingLast(chain, frags, f);
      FlattenLast(frags, v);
      size := size + |v|;
      frags := frags[|chain| - 1 := f];
    }

    method WriteNew(v: seq<byte>) returns (c: Chunk)
      requires Valid() && v != []
      modifies this, current
      ensures Valid() && fresh(repr - old(repr)) && initialChunkSize == old(initialChunkSize)
      ensures chain == old(chain) + [c] && frags == old(frags) + [v] && current == c && fresh(c) && fresh(c.data)
      ensures IsNext(initialChunkSize, old(chain), |v|, c)
    {
      hide Flatten, Valid, Distinct, Linked, Holding, Owned, IsNext;
      c := AllocNew(|v|);
      FillCurrent(v);
    }

    /** Overwrites all that the current chunk holds. */
    method FillCurrent(v: seq<byte>)
      requires Valid() && chain != [] && |v| == |frags[|chain| - 1]|
      modifies this`frags, current.data
      ensures Valid() && frags == old(frags)[|chain| - 1 := v]
    {
      hide Flatten, Distinct, Linked, Holding, Owned;
      var c := current;
      OthersDiffer(chain);
      LastHolds(chain, frags);
      OverwritePrefix(c.data[..], 0, v, |v|);
      Copy(c.data, 0, v);
      assert c.data[..|v|] == c.data[..][..|v|];
      HoldingLast(chain, frags, v);
      FlattenSameSize(frags, |chain| - 1, v);
      frags := frags[|chain| - 1 := v];
    }

    /** The part of `write` that fills new chunks. */
    method WriteChunks(v: seq<byte>)
      requires Valid()
      modifies this, current
      ensures Valid() && fresh(repr - old(repr)) && initialChunkSize == old(initialChunkSize)
      ensures Contents() == old(Contents()) + v
      ensures Grown(old(chain), old(frags), chain, frags)
      ensures old(Doubling(chain)) && initialChunkSize == DEFAULT_CHUNK_SIZE ==> Doubling(chain)
      ensures Filled(old(frags)) ==> Filled(frags)
    {
      hide Flatten, Valid, Contents, Doubling, Grown, Filled;
      GrownSelf(chain, frags);
      var rest := v;
      while rest != []
        invariant Valid() && fresh(repr - old(repr)) && initialChunkSize == old(initialChunkSize)
        invariant current == old(current) || fresh(current)
        invariant old(Contents()) + v == Contents() + rest
        invariant Grown(old(chain), old(frags), chain, frags)
        invariant old(Doubling(chain)) && initialChunkSize == DEFAULT_CHUNK_SIZE ==> Doubling(chain)
        invariant Filled(old(frags)) ==> Filled(frags)
        decreases |rest|
      {
        var m := Min(|rest|, MAX_CHUNK_SIZE);
        ghost var mid, midFrags := chain, frags;
        WriteChunk(rest[..m]);
        GrownTransitive(old(chain), old(frags), mid, midFrags, chain, frags);
        assert rest == rest[..m] + rest[m..];
        rest := rest[m..];
      }
    }

    /** One more chunk. */
    method WriteChunk(v: seq<byte>)
      requires Valid() && 0 < |v| <= MAX_CHUNK_SIZE
      modifies this, current
      ensures Valid() && fresh(repr - old(repr)) && initialChunkSize == old(initialChunkSize) && fresh(current)
      ensures Contents() == old(Contents()) + v
      ensures Grown(old(chain), old(frags), chain, frags)
      ensures old(Doubling(chain)) && initialChunkSize == DEFAULT_CHUNK_SIZE ==> Doubling(chain)
      ensures Filled(old(frags)) ==> Filled(frags)
    {
      hide Flatten, Valid, Doubling, IsNext, Grown;
      GrownSelf(chain, frags);
      var c := WriteNew(v);
      FlattenSnoc(old(frags), v);
      GrownNext(old(chain), old(frags), old(chain), old(frags), c, v);
      if old(Doubling(chain)) && initialChunkSize == DEFAULT_CHUNK_SIZE { DoublingNext(old(chain), |v|, c); }
    }

    method Write(v: seq<byte>)
      requires Valid()
      modifies this, current, if current == null then {} else {current.data}
      ensures Valid() && fresh(repr - old(repr)) && initialChunkSize == old(initialChunkSize)
      ensures Contents() == old(Contents()) + v
      ensures Grown(old(chain), old(frags), chain, frags)
      ensures old(Doubling(chain)) && initialChunkSize == DEFAULT_CHUNK_SIZE ==> Doubling(chain)
      ensures Filled(old(frags)) ==> Filled(frags)
    {
      hide Flatten, Valid, Doubling, Grown;
      GrownSelf(chain, frags);
      var n := Min(|v|, CurrentSpaceLeft());
      assert n > 0 ==> current != null;
      if n > 0 {
        WriteCurrent(v[..n]);
        FlattenLast(old(frags), v[..n]);
        GrownLast(old(chain), old(frags), v[..n]);
      }
      ghost var midFrags := frags;
      WriteChunks(v[n..]);
      GrownTransitive(old(chain), old(frags), old(chain), midFrags, chain, frags);
      assert v == v[..n] + v[n..];
    }

    method Pos() returns (p: Position)
      requires Valid()
      ensures Marks(p, chain, frags) && OffsetOf(p, chain, frags) == size
      ensures forall q | Marks(q, chain, frags) :: Precedes(q, p, chain)
      ensures p == Position(current, if chain == [] then 0 else |frags[|chain| - 1]|)
    {
      p := Position(current, if current == null then 0 else current.fragSize);
      LastHolds(chain, frags);
      if current != null {
        ghost var n := |chain| - 1;
        assert IndexOf(chain, current) == n;
        FlattenSplit(frags, n);
        assert Flatten(frags[n + 1..]) == [];
      }
    }

    /** Ends the chain at chunk `c`, of which `n` bytes are kept. */
    method CutAt(c: Chunk, n: nat, newSize: nat, ghost k: nat)
      requires Valid() && k < |chain| && chain[k] == c && n <= |frags[k]| && newSize == |Flatten(frags[..k])| + n
      modifies this`size, this`current, this`chain, this`frags, c
      ensures Valid() && chain == old(chain)[..k + 1] && frags == CutFrags(old(frags), k, n)
      ensures newSize <= |old(Contents())| && Contents() == old(Contents())[..newSize]
    {
      hide Flatten, Linked, Holding, Owned;
      OwnedLast(chain, repr);
      c.next := null;
      c.fragSize := n;
      HoldingCut(chain, frags, k, n);
      LinkedCut(chain, k);
      CutFlattens(frags, k, n);
      OwnedCut(chain, repr, k);
      size, current := newSize, c;
      chain, frags := chain[..k + 1], CutFrags(frags, k, n);
    }

    method WrittenSince(p: Position) returns (total: nat)
      requires Valid() && Marks(p, chain, frags)
      ensures total == size - OffsetOf(p, chain, frags)
    {
      hide Flatten, Distinct, Holding, Owned;
      if p.chunk == null {
        return size;
      }
      ghost var k := IndexOf(chain, p.chunk);
      FlattenStep(frags, k);
      ChunkHolds(chain, frags, k);
      total := p.chunk.fragSize - p.offset;
      var c := p.chunk.next;
      ghost var j := k + 1;
      while c != null
        invariant k < j <= |chain| && c == if j < |chain| then chain[j] else null
        invariant total == |Flatten(frags[..j])| - OffsetOf(p, chain, frags)
        decreases |chain| - j
      {
        FlattenStep(frags, j);
        ChunkHolds(chain, frags, j);
        total := total + c.fragSize;
        c := c.next;
        j := j + 1;
      }
      assert frags[..j] == frags;
    }

    /** Everything written after the position is gone; going back to before the first write starts afresh. */
    method Retract(p: Position)
      requires Valid() && Marks(p, chain, frags)
      modifies this, p.chunk
      ensures Valid() && repr == old(repr)
      ensures var n := OffsetOf(p, old(chain), old(frags));
              n <= |old(Contents())| && Contents() == old(Contents())[..n]
      ensures p.chunk == null ==> chain == [] && initialChunkSize == DEFAULT_CHUNK_SIZE
      ensures p.chunk != null ==>
                var k := IndexOf(old(chain), p.chunk);
                chain == old(chain)[..k + 1] && frags == CutFrags(old(frags), k, p.offset)
    {
      hide Distinct, Holding, Owned, Linked;
      if p.chunk == null {
        NoChunks(repr);
        begin, current, size, initialChunkSize := null, null, 0, DEFAULT_CHUNK_SIZE;
        chain, frags := [], [];
        return;
      }
      var since := WrittenSince(p);
      CutAt(p.chunk, p.offset, size - since, IndexOf(chain, p.chunk));
    }

    /** The chain ends at chunk `k`, the first with which it holds enough, of which `m` bytes are kept. */
    method RemoveSuffix(n: nat) returns (ghost k: nat, ghost m: nat)
      requires Valid() && n <= size
      modifies this, repr
      ensures Valid() && repr == old(repr) && initialChunkSize == old(initialChunkSize)
      ensures Contents() == old(Contents())[..|old(Contents())| - n]
      ensures old(chain) == [] ==> chain == [] && frags == []
      ensures old(chain) != [] ==>
                && IsCut(old(chain), old(frags), k, m, chain, frags)
                && |Flatten(old(frags)[..k])| + m == |old(Contents())| - n
      ensures Filled(old(frags)) ==> Filled(frags)
    {
      hide Flatten, Distinct, Holding, Owned;
      var newSize := size - n;
      var left, c := newSize, begin;
      k, m := 0, 0;
      FlattenNothing(frags);
      while c != null
        invariant unchanged(this) && unchanged(repr)
        invariant k <= |chain| && c == if k < |chain| then chain[k] else null
        invariant 0 <= left == newSize - |Flatten(frags[..k])| && (k > 0 ==> left > 0)
        decreases |chain| - k
      {
        ChunkHolds(chain, frags, k);
        if c.fragSize >= left {
          OwnedLast(chain, repr);
          m := left;
          CutAt(c, left, newSize, k);
          return;
        }
        FlattenStep(frags, k);
        left := left - c.fragSize;
        c := c.next;
        k := k + 1;
      }
      assert frags[..k] == frags;
    }

    method Clear()
      requires Valid()
      modifies this, repr
      ensures Valid() && repr == old(repr) && Contents() == [] && initialChunkSize == old(initialChunkSize)
      ensures chain == if old(chain) == [] then [] else [old(chain)[0]]
    {
      if begin != null {
        CutAt(begin, 0, 0, 0);
      }
    }

    predicate IsLinearized()
      reads this, begin
    {
      begin == null || begin.next == null
    }

    /** Replaces the chain by one chunk that holds everything; placeholders and positions are lost. */
    method Linearize()
      requires Valid()
      modifies this
      ensures Valid() && IsLinearized() && fresh(repr - old(repr)) && Contents() == old(Contents())
      ensures old(IsLinearized()) ==> chain == old(chain)
      ensures initialChunkSize == old(initialChunkSize)
    {
      hide Flatten, Distinct, Holding, Owned;
      if IsLinearized() {
        return;
      }
      var one := CopyChunks();
      Single(one, Contents(), repr);
      begin, current := one, one;
      chain, frags, repr := [one], [Contents()], repr + {one, one.data};
    }

    /** A chunk of the size of the stream, with a copy of its contents. */
    method CopyChunks() returns (one: Chunk)
      requires Valid()
      ensures Valid() && fresh(one) && fresh(one.data)
      ensures one.next == null && one.fragSize == one.data.Length == size && one.data[..] == Contents()
    {
      hide Flatten, Distinct, Holding, Owned, Linked;
      one := new Chunk(size, size);
      var at, r := 0, begin;
      ghost var k := 0;
      FlattenNothing(frags);
      while r != null
        invariant Viewing(r, k) && one.next == null && one.fragSize == one.data.Length == size
        invariant at == |Flatten(frags[..k])| <= one.data.Length && one.data[..at] == Flatten(frags[..k])
        decreases |chain| - k
      {
        FlattenStep(frags, k);
        FlattenSplit(frags, k);
        var view, next, k' := NextView(r, k);
        OverwritePrefix(one.data[..], at, view, at + |view|);
        Copy(one.data, at, view);
        at := at + |view|;
        assert one.data[..at] == one.data[..][..at];
        r, k := next, k';
      }
      assert frags[..k] == frags;
      assert one.data[..at] == one.data[..];
    }

    method Append(o: BytesOstream)
      requires Valid() && o.Valid() && o.repr !! repr
      modifies repr
      ensures Valid() && fresh(repr - old(repr)) && Contents() == old(Contents()) + o.Contents()
      ensures Grown(old(chain), old(frags), chain, frags)
      ensures unchanged(o) && o.Valid()
      ensures Filled(old(frags)) ==> Filled(frags)
    {
      hide Flatten, Distinct, Holding, Owned, Linked, Grown, Filled;
      GrownSelf(chain, frags);
      var r := o.begin;
      ghost var k := 0;
      FlattenNothing(o.frags);
      while r != null
        invariant Valid() && fresh(repr - old(repr)) && unchanged(o.repr) && o.Viewing(r, k) && o.repr !! repr
        invariant Contents() == old(Contents()) + Flatten(o.frags[..k])
        invariant Grown(old(chain), old(frags), chain, frags)
        invariant Filled(old(frags)) ==> Filled(frags)
        decreases |o.chain| - k
      {
        FlattenStep(o.frags, k);
        ghost var mid, midFrags := chain, frags;
        r, k := AppendView(o, r, k);
        GrownTransitive(old(chain), old(frags), mid, midFrags, chain, frags);
      }
      assert o.frags[..k] == o.frags;
    }

    method AppendView(o: BytesOstream, r: Chunk?, ghost k: nat) returns (next: Chunk?, ghost k': nat)
      requires Valid() && o.Viewing(r, k) && r != null && o.repr !! repr
      modifies repr
      ensures Valid() && fresh(repr - old(repr)) && o.Viewing(next, k') && k' == k + 1 <= |o.chain|
      ensures Contents() == old(Contents()) + o.frags[k]
      ensures Grown(old(chain), old(frags), chain, frags)
      ensures Filled(old(frags)) ==> Filled(frags)
    {
      hide Flatten, Distinct, Holding, Owned, Linked, Grown, Filled;
      var view;
      view, next, k' := o.NextView(r, k);
      Write(view);
    }

    /** Makes room for `n` bytes in the current chunk. */
    method AllocCurrent(n: nat)
      requires Valid() && 0 < n <= CurrentSpaceLeft()
      modifies this`size, this`frags, current
      ensures Valid() && chain != [] && current == old(current) && size == old(size) + n
      ensures |frags[|chain| - 1]| == old(current.fragSize) + n && |old(frags)[|chain| - 1]| == old(current.fragSize)
      ensures frags == old(frags)[|chain| - 1 := old(frags)[|chain| - 1] + frags[|chain| - 1][old(current.fragSize)..]]
    {
      hide Flatten, Distinct, Linked, Holding, Owned;
      var c, at := current, current.fragSize;
      LastHolds(chain, frags);
      ghost var f := c.data[..at + n];
      assert f == frags[|chain| - 1] + f[at..];
      OthersDiffer(chain);
      c.fragSize := at + n;
      HoldingLast(chain, frags, f);
      FlattenLast(frags, f[at..]);
      size := size + n;
      frags := frags[|chain| - 1 := f];
    }

    /** `alloc`: the bytes made room for are accounted for as written, with whatever is there. */
    method WritePlaceHolder(n: nat) returns (ph: PlaceHolder, ghost junk: seq<byte>)
      requires Valid() && n > 0
      modifies this, current
      ensures Valid() && fresh(repr - old(repr)) && initialChunkSize == old(initialChunkSize)
      ensures |junk| == n && Contents() == old(Contents()) + junk
      ensures Grown(old(chain), old(frags), chain, frags)
      ensures ph.length == n && Reserved(ph, chain, frags) && PlaceOf(ph, chain, frags) == |old(Contents())|
      ensures Beyond(ph, old(chain), old(frags), chain)
      ensures n > old(CurrentSpaceLeft()) ==> frags == old(frags) + [junk]
      ensures Filled(old(frags)) ==> Filled(frags)
    {
      hide Flatten, Linked, Holding, Owned;
      if n <= CurrentSpaceLeft() {
        ph := PlaceHolder(current, current.fragSize, n);
        AllocCurrent(n);
        junk := frags[|chain| - 1][ph.at..];
        FlattenLast(old(frags), junk);
        FlattenStep(old(frags), |chain| - 1);
        assert old(frags)[..|chain|] == old(frags);
        assert frags[..|chain| - 1] == old(frags)[..|chain| - 1];
      } else {
        var c := AllocNew(n);
        ph := PlaceHolder(c, 0, n);
        junk := c.data[..n];
        FlattenSnoc(old(frags), junk);
        assert frags[..|chain| - 1] == old(frags);
      }
      assert IndexOf(chain, ph.chunk) == |chain| - 1;
    }

    /** `place_holder::set` */
    method Fill(ph: PlaceHolder, v: seq<byte>)
      requires Valid() && Reserved(ph, chain, frags) && |v| == ph.length
      modifies this`frags, ph.chunk.data
      ensures Valid() && |old(Contents())| == |Contents()| >= PlaceOf(ph, old(chain), old(frags)) + |v|
      ensures frags == var k := IndexOf(chain, ph.chunk); old(frags)[k := Overwrite(old(frags)[k], ph.at, v)]
      ensures Contents() == Overwrite(old(Contents()), PlaceOf(ph, chain, old(frags)), v)
    {
      hide Flatten, Linked, Owned, Holding, Overwrite;
      ghost var k := IndexOf(chain, ph.chunk);
      ghost var f := Overwrite(frags[k], ph.at, v);
      ChunkHolds(chain, frags, k);
      OverwriteFlattens(frags, k, ph.at, v);
      var c := ph.chunk;
      assert c.data[..c.fragSize] == c.data[..][..c.fragSize];
      OverwritePrefix(c.data[..], ph.at, v, c.fragSize);
      Copy(c.data, ph.at, v);
      assert c.data[..c.fragSize] == c.data[..][..c.fragSize];
      HoldingUpdate(chain, frags, k, f);
      frags := frags[k := f];
    }

    /** `operator==`, for streams that have been written to and on which its loop ends. */
    method Equals(o: BytesOstream) returns (r: bool)
      requires Valid() && o.Valid() && chain != [] && o.chain != []
      requires Compare(Start(frags), Start(o.frags)) != Diverges
      ensures r <==> Compare(Start(frags), Start(o.frags)) == Equal
    {
      hide Flatten, Distinct, Owned, Holding, Linked, Compare, Side.All, Side.Advance;
      var a, rest, i := NextView(begin, 0);
      var b, rest', j := o.NextView(o.begin, 0);
      while a != [] || b != []
        invariant Viewing(rest, i) && o.Viewing(rest', j)
        invariant Compare(Side(a, frags[i..]), Side(b, o.frags[j..])) == Compare(Start(frags), Start(o.frags))
        decreases Side(a, frags[i..]).Measure() + Side(b, o.frags[j..]).Measure()
      {
        var n := Min(|a|, |b|);
        CompareStep(Side(a, frags[i..]), Side(b, o.frags[j..]));
        if a[..n] != b[..n] {
          return false;
        }
        a, rest, i := AdvanceView(a, rest, i, n);
        b, rest', j := o.AdvanceView(b, rest', j, n);
      }
      CompareDone(Side(a, frags[i..]), Side(b, o.frags[j..]));
      return true;
    }

    /** `a.remove_prefix(n)`, and on to the next fragment when this one is used up. */
    method AdvanceView(a: seq<byte>, rest: Chunk?, ghost i: nat, n: nat)
      returns (a': seq<byte>, rest': Chunk?, ghost i': nat)
      requires Viewing(rest, i) && n <= |a|
      ensures Viewing(rest', i') && Side(a', frags[i'..]) == Side(a, frags[i..]).Advance(n)
    {
      hide Flatten, Distinct, Owned, Holding, Linked;
      a', rest', i' := a[n..], rest, i;
      if a' == [] && rest != null {
        a', rest', i' := NextView(rest, i);
      }
    }

    /** The fragment iterator stands before fragment `k`. */
    ghost predicate Viewing(c: Chunk?, k: nat)
      reads this, repr
    {
      Valid() && k <= |chain| && c == if k < |chain| then chain[k] else null
    }

    /** `*it++` */
    method NextView(c: Chunk?, ghost k: nat) returns (view: seq<byte>, next: Chunk?, ghost k': nat)
      requires Viewing(c, k) && c != null
      ensures Viewing(next, k') && k' == k + 1 && view == frags[k]
      ensures frags[k..] == [view] + frags[k'..]
    {
      ChunkHolds(chain, frags, k);
      view, next, k' := c.data[..c.fragSize], c.next, k + 1;
    }
  }

  /** `memcpy` */
  method Copy(a: array<byte>, at: nat, v: seq<byte>)
    requires at + |v| <= a.Length
    modifies a
    ensures a[..] == Overwrite(old(a[..]), at, v)
  {
    for k := 0 to |v|
      invariant forall j | 0 <= j < a.Length :: a[j] == if at <= j < at + k then v[j - at] else old(a[j])
    {
      a[at + k] := v[k];
    }
  }
}
