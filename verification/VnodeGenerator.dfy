/** `query_ranges_to_vnodes_generator`: ranges are split at the ring's tokens, a batch at a time. */
module VnodeGenerator {
  import opened Wrappers
  import opened RingRanges

  /** Walks the ring's tokens from a given one on.  Vnode tokens go round to the ones before it, tablets
      end with the ring. */
  class TokenRangeSplitter {
    const sorted: seq<int>
    const wraps: bool
    var cur: nat
    var remaining: nat
    ghost var ahead: seq<int>

    ghost predicate Valid()
      reads this
      ensures Valid() ==> sorted != [] && Ascending(sorted)
    {
      && sorted != [] && Ascending(sorted) && |ahead| == remaining <= |sorted|
      && (remaining > 0 ==> cur < |sorted|)
      && forall j | 0 <= j < remaining :: ahead[j] == sorted[if cur + j < |sorted| then cur + j else cur + j - |sorted|]
    }

    constructor (sorted: seq<int>, wraps: bool)
      requires sorted != [] && Ascending(sorted)
      ensures Valid() && this.sorted == sorted
    {
      this.sorted, this.wraps, cur, remaining, ahead := sorted, wraps, 0, |sorted|, sorted;
    }

    /** `std::lower_bound` */
    method LowerBound(from: int) returns (k: nat)
      requires Ascending(sorted)
      ensures k <= |sorted|
      ensures (forall j | 0 <= j < k :: sorted[j] < from) && (forall j | k <= j < |sorted| :: sorted[j] >= from)
    {
      var lo, hi := 0, |sorted|;
      while lo < hi
        invariant 0 <= lo <= hi <= |sorted|
        invariant (forall j | 0 <= j < lo :: sorted[j] < from) && (forall j | hi <= j < |sorted| :: sorted[j] >= from)
      {
        var mid := (lo + hi) / 2;
        if sorted[mid] < from {
          lo := mid + 1;
        } else {
          hi := mid;
        }
      }
      return lo;
    }

    method Reset(from: int)
      requires Valid()
      modifies this
      ensures Valid() && RingOrder(sorted, from, ahead)
    {
      var k := LowerBound(from);
      if wraps {
        cur, remaining := if k == |sorted| then 0 else k, |sorted|;
        ahead := sorted[k..] + sorted[..k];
      } else {
        cur, remaining := k, |sorted| - k;
        ahead := sorted[k..];
      }
      assert WalksFrom(sorted, from, ahead, k);
    }

    method NextToken() returns (r: Option<int>)
      requires Valid()
      modifies this
      ensures Valid()
      ensures if old(ahead) == [] then r.None? && ahead == []
              else r == Some(old(ahead)[0]) && ahead == old(ahead)[1..]
    {
      if remaining == 0 {
        return None;
      }
      r := Some(sorted[cur]);
      cur := if cur + 1 == |sorted| then 0 else cur + 1;
      remaining := remaining - 1;
      ahead := ahead[1..];
    }
  }

  const MAX_BATCH := 1024

  class QueryRangesToVnodes {
    const local: bool
    const splitter: TokenRangeSplitter
    var ranges: seq<Range>
    var i: nat

    ghost predicate Valid()
      reads this, splitter
    {
      splitter.Valid() && i <= |ranges|
    }

    /** What the generator has yet to return. */
    ghost function Todo(): seq<Range>
      requires Valid()
      reads this, splitter
    {
      if local then ranges[i..] else DueAll(ranges[i..], splitter.sorted)
    }

    constructor (splitter: TokenRangeSplitter, ranges: seq<Range>, local: bool)
      requires splitter.Valid()
      ensures Valid() && this.splitter == splitter && this.local == local && this.ranges == ranges
      ensures Todo() == if local then ranges else DueAll(ranges, splitter.sorted)
    {
      this.splitter, this.ranges, this.local, i := splitter, ranges, local, 0;
      assert ranges[0..] == ranges;
    }

    predicate Empty()
      reads this
    {
      i == |ranges|
    }

    /** Splits off pieces until the range is done or `room` of them are there; `cr` is what remains of it. */
    method SplitRange(r: Range, room: nat) returns (made: seq<Range>, cr: Range)
      requires Valid() && room > 0 && StartToken(r) != EndToken(r)
      modifies splitter
      ensures Valid() && |made| <= room
      ensures made + (if |made| < room then [cr] else SplitBy(cr, splitter.sorted)) == SplitBy(r, splitter.sorted)
      ensures |made| == room ==> StartToken(cr) != EndToken(cr)
    {
      hide SplitBy, RingOrder, Ascending, TokenRangeSplitter.Valid, Position.Before, Position.AtOrBefore, View,
        Range.StartView, Range.EndView, Range.Left, Range.Right;
      made, cr := [], r;
      var from := StartToken(cr);
      splitter.Reset(from);
      ghost var ring, tokens, k, all := splitter.sorted, splitter.ahead, 0, SplitBy(r, splitter.sorted);
      RingOrderSplits(cr, ring, from, tokens);
      assert tokens[0..] == tokens;
      while true
        invariant splitter.Valid() && k <= |tokens| && splitter.ahead == tokens[k..]
        invariant from <= StartToken(cr) && |made| < room
        invariant made + SplitBy(cr, tokens[k..]) == all
        decreases |splitter.ahead|
      {
        var token := splitter.NextToken();
        assert k < |tokens| ==> tokens[k..][0] == tokens[k] && tokens[k..][1..] == tokens[k + 1..];
        if token.None? {
          SkipBeyond(cr, []);
          break;
        }
        AtToken(made, cr, ring, from, tokens, k);
        var splitPoint := EndOf(token.value);
        if cr.EndView().AtOrBefore(View(splitPoint, false)) {
          break;
        }
        k := k + 1;
        if View(splitPoint, false).AtOrBefore(cr.StartView()) {
          continue;
        }
        made := made + [cr.Left(splitPoint)];
        cr := cr.Right(splitPoint);
        if |made| == room {
          break;
        }
      }
    }

    method ProcessOneRange(n: nat, result: seq<Range>) returns (more: seq<Range>)
      requires Valid() && i < |ranges| && |result| < n
      modifies this, splitter
      ensures Valid() && |ranges| == |old(ranges)|
      ensures |result| <= |more| <= n && more[..|result|] == result && more[|result|..] + Todo() == old(Todo())
      ensures i == old(i) + 1 || (i == old(i) && |more| == n)
    {
      hide SplitBy;
      var cr := ranges[i];
      ghost var rest := ranges[i + 1..];
      assert ranges[i..] == [cr] + rest;
      if local || (StartToken(cr) == EndToken(cr) && StartToken(cr) != MINIMUM_TOKEN) {
        i := i + 1;
        return result + [cr];
      }
      if StartToken(cr) == EndToken(cr) {
        i := i + 1;
        return result;
      }
      var made, left := SplitRange(cr, n - |result|);
      more := result + made;
      ranges := ranges[i := left];
      assert ranges[i..] == [left] + rest;
      if |more| < n {
        i := i + 1;
        more := more + [left];
      }
    }

    /** The next batch.  A batch of less than `n` (or the cap) pieces is the last one. */
    method Generate(n: nat) returns (result: seq<Range>)
      requires Valid()
      modifies this, splitter
      ensures Valid() && result + Todo() == old(Todo())
      ensures |result| <= n && |result| <= MAX_BATCH
      ensures |result| < n && |result| < MAX_BATCH ==> Empty()
    {
      hide Todo, DueAll, TokenRangeSplitter.Valid;
      var cap := if n < MAX_BATCH then n else MAX_BATCH;
      result := [];
      while i != |ranges| && |result| != cap
        invariant Valid() && |result| <= cap && |ranges| == |old(ranges)|
        invariant result + Todo() == old(Todo())
        decreases |ranges| - i, cap - |result|
      {
        ghost var before := result;
        result := ProcessOneRange(cap, result);
        assert result == before + result[|before|..];
        assert before + (result[|before|..] + Todo()) == result + Todo();
      }
    }
  }

  function Concat(batches: seq<seq<Range>>): seq<Range> {
    if batches == [] then [] else Concat(batches[..|batches| - 1]) + batches[|batches| - 1]
  }

  /** Batches of any sizes, one after the other, are a prefix of what was to be returned. */
  method Collect(g: QueryRangesToVnodes, sizes: seq<nat>) returns (batches: seq<seq<Range>>)
    requires g.Valid()
    modifies g, g.splitter
    ensures g.Valid() && |batches| == |sizes| && Concat(batches) + g.Todo() == old(g.Todo())
    ensures forall k | 0 <= k < |sizes| :: |batches[k]| <= sizes[k] && |batches[k]| <= MAX_BATCH
  {
    hide QueryRangesToVnodes.Todo, QueryRangesToVnodes.Valid;
    batches := [];
    assert Concat([]) == [];
    for k := 0 to |sizes|
      invariant g.Valid() && |batches| == k && Concat(batches) + g.Todo() == old(g.Todo())
      invariant forall j | 0 <= j < k :: |batches[j]| <= sizes[j] && |batches[j]| <= MAX_BATCH
    {
      ghost var before := batches;
      var b := g.Generate(sizes[k]);
      batches := batches + [b];
      assert batches[..k] == before;
      assert Concat(before) + (b + g.Todo()) == (Concat(before) + b) + g.Todo();
    }
  }

  /** With a positive size, asking until the generator is empty ends, with everything returned. */
  method Drain(g: QueryRangesToVnodes, n: nat) returns (all: seq<Range>)
    requires g.Valid() && n > 0
    modifies g, g.splitter
    ensures g.Valid() && g.Empty() && all == old(g.Todo())
  {
    hide QueryRangesToVnodes.Todo, QueryRangesToVnodes.Valid, DueAll;
    all := [];
    while !g.Empty()
      invariant g.Valid() && all + g.Todo() == old(g.Todo())
      decreases |g.Todo()|, if g.Empty() then 0 else 1
    {
      ghost var before := all;
      var b := g.Generate(n);
      assert before + (b + g.Todo()) == (before + b) + g.Todo();
      all := all + b;
    }
    NothingTodo(g);
  }

  lemma NothingTodo(g: QueryRangesToVnodes)
    requires g.Valid() && g.Empty()
    ensures g.Todo() == []
  {
    assert g.ranges[g.i..] == [];
  }
}
