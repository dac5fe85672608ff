/** Fragmented byte strings as values, and what the chunk-by-chunk comparison of two of them decides. */
module Fragments {
  import opened Integers

  type Fragment = seq<byte>

  function Flatten(fs: seq<Fragment>): seq<byte> {
    if fs == [] then [] else Flatten(fs[..|fs| - 1]) + fs[|fs| - 1]
  }

  lemma {:induction false} FlattenConcat(a: seq<Fragment>, b: seq<Fragment>)
    ensures Flatten(a + b) == Flatten(a) + Flatten(b)
  {
    if b == [] {
      assert a + b == a;
    } else {
      hide Flatten;
      var n := |b| - 1;
      FlattenConcat(a, b[..n]);
      FlattenSnoc(a + b[..n], b[n]);
      FlattenSnoc(b[..n], b[n]);
      assert a + b == a + b[..n] + [b[n]] && b == b[..n] + [b[n]];
    }
  }

  lemma FlattenSnoc(fs: seq<Fragment>, f: Fragment)
    ensures Flatten(fs + [f]) == Flatten(fs) + f
  {
    assert (fs + [f])[..|fs|] == fs;
  }

  lemma FlattenStep(fs: seq<Fragment>, k: nat)
    requires k < |fs|
    ensures Flatten(fs[..k + 1]) == Flatten(fs[..k]) + fs[k]
  {
    assert fs[..k + 1][..k] == fs[..k];
  }

  lemma FlattenNothing(fs: seq<Fragment>)
    ensures Flatten(fs[..0]) == []
  {}

  lemma FlattenLast(fs: seq<Fragment>, v: Fragment)
    requires fs != []
    ensures Flatten(fs[|fs| - 1 := fs[|fs| - 1] + v]) == Flatten(fs) + v
  {
    var n := |fs| - 1;
    assert fs[n := fs[n] + v][..n] == fs[..n];
    assert Flatten(fs[..n]) + (fs[n] + v) == (Flatten(fs[..n]) + fs[n]) + v;
  }

  lemma FlattenCons(f: Fragment, fs: seq<Fragment>)
    ensures Flatten([f] + fs) == f + Flatten(fs)
  {
    FlattenConcat([f], fs);
    assert Flatten([f]) == Flatten([]) + f;
  }

  /** Replacing a fragment replaces its stretch. */
  lemma FlattenUpdate(fs: seq<Fragment>, k: nat, f: Fragment)
    requires k < |fs|
    ensures Flatten(fs[k := f]) == Flatten(fs[..k]) + f + Flatten(fs[k + 1..])
  {
    assert fs[k := f] == fs[..k] + ([f] + fs[k + 1..]);
    FlattenConcat(fs[..k], [f] + fs[k + 1..]);
    FlattenCons(f, fs[k + 1..]);
  }

  lemma FlattenSplit(fs: seq<Fragment>, k: nat)
    requires k < |fs|
    ensures Flatten(fs) == Flatten(fs[..k]) + fs[k] + Flatten(fs[k + 1..])
  {
    FlattenUpdate(fs, k, fs[k]);
    assert fs[k := fs[k]] == fs;
  }

  lemma FlattenSameSize(fs: seq<Fragment>, k: nat, f: Fragment)
    requires k < |fs| && |f| == |fs[k]|
    ensures |Flatten(fs[k := f])| == |Flatten(fs)|
  {
    FlattenUpdate(fs, k, f);
    FlattenSplit(fs, k);
  }

  // ---------- comparison ----------

  /** One side of the comparison: what is left of the current fragment, and the fragments to come. */
  datatype Side = Side(now: Fragment, next: seq<Fragment>) {
    function All(): seq<byte> {
      now + Flatten(next)
    }

    /** Takes `n` bytes off; a fragment that is used up is replaced by the next one. */
    function Advance(n: nat): Side
      requires n <= |now|
    {
      if n == |now| && next != [] then Side(next[0], next[1..]) else Side(now[n..], next)
    }

    /** `k` bytes further on, the current fragment is empty. */
    predicate StopsAt(k: nat)
      decreases |next|
    {
      || (now == [] && k == 0)
      || if next == [] then k == |now| else k >= |now| && Side(next[0], next[1..]).StopsAt(k - |now|)
    }

    function Measure(): nat {
      |All()| + |next|
    }
  }

  function Start(fs: seq<Fragment>): Side
    requires fs != []
  {
    Side(fs[0], fs[1..])
  }

  datatype Comparison = Equal | Different | Diverges

  function Min(a: nat, b: nat): nat {
    if a < b then a else b
  }

  lemma AdvanceShrinks(s: Side, n: nat)
    requires n <= |s.now|
    ensures s.Advance(n).All() == s.All()[n..]
    ensures s.Advance(n) == s || s.Advance(n).Measure() < s.Measure()
  {
    if n == |s.now| && s.next != [] {
      assert s.next == [s.next[0]] + s.next[1..];
      FlattenCons(s.next[0], s.next[1..]);
      assert s.All()[n..] == Flatten(s.next);
    } else {
      assert s.All()[n..] == s.now[n..] + Flatten(s.next);
    }
  }

  /** The comparison loop of `operator==`; it diverges when an iteration changes nothing. */
  function Compare(a: Side, b: Side): Comparison
    decreases a.Measure() + b.Measure()
  {
    if a.now == [] && b.now == [] then Equal
    else
      var n := Min(|a.now|, |b.now|);
      if a.now[..n] != b.now[..n] then Different
      else
        AdvanceShrinks(a, n);
        AdvanceShrinks(b, n);
        if a.Advance(n) == a && b.Advance(n) == b then Diverges
        else Compare(a.Advance(n), b.Advance(n))
  }

  lemma CompareStep(a: Side, b: Side)
    requires a.now != [] || b.now != []
    ensures var n := Min(|a.now|, |b.now|);
            if a.now[..n] != b.now[..n] then Compare(a, b) == Different
            else Compare(a, b) != Diverges ==>
                   && Compare(a, b) == Compare(a.Advance(n), b.Advance(n))
                   && a.Advance(n).Measure() + b.Advance(n).Measure() < a.Measure() + b.Measure()
  {
    var n := Min(|a.now|, |b.now|);
    AdvanceShrinks(a, n);
    AdvanceShrinks(b, n);
  }

  lemma CompareDone(a: Side, b: Side)
    requires a.now == [] && b.now == []
    ensures Compare(a, b) == Equal
  {}

  /** The first `k` bytes are there and the same. */
  predicate Agree(x: seq<byte>, y: seq<byte>, k: nat) {
    k <= |x| && k <= |y| && x[..k] == y[..k]
  }

  /** Both sides are at an empty fragment `k` bytes on, having agreed so far. */
  ghost predicate StopTogether(a: Side, b: Side, k: nat) {
    a.StopsAt(k) && b.StopsAt(k) && Agree(a.All(), b.All(), k)
  }

  /** The comparison's outcome in every case: it says "equal" when the strings agree up to a point
      where both sides have an empty fragment or end, and does not end if it gets to the end of a
      strict prefix. */
  lemma {:induction false} CompareDecides(a: Side, b: Side)
    ensures Compare(a, b) == Equal <==> exists k: nat :: StopTogether(a, b, k)
    ensures Compare(a, b) == Diverges <==>
              StrictPrefix(a, b) && !exists k: nat :: StopTogether(a, b, k)
    decreases a.Measure() + b.Measure()
  {
    hide StopTogether, Side.All, Side.Advance, Side.Measure;
    if a.now == [] && b.now == [] {
      StoppedTogether(a, b);
    } else {
      var n := Min(|a.now|, |b.now|);
      if a.now[..n] != b.now[..n] {
        Disagree(a, b, n);
      } else {
        AdvanceShrinks(a, n);
        AdvanceShrinks(b, n);
        var a', b' := a.Advance(n), b.Advance(n);
        if a' == a && b' == b {
          Stuck(a, b);
        } else {
          Resume(a, b, n);
          SameOrder(a, b, n);
          CompareDecides(a', b');
        }
      }
    }
  }

  ghost predicate StrictPrefix(a: Side, b: Side) {
    a.All() < b.All() || b.All() < a.All()
  }

  lemma SameOrder(a: Side, b: Side, n: nat)
    requires n == Min(|a.now|, |b.now|) && a.now[..n] == b.now[..n]
    ensures StrictPrefix(a, b) <==> StrictPrefix(a.Advance(n), b.Advance(n))
  {
    AdvanceShrinks(a, n);
    AdvanceShrinks(b, n);
    var p, x, y := a.now[..n], a.All()[n..], b.All()[n..];
    assert a.All() == p + x && b.All() == p + y;
    PrefixCancels(p, x, y);
    PrefixCancels(p, y, x);
  }

  lemma PrefixCancels(p: seq<byte>, x: seq<byte>, y: seq<byte>)
    ensures p + x < p + y <==> x < y
  {
    if |x| < |y| {
      var n := |p| + |x|;
      assert (p + y)[..n] == p + y[..|x|];
      assert p + x == p + y[..|x|] <==> x == y[..|x|] by {
        assert (p + x)[|p|..] == x && (p + y[..|x|])[|p|..] == y[..|x|];
      }
    }
  }

  /** An iteration that changes nothing has one side at its end and the other not. */
  lemma Stuck(a: Side, b: Side)
    requires a.now != [] || b.now != []
    requires var n := Min(|a.now|, |b.now|); a.Advance(n) == a && b.Advance(n) == b
    ensures StrictPrefix(a, b)
    ensures !exists k: nat :: StopTogether(a, b, k)
  {}

  lemma StoppedTogether(a: Side, b: Side)
    requires a.now == [] && b.now == []
    ensures StopTogether(a, b, 0)
  {}

  lemma Disagree(a: Side, b: Side, n: nat)
    requires n == Min(|a.now|, |b.now|) && a.now[..n] != b.now[..n]
    ensures !exists k: nat :: StopTogether(a, b, k)
    ensures !StrictPrefix(a, b)
  {
    assert a.All()[..n] == a.now[..n] && b.All()[..n] == b.now[..n];
    forall k: nat | n <= k <= |a.All()| && k <= |b.All()| ensures a.All()[..k] != b.All()[..k] {
      assert a.All()[..k][..n] == a.All()[..n] && b.All()[..k][..n] == b.All()[..n];
    }
  }

  lemma Shift(s: Side, n: nat, k: nat)
    requires n <= |s.now| && (s.now != [] || k > 0)
    ensures s.StopsAt(n + k) <==> s.Advance(n).StopsAt(k)
  {}

  lemma ResumeAt(a: Side, b: Side, n: nat, k: nat)
    requires n == Min(|a.now|, |b.now|) && a.now[..n] == b.now[..n] && (a.now != [] || b.now != [])
    ensures StopTogether(a, b, n + k) <==> StopTogether(a.Advance(n), b.Advance(n), k)
  {
    hide Side.StopsAt, Side.All, Side.Advance, Agree;
    ResumeStops(a, b, n, k);
    ResumeAgrees(a, b, n, k);
  }

  lemma ResumeStops(a: Side, b: Side, n: nat, k: nat)
    requires n == Min(|a.now|, |b.now|) && (a.now != [] || b.now != [])
    ensures a.StopsAt(n + k) && b.StopsAt(n + k) <==> a.Advance(n).StopsAt(k) && b.Advance(n).StopsAt(k)
  {
    if a.now != [] || k > 0 { Shift(a, n, k); }
    if b.now != [] || k > 0 { Shift(b, n, k); }
  }

  lemma ResumeAgrees(a: Side, b: Side, n: nat, k: nat)
    requires n == Min(|a.now|, |b.now|) && a.now[..n] == b.now[..n]
    ensures Agree(a.All(), b.All(), n + k) <==> Agree(a.Advance(n).All(), b.Advance(n).All(), k)
  {
    AdvanceShrinks(a, n);
    AdvanceShrinks(b, n);
    assert a.All()[..n] == a.now[..n] && b.All()[..n] == b.now[..n];
    AgreeShifts(a.All(), b.All(), n, k);
  }

  lemma AgreeShifts(x: seq<byte>, y: seq<byte>, n: nat, k: nat)
    requires n <= |x| && n <= |y| && x[..n] == y[..n]
    ensures Agree(x, y, n + k) <==> Agree(x[n..], y[n..], k)
  {
    if n + k <= |x| && n + k <= |y| {
      assert x[..n + k] == x[..n] + x[n..][..k] && y[..n + k] == y[..n] + y[n..][..k];
    }
  }

  /** Bytes on which both sides agree change nothing about where they stop together. */
  lemma Resume(a: Side, b: Side, n: nat)
    requires n == Min(|a.now|, |b.now|) && a.now[..n] == b.now[..n] && (a.now != [] || b.now != [])
    ensures (exists k: nat :: StopTogether(a, b, k)) <==> (exists k: nat :: StopTogether(a.Advance(n), b.Advance(n), k))
  {
    hide StopTogether;
    forall k: nat | k >= n ensures StopTogether(a, b, k) <==> StopTogether(a.Advance(n), b.Advance(n), k - n) {
      ResumeAt(a, b, n, k - n);
    }
    forall k: nat ensures StopTogether(a, b, n + k) <==> StopTogether(a.Advance(n), b.Advance(n), k) {
      ResumeAt(a, b, n, k);
    }
    forall k: nat | StopTogether(a, b, k) ensures k >= n {
      StopsLater(a, b, k);
    }
  }

  lemma StopsLater(a: Side, b: Side, k: nat)
    requires StopTogether(a, b, k)
    ensures k >= |a.now| && k >= |b.now|
  {}

  // ---------- when the comparison is right ----------

  predicate NoEmptyFragment(fs: seq<Fragment>) {
    forall k | 0 <= k < |fs| :: fs[k] != []
  }

  /** Without empty fragments a side stops only at its end. */
  lemma {:induction false} StopsAtEnd(s: Side, k: nat)
    requires s.StopsAt(k) && NoEmptyFragment(s.next) && (s.now == [] ==> s.next == [])
    ensures k == |s.All()|
    decreases |s.next|
  {
    if s.next != [] {
      assert s.next == [s.next[0]] + s.next[1..];
      FlattenCons(s.next[0], s.next[1..]);
      StopsAtEnd(Side(s.next[0], s.next[1..]), k - |s.now|);
    }
  }

  lemma {:induction false} EndStops(s: Side)
    ensures s.StopsAt(|s.All()|)
    decreases |s.next|
  {
    if s.next != [] {
      assert s.next == [s.next[0]] + s.next[1..];
      FlattenCons(s.next[0], s.next[1..]);
      EndStops(Side(s.next[0], s.next[1..]));
    }
  }

  /** For streams of equal size the comparison ends, and it is right if either of them has no empty
      fragment, however each is chunked. */
  lemma CompareIsEquality(fs: seq<Fragment>, gs: seq<Fragment>)
    requires fs != [] && gs != [] && |Flatten(fs)| == |Flatten(gs)|
    requires NoEmptyFragment(fs) || NoEmptyFragment(gs)
    ensures Compare(Start(fs), Start(gs)) == if Flatten(fs) == Flatten(gs) then Equal else Different
  {
    var a, b := Start(fs), Start(gs);
    AllOf(fs);
    AllOf(gs);
    CompareDecides(a, b);
    EndStops(a);
    EndStops(b);
    if Flatten(fs) == Flatten(gs) {
      assert StopTogether(a, b, |a.All()|);
    } else {
      forall k: nat | StopTogether(a, b, k) ensures k == |a.All()| {
        if NoEmptyFragment(fs) { StopsAtEnd(a, k); } else { StopsAtEnd(b, k); }
      }
      assert a.All()[..|a.All()|] == a.All() && b.All()[..|a.All()|] == b.All();
    }
  }

  lemma AllOf(fs: seq<Fragment>)
    requires fs != []
    ensures Start(fs).All() == Flatten(fs)
  {
    assert fs == [fs[0]] + fs[1..];
    FlattenCons(fs[0], fs[1..]);
  }

  /** Without empty fragments it ends exactly if neither is a strict prefix of the other. */
  lemma CompareEnds(fs: seq<Fragment>, gs: seq<Fragment>)
    requires fs != [] && gs != [] && NoEmptyFragment(fs) && NoEmptyFragment(gs)
    ensures Compare(Start(fs), Start(gs)) == Diverges <==> Flatten(fs) < Flatten(gs) || Flatten(gs) < Flatten(fs)
  {
    var a, b := Start(fs), Start(gs);
    AllOf(fs);
    AllOf(gs);
    CompareDecides(a, b);
    forall k: nat | StopTogether(a, b, k) ensures |a.All()| == |b.All()| {
      StopsAtEnd(a, k);
      StopsAtEnd(b, k);
    }
  }

  /** Two streams that both start with an empty fragment are "equal" whatever follows. */
  lemma EmptyFragmentsHideTheRest(fs: seq<Fragment>, gs: seq<Fragment>)
    requires fs != [] && gs != [] && fs[0] == [] && gs[0] == []
    ensures Compare(Start(fs), Start(gs)) == Equal
  {}
}
