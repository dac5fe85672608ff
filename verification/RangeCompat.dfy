/** `partition_range_compat`: lists of intervals that may wrap around the ring, and lists that do not. */
module RangeCompat {
  import opened Wrappers

  datatype Bound = Bound(value: int, inclusive: bool)

  datatype Interval = Between(low: Option<Bound>, high: Option<Bound>) | Singular(value: int) {
    function Start(): Option<Bound> {
      if Singular? then Some(Bound(value, true)) else low
    }

    function End(): Option<Bound> {
      if Singular? then Some(Bound(value, true)) else high
    }

    /** `is_wrap_around`: the end comes before the start, or at it without including both. */
    predicate Wraps() {
      && Between? && low.Some? && high.Some?
      && (high.value.value < low.value.value
          || (high.value.value == low.value.value && !(low.value.inclusive && high.value.inclusive)))
    }

    /** The interval does not wrap around and the point is not before or after it. */
    predicate Inside(x: int) {
      && (Start().Some? ==> Start().value.value < x || (Start().value.value == x && Start().value.inclusive))
      && (End().Some? ==> x < End().value.value || (End().value.value == x && End().value.inclusive))
    }

    predicate Contains(x: int) {
      if Wraps() then First().Inside(x) || Second().Inside(x) else Inside(x)
    }

    /** `unwrap` of one interval: from the beginning to its end, and from its start on. */
    function First(): Interval {
      Between(None, End())
    }

    function Second(): Interval {
      Between(Start(), None)
    }

    function Rear(): Interval {
      if Wraps() then Second() else this
    }

    /** `other_is_before`, seen from the other interval: all of this one comes before all of `o`,
        in any order of values. */
    predicate EndsBefore(o: Interval) {
      && End().Some? && o.Start().Some?
      && (|| End().value.value < o.Start().value.value
          || (End().value.value == o.Start().value.value && !(End().value.inclusive && o.Start().value.inclusive)))
    }

    /** Order by left bound. */
    predicate StartsAtOrBefore(o: Interval) {
      || Start().None?
      || (o.Start().Some?
          && (Start().value.value < o.Start().value.value
              || (&& Start().value.value == o.Start().value.value
                  && (Start().value.inclusive || !o.Start().value.inclusive))))
    }
  }

  predicate Covered(v: seq<Interval>, x: int) {
    exists k | 0 <= k < |v| :: v[k].Contains(x)
  }

  predicate NoneWraps(v: seq<Interval>) {
    forall k | 0 <= k < |v| :: !v[k].Wraps()
  }

  predicate SortedByStart(v: seq<Interval>) {
    forall a, b | 0 <= a < b < |v| :: v[a].StartsAtOrBefore(v[b])
  }

  // ---------- unwrapping ----------

  /** The first parts of the intervals that wrap, the last one first. */
  function Fronts(v: seq<Interval>): seq<Interval> {
    if v == [] then []
    else
      var n := |v| - 1;
      (if v[n].Wraps() then [v[n].First()] else []) + Fronts(v[..n])
  }

  function Rears(v: seq<Interval>): (r: seq<Interval>)
    ensures |r| == |v| && forall k | 0 <= k < |v| :: r[k] == v[k].Rear()
  {
    seq(|v|, k requires 0 <= k < |v| => v[k].Rear())
  }

  method Unwrap(v: seq<Interval>) returns (ret: seq<Interval>)
    ensures ret == Fronts(v) + Rears(v)
  {
    hide Fronts, Rears, Interval.Wraps, Interval.First, Interval.Second;
    ret := [];
    NoParts();
    for k := 0 to |v|
      invariant ret == Fronts(v[..k]) + Rears(v[..k])
    {
      MoreParts(v[..k], v[k]);
      assert v[..k + 1] == v[..k] + [v[k]];
      if v[k].Wraps() {
        ret := [v[k].First()] + ret;
        ret := ret + [v[k].Second()];
      } else {
        ret := ret + [v[k]];
      }
    }
    assert v[..|v|] == v;
  }

  lemma NoParts()
    ensures Fronts([]) == [] && Rears([]) == []
  {}

  lemma MoreParts(v: seq<Interval>, i: Interval)
    ensures Fronts(v + [i]) == (if i.Wraps() then [i.First()] else []) + Fronts(v)
    ensures Rears(v + [i]) == Rears(v) + [i.Rear()]
  {
    assert (v + [i])[..|v|] == v;
  }

  lemma {:induction false} FrontsAre(v: seq<Interval>)
    ensures forall f | f in Fronts(v) ::
              f.Start() == None && !f.Wraps() && exists k | 0 <= k < |v| :: v[k].Wraps() && f == v[k].First()
    ensures forall k | 0 <= k < |v| && v[k].Wraps() :: v[k].First() in Fronts(v)
  {
    if v != [] {
      var n := |v| - 1;
      FrontsAre(v[..n]);
      forall f | f in Fronts(v)
        ensures f.Start() == None && !f.Wraps() && exists k | 0 <= k < |v| :: v[k].Wraps() && f == v[k].First()
      {
        if f in Fronts(v[..n]) {
          var k :| 0 <= k < n && v[..n][k].Wraps() && f == v[..n][k].First();
          assert v[k].Wraps() && f == v[k].First();
        } else {
          assert v[n].Wraps() && f == v[n].First();
        }
      }
      forall k | 0 <= k < |v| && v[k].Wraps() ensures v[k].First() in Fronts(v) {
        if k < n {
          assert v[..n][k].First() in Fronts(v[..n]);
        }
      }
    }
  }

  /** Unwrapping keeps exactly the points covered, and nothing wraps any more. */
  lemma UnwrapCovers(v: seq<Interval>, x: int)
    ensures NoneWraps(Fronts(v) + Rears(v))
    ensures Covered(Fronts(v) + Rears(v), x) <==> Covered(v, x)
  {
    var fs, rs := Fronts(v), Rears(v);
    var u := fs + rs;
    hide Fronts, Interval.Inside, Interval.First, Interval.Second;
    FrontsAre(v);
    forall k | 0 <= k < |u| ensures !u[k].Wraps() && (u[k].Contains(x) ==> Covered(v, x)) {
      if k < |fs| {
        assert fs[k] in fs;
        var j :| 0 <= j < |v| && v[j].Wraps() && fs[k] == v[j].First();
        PartsOf(v[j], x);
        assert u[k].Contains(x) ==> v[j].Contains(x);
      } else {
        PartsOf(v[k - |fs|], x);
        assert u[k].Contains(x) ==> v[k - |fs|].Contains(x);
      }
    }
    forall j | 0 <= j < |v| && v[j].Contains(x) ensures Covered(u, x) {
      PartsOf(v[j], x);
      if v[j].Wraps() && v[j].First().Contains(x) {
        var k :| 0 <= k < |fs| && fs[k] == v[j].First();
        assert u[k].Contains(x);
      } else {
        assert u[|fs| + j].Contains(x);
      }
    }
  }

  lemma PartsOf(i: Interval, x: int)
    ensures !i.First().Wraps() && !i.Rear().Wraps()
    ensures i.Contains(x) <==> (i.Wraps() && i.First().Contains(x)) || i.Rear().Contains(x)
  {}

  /** A list sorted by left bound stays sorted. */
  lemma UnwrapKeepsOrder(v: seq<Interval>)
    requires SortedByStart(v)
    ensures SortedByStart(Fronts(v) + Rears(v))
  {
    hide Fronts, Interval.Wraps;
    var fs, rs := Fronts(v), Rears(v);
    var u := fs + rs;
    FrontsAre(v);
    forall a, b | 0 <= a < b < |u| ensures u[a].StartsAtOrBefore(u[b]) {
      if a < |fs| {
        assert fs[a] in fs;
      } else {
        assert v[a - |fs|].StartsAtOrBefore(v[b - |fs|]);
      }
    }
  }

  // ---------- wrapping ----------

  /** Open at both ends of the list. */
  predicate OpenEnds(v: seq<Interval>) {
    |v| >= 2 && v[0].Start().None? && v[|v| - 1].End().None?
  }

  function Wrap(v: seq<Interval>): seq<Interval> {
    if OpenEnds(v) then v[1..|v| - 1] + [Between(v[|v| - 1].Start(), v[0].End())] else v
  }

  /** What the two open ends become. */
  function Joined(v: seq<Interval>): Interval
    requires OpenEnds(v)
  {
    Between(v[|v| - 1].Start(), v[0].End())
  }

  /** Whether a point is covered stays the same exactly if the list is not open at both ends, the
      joined interval wraps around, or the point is in it or in one of the other intervals. */
  lemma WrapCovers(v: seq<Interval>, x: int)
    requires NoneWraps(v)
    ensures (Covered(Wrap(v), x) <==> Covered(v, x)) <==>
              !OpenEnds(v) || Joined(v).Wraps() || Joined(v).Inside(x) || Covered(v[1..|v| - 1], x)
  {
    if OpenEnds(v) {
      var n := |v| - 1;
      CoveredSplit(v[1..n], Joined(v), x);
      EndsSplit(v, x);
      JoinedCovers(v, x);
    }
  }

  lemma CoveredSplit(u: seq<Interval>, i: Interval, x: int)
    ensures Covered(u + [i], x) <==> Covered(u, x) || i.Contains(x)
  {
    var w := u + [i];
    assert w[|u|] == i;
    assert forall k | 0 <= k < |u| :: w[k] == u[k];
  }

  lemma EndsSplit(v: seq<Interval>, x: int)
    requires |v| >= 2
    ensures Covered(v, x) <==> v[0].Contains(x) || Covered(v[1..|v| - 1], x) || v[|v| - 1].Contains(x)
  {
    var u := v[1..|v| - 1];
    assert forall k | 0 <= k < |u| :: u[k] == v[k + 1];
    if k :| 0 <= k < |v| && v[k].Contains(x) {
      assert 0 < k < |v| - 1 ==> u[k - 1].Contains(x);
    }
  }

  /** The joined interval holds the points of both ends if it wraps around; otherwise the two ends
      overlap and together hold every point. */
  lemma JoinedCovers(v: seq<Interval>, x: int)
    requires OpenEnds(v) && NoneWraps(v)
    ensures var ends := v[0].Contains(x) || v[|v| - 1].Contains(x);
            if Joined(v).Wraps() then Joined(v).Contains(x) <==> ends else ends
  {}

  /** Of any two intervals one comes before the other. */
  predicate Disjoint(v: seq<Interval>) {
    forall a, b | 0 <= a < b < |v| :: v[a].EndsBefore(v[b]) || v[b].EndsBefore(v[a])
  }

  /** Disjoint lists, in any order, lose nothing. */
  lemma DisjointListsKeepPoints(v: seq<Interval>, x: int)
    requires NoneWraps(v) && Disjoint(v)
    ensures Covered(Wrap(v), x) <==> Covered(v, x)
  {
    if OpenEnds(v) {
      assert v[0].EndsBefore(v[|v| - 1]);
    }
    WrapCovers(v, x);
  }

  /** A list whose open ends overlap loses every point outside the overlap and the other intervals,
      and covered every point before. */
  lemma WrapLosesPoints(v: seq<Interval>, x: int)
    requires NoneWraps(v) && OpenEnds(v) && !v[0].EndsBefore(v[|v| - 1])
    ensures Covered(v, x)
    ensures Covered(Wrap(v), x) <==> Joined(v).Inside(x) || Covered(v[1..|v| - 1], x)
  {
    var n := |v| - 1;
    CoveredSplit(v[1..n], Joined(v), x);
    EndsSplit(v, x);
    JoinedCovers(v, x);
  }

  /** The shortest such list: (-inf, 5] and [3, +inf) become [3, 5]. */
  lemma OverlapLosesZero()
    ensures var v := [Between(None, Some(Bound(5, true))), Between(Some(Bound(3, true)), None)];
            NoneWraps(v) && Covered(v, 0) && !Covered(Wrap(v), 0)
  {
    var v := [Between(None, Some(Bound(5, true))), Between(Some(Bound(3, true)), None)];
    WrapLosesPoints(v, 0);
  }

  function WrapCount(v: seq<Interval>): nat {
    if v == [] then 0 else WrapCount(v[..|v| - 1]) + if v[|v| - 1].Wraps() then 1 else 0
  }

  lemma {:induction false} FrontsCount(v: seq<Interval>)
    ensures |Fronts(v)| == WrapCount(v) && (WrapCount(v) == 0 <==> NoneWraps(v))
  {
    if v != [] {
      FrontsCount(v[..|v| - 1]);
    }
  }

  /** Wrapping undoes unwrapping exactly if nothing wraps and the list is not open at both ends, or
      the one interval that wraps is the last. */
  lemma WrapUndoesUnwrap(v: seq<Interval>)
    ensures Wrap(Fronts(v) + Rears(v)) == v <==>
              || (NoneWraps(v) && !OpenEnds(v))
              || (v != [] && v[|v| - 1].Wraps() && NoneWraps(v[..|v| - 1]))
  {
    hide Fronts, Rears, Wrap, OpenEnds, Interval.Wraps;
    if NoneWraps(v) {
      NothingUnwraps(v);
      WrapLength(v);
      if !OpenEnds(v) { WrapKeeps(v); }
    } else if v[|v| - 1].Wraps() && NoneWraps(v[..|v| - 1]) {
      OnlyLastWraps(v);
    } else {
      OthersWrap(v);
    }
  }

  lemma NothingUnwraps(v: seq<Interval>)
    requires NoneWraps(v)
    ensures Fronts(v) + Rears(v) == v
  {
    hide Interval.Wraps, Wrap;
    FrontsCount(v);
    assert Fronts(v) == [];
    assert Rears(v) == v;
  }

  lemma WrapKeeps(v: seq<Interval>)
    requires !OpenEnds(v)
    ensures Wrap(v) == v
  {}

  lemma OnlyLastWraps(v: seq<Interval>)
    requires v != [] && v[|v| - 1].Wraps() && NoneWraps(v[..|v| - 1])
    ensures Wrap(Fronts(v) + Rears(v)) == v
  {
    hide Fronts, Rears, Wrap, NoneWraps, Interval.Wraps, Interval.First, Interval.Second;
    FrontsOfLast(v);
    RearsSplit(v);
    LastOff(v);
    WrapParts(v[|v| - 1], v[..|v| - 1]);
  }

  lemma LastOff(v: seq<Interval>)
    requires v != []
    ensures v == v[..|v| - 1] + [v[|v| - 1]]
  {}

  lemma FrontsOfLast(v: seq<Interval>)
    requires v != [] && v[|v| - 1].Wraps() && NoneWraps(v[..|v| - 1])
    ensures Fronts(v) == [v[|v| - 1].First()]
  {
    hide Interval.First;
    FrontsCount(v[..|v| - 1]);
    assert Fronts(v[..|v| - 1]) == [];
  }

  lemma RearsSplit(v: seq<Interval>)
    requires v != [] && v[|v| - 1].Wraps() && NoneWraps(v[..|v| - 1])
    ensures Rears(v) == v[..|v| - 1] + [v[|v| - 1].Second()]
  {
    forall k | 0 <= k < |v| - 1 ensures v[k].Rear() == v[k] {
      assert !v[..|v| - 1][k].Wraps();
    }
  }

  lemma WrapParts(i: Interval, middle: seq<Interval>)
    requires i.Wraps()
    ensures Wrap([i.First()] + (middle + [i.Second()])) == middle + [i]
  {
    WrapEnds(i.First(), middle, i.Second());
  }

  lemma WrapEnds(f: Interval, middle: seq<Interval>, s: Interval)
    requires f.Start().None? && s.End().None?
    ensures Wrap([f] + (middle + [s])) == middle + [Between(s.Start(), f.End())]
  {
    var u := [f] + (middle + [s]);
    assert u[1..|u| - 1] == middle;
  }

  lemma OthersWrap(v: seq<Interval>)
    requires !NoneWraps(v) && !(v[|v| - 1].Wraps() && NoneWraps(v[..|v| - 1]))
    ensures Wrap(Fronts(v) + Rears(v)) != v
  {
    var fs, rs, n := Fronts(v), Rears(v), |v| - 1;
    var u := fs + rs;
    FrontsCount(v);
    FrontsCount(v[..n]);
    hide Fronts, Wrap, OpenEnds;
    WrapLength(u);
    if OpenEnds(u) && |fs| == 1 {
      assert !v[n].Wraps();
      var k :| 0 <= k < |v| && v[k].Wraps();
      WrapAt(u, k);
      assert Wrap(u)[k] == rs[k] == v[k].Second();
    }
  }

  lemma WrapLength(u: seq<Interval>)
    ensures |Wrap(u)| == if OpenEnds(u) then |u| - 1 else |u|
  {}

  lemma WrapAt(u: seq<Interval>, k: nat)
    requires OpenEnds(u) && k + 2 < |u|
    ensures k < |Wrap(u)| && Wrap(u)[k] == u[k + 1]
  {}
}
