/** Positions on the token ring, ranges of them, and what splitting ranges at ring tokens means. */
module RingRanges {
  import opened Wrappers

  /** The tokens before and after all others. */
  const MINIMUM_TOKEN: int := -0x8000_0000_0000_0001
  const MAXIMUM_TOKEN: int := 0x8000_0000_0000_0000

  /** A place in the order of the ring: before or after all keys of a token (rank -1 or 1), or right
      before or right after one of its keys. */
  datatype Position = Position(token: int, rank: int, key: int, after: int) {
    predicate Before(p: Position) {
      || token < p.token
      || (token == p.token
          && (rank < p.rank || (rank == p.rank && (key < p.key || (key == p.key && after < p.after)))))
    }

    predicate AtOrBefore(p: Position) {
      !p.Before(this)
    }
  }

  datatype RingPosition = StartOf(token: int) | EndOf(token: int) | Key(token: int, key: int)

  /** `ring_position_view`; whether a bound is inclusive matters only at a key. */
  function View(p: RingPosition, afterKey: bool): (v: Position)
    ensures v.token == p.token && -1 <= v.rank <= 1
  {
    match p
    case StartOf(t) => Position(t, -1, 0, 0)
    case EndOf(t) => Position(t, 1, 0, 0)
    case Key(t, k) => Position(t, 0, k, if afterKey then 1 else 0)
  }

  datatype Bound = Bound(position: RingPosition, inclusive: bool)

  datatype Range = Range(start: Option<Bound>, end: Option<Bound>) {
    function StartView(): (v: Position)
      ensures -1 <= v.rank <= 1
    {
      if start.None? then Position(MINIMUM_TOKEN, -1, 0, 0) else View(start.value.position, !start.value.inclusive)
    }

    function EndView(): (v: Position)
      ensures -1 <= v.rank <= 1
    {
      if end.None? then Position(MAXIMUM_TOKEN, 1, 0, 0) else View(end.value.position, end.value.inclusive)
    }

    predicate Covers(p: Position) {
      StartView().AtOrBefore(p) && p.Before(EndView())
    }

    /** `interval::contains` a position. */
    predicate Contains(p: RingPosition) {
      && (start.Some? ==>
            var s := View(start.value.position, false);
            s.Before(View(p, false)) || (s == View(p, false) && start.value.inclusive))
      && (end.Some? ==>
            var e := View(end.value.position, false);
            View(p, false).Before(e) || (e == View(p, false) && end.value.inclusive))
    }

    /** `interval::split`: the split point goes with the left part. */
    function Left(p: RingPosition): Range {
      Range(start, Some(Bound(p, true)))
    }

    function Right(p: RingPosition): Range {
      Range(Some(Bound(p, false)), end)
    }
  }

  function StartToken(r: Range): (t: int)
    ensures t == r.StartView().token
  {
    if r.start.Some? then r.start.value.position.token else MINIMUM_TOKEN
  }

  function EndToken(r: Range): (t: int)
    ensures t == r.EndView().token
  {
    if r.end.Some? then r.end.value.position.token else MAXIMUM_TOKEN
  }

  /** A split at the end of token `t` leaves something on both sides. */
  predicate Splits(r: Range, t: int) {
    r.StartView().Before(View(EndOf(t), false)) && View(EndOf(t), false).Before(r.EndView())
  }

  /** What `interval::split` asserts. */
  lemma SplitPointIsInside(r: Range, t: int)
    requires Splits(r, t)
    ensures r.Contains(EndOf(t))
  {}

  /** The two parts meet at the split point and leave the outer bounds alone. */
  lemma SplitParts(r: Range, t: int)
    requires Splits(r, t)
    ensures var p := View(EndOf(t), false);
            && r.Left(EndOf(t)).StartView() == r.StartView() && r.Left(EndOf(t)).EndView() == p
            && r.Right(EndOf(t)).StartView() == p && r.Right(EndOf(t)).EndView() == r.EndView()
    ensures StartToken(r) <= t == StartToken(r.Right(EndOf(t))) < EndToken(r.Right(EndOf(t)))
  {}

  /** The range split at each of the tokens in turn, where that leaves something on both sides. */
  function SplitBy(r: Range, tokens: seq<int>): (pieces: seq<Range>)
    ensures pieces != []
    decreases |tokens|
  {
    if tokens == [] then [r]
    else if Splits(r, tokens[0]) then [r.Left(EndOf(tokens[0]))] + SplitBy(r.Right(EndOf(tokens[0])), tokens[1..])
    else SplitBy(r, tokens[1..])
  }

  lemma SplitStep(r: Range, tokens: seq<int>, k: nat)
    requires k < |tokens|
    ensures SplitBy(r, tokens[k..]) ==
            if Splits(r, tokens[k])
            then [r.Left(EndOf(tokens[k]))] + SplitBy(r.Right(EndOf(tokens[k])), tokens[k + 1..])
            else SplitBy(r, tokens[k + 1..])
  {
    assert tokens[k..][0] == tokens[k] && tokens[k..][1..] == tokens[k + 1..];
  }

  /** What is due for a range: nothing if it lies wholly at the minimum token. */
  function Due(r: Range, tokens: seq<int>): seq<Range> {
    if StartToken(r) == EndToken(r) then if StartToken(r) == MINIMUM_TOKEN then [] else [r]
    else SplitBy(r, tokens)
  }

  function DueAll(rs: seq<Range>, tokens: seq<int>): seq<Range> {
    if rs == [] then [] else Due(rs[0], tokens) + DueAll(rs[1..], tokens)
  }

  predicate Ascending(tokens: seq<int>) {
    forall a, b | 0 <= a < b < |tokens| :: tokens[a] < tokens[b]
  }

  // ---------- what the pieces are ----------

  /** One of the tokens that split the range ends here. */
  ghost predicate CutAt(r: Range, tokens: seq<int>, v: Position) {
    exists t | t in tokens :: Splits(r, t) && v == View(EndOf(t), false)
  }

  /** Nothing is cut but at the end of a token. */
  lemma {:induction false} PiecesCutAtTokens(r: Range, tokens: seq<int>)
    ensures forall k | 0 < k < |SplitBy(r, tokens)| :: CutAt(r, tokens, SplitBy(r, tokens)[k].StartView())
    decreases |tokens|
  {
    if tokens != [] {
      var t, later := tokens[0], tokens[1..];
      var rest := if Splits(r, t) then r.Right(EndOf(t)) else r;
      PiecesCutAtTokens(rest, later);
      PiecesChain(rest, later);
      forall k | 0 < k < |SplitBy(r, tokens)| ensures CutAt(r, tokens, SplitBy(r, tokens)[k].StartView()) {
        LaterCut(r, tokens, k);
      }
    }
  }

  lemma LaterCut(r: Range, tokens: seq<int>, k: nat)
    requires tokens != [] && 0 < k < |SplitBy(r, tokens)|
    requires var rest := if Splits(r, tokens[0]) then r.Right(EndOf(tokens[0])) else r;
             var ps := SplitBy(rest, tokens[1..]);
             && ps[0].StartView() == rest.StartView()
             && forall j | 0 < j < |ps| :: CutAt(rest, tokens[1..], ps[j].StartView())
    ensures CutAt(r, tokens, SplitBy(r, tokens)[k].StartView())
  {
    var t := tokens[0];
    var rest := if Splits(r, t) then r.Right(EndOf(t)) else r;
    var ps := SplitBy(rest, tokens[1..]);
    if Splits(r, t) {
      SplitParts(r, t);
      if k > 1 {
        assert CutAt(rest, tokens[1..], ps[k - 1].StartView());
        var u :| u in tokens[1..] && Splits(rest, u) && ps[k - 1].StartView() == View(EndOf(u), false);
        assert u in tokens && Splits(r, u);
      }
    } else {
      assert CutAt(rest, tokens[1..], ps[k].StartView());
      var u :| u in tokens[1..] && Splits(rest, u) && ps[k].StartView() == View(EndOf(u), false);
      assert u in tokens;
    }
  }

  /** So every piece that is due starts where one of the ranges does, or at such a cut. */
  lemma {:induction false} DueAllCutAtTokens(rs: seq<Range>, tokens: seq<int>, k: nat)
    requires k < |DueAll(rs, tokens)|
    ensures exists r | r in rs :: var v := DueAll(rs, tokens)[k].StartView(); v == r.StartView() || CutAt(r, tokens, v)
  {
    var first := Due(rs[0], tokens);
    if k < |first| {
      assert rs[0] in rs && DueAll(rs, tokens)[k] == first[k];
      PiecesChain(rs[0], tokens);
      PiecesCutAtTokens(rs[0], tokens);
    } else {
      DueAllCutAtTokens(rs[1..], tokens, k - |first|);
      var v := DueAll(rs, tokens)[k].StartView();
      assert v == DueAll(rs[1..], tokens)[k - |first|].StartView();
      var r :| r in rs[1..] && (v == r.StartView() || CutAt(r, tokens, v));
      assert r in rs;
    }
  }

  /** Adjacent: each piece starts where the one before it ends. */
  predicate Chained(pieces: seq<Range>) {
    forall k | 0 < k < |pieces| :: pieces[k].StartView() == pieces[k - 1].EndView()
  }

  lemma {:induction false} PiecesChain(r: Range, tokens: seq<int>)
    ensures var ps := SplitBy(r, tokens);
            && Chained(ps) && ps[0].StartView() == r.StartView() && ps[|ps| - 1].EndView() == r.EndView()
    ensures r.StartView().Before(r.EndView()) ==>
              forall k | 0 <= k < |SplitBy(r, tokens)| ::
                SplitBy(r, tokens)[k].StartView().Before(SplitBy(r, tokens)[k].EndView())
    decreases |tokens|
  {
    if tokens != [] {
      if Splits(r, tokens[0]) {
        SplitParts(r, tokens[0]);
        PiecesChain(r.Right(EndOf(tokens[0])), tokens[1..]);
      } else {
        PiecesChain(r, tokens[1..]);
      }
    }
  }

  /** A position is covered by exactly one piece if the range covers it, else by none. */
  lemma {:induction false} PiecesCover(pieces: seq<Range>, p: Position)
    requires pieces != [] && Chained(pieces)
    requires forall k | 0 <= k < |pieces| :: pieces[k].StartView().Before(pieces[k].EndView())
    ensures pieces[0].StartView().AtOrBefore(p) && p.Before(pieces[|pieces| - 1].EndView()) <==>
              exists k | 0 <= k < |pieces| :: pieces[k].Covers(p)
    ensures forall a, b | 0 <= a < b < |pieces| :: pieces[a].EndView().AtOrBefore(pieces[b].StartView())
  {
    var n := |pieces| - 1;
    if n > 0 {
      assert forall k | 0 <= k < n :: pieces[..n][k] == pieces[k];
      PiecesCover(pieces[..n], p);
      assert pieces[n].StartView() == pieces[n - 1].EndView();
    }
  }

  /** No piece reaches across the end of a ring token. */
  lemma {:induction false} PiecesDoNotStraddle(r: Range, tokens: seq<int>, t: int)
    requires Ascending(tokens) && t in tokens
    ensures forall k | 0 <= k < |SplitBy(r, tokens)| :: !Splits(SplitBy(r, tokens)[k], t)
    decreases |tokens|
  {
    if Splits(r, tokens[0]) {
      var left, right := r.Left(EndOf(tokens[0])), r.Right(EndOf(tokens[0]));
      SplitParts(r, tokens[0]);
      if t in tokens[1..] {
        PiecesDoNotStraddle(right, tokens[1..], t);
      } else {
        NeverSplits(right, tokens[1..], t);
      }
    } else if t in tokens[1..] {
      PiecesDoNotStraddle(r, tokens[1..], t);
    } else {
      NeverSplits(r, tokens[1..], t);
    }
  }

  /** Splitting a range further does not make a piece straddle what the range did not. */
  lemma {:induction false} NeverSplits(r: Range, tokens: seq<int>, t: int)
    requires !Splits(r, t)
    ensures forall k | 0 <= k < |SplitBy(r, tokens)| :: !Splits(SplitBy(r, tokens)[k], t)
    decreases |tokens|
  {
    if tokens != [] {
      if Splits(r, tokens[0]) {
        SplitParts(r, tokens[0]);
        NeverSplits(r.Right(EndOf(tokens[0])), tokens[1..], t);
      } else {
        NeverSplits(r, tokens[1..], t);
      }
    }
  }

  // ---------- the order in which the tokens come ----------

  /** None of the tokens splits the range or what follows it. */
  predicate Behind(r: Range, tokens: seq<int>) {
    forall k | 0 <= k < |tokens| :: View(EndOf(tokens[k]), false).AtOrBefore(r.StartView())
  }

  lemma {:induction false} SkipBehind(r: Range, behind: seq<int>, tokens: seq<int>)
    requires Behind(r, behind)
    ensures SplitBy(r, behind + tokens) == SplitBy(r, tokens)
    decreases |behind|
  {
    if behind == [] {
      assert behind + tokens == tokens;
    } else {
      assert (behind + tokens)[1..] == behind[1..] + tokens;
      SkipBehind(r, behind[1..], tokens);
    }
  }

  lemma {:induction false} IgnoreBehind(r: Range, tokens: seq<int>, behind: seq<int>)
    requires Behind(r, behind)
    ensures SplitBy(r, tokens + behind) == SplitBy(r, tokens)
    decreases |tokens|
  {
    if tokens == [] {
      assert tokens + behind == behind && behind + [] == behind;
      SkipBehind(r, behind, []);
    } else {
      assert (tokens + behind)[1..] == tokens[1..] + behind;
      if Splits(r, tokens[0]) {
        SplitParts(r, tokens[0]);
        IgnoreBehind(r.Right(EndOf(tokens[0])), tokens[1..], behind);
      } else {
        IgnoreBehind(r, tokens[1..], behind);
      }
    }
  }

  /** Tokens past the end do not split. */
  lemma {:induction false} SkipBeyond(r: Range, tokens: seq<int>)
    requires forall k | 0 <= k < |tokens| :: !Splits(r, tokens[k])
    ensures SplitBy(r, tokens) == [r]
    decreases |tokens|
  {
    if tokens != [] {
      SkipBeyond(r, tokens[1..]);
    }
  }

  /** The tokens in the order in which the ring is walked from a token: those from it on, and then,
      where the walk goes round, those before it. */
  predicate RingOrder(ring: seq<int>, from: int, tokens: seq<int>) {
    exists k | 0 <= k <= |ring| :: WalksFrom(ring, from, tokens, k)
  }

  predicate WalksFrom(ring: seq<int>, from: int, tokens: seq<int>, k: nat)
    requires k <= |ring|
  {
    && (forall j | 0 <= j < k :: ring[j] < from) && (forall j | k <= j < |ring| :: ring[j] >= from)
    && (tokens == ring[k..] || tokens == ring[k..] + ring[..k])
  }

  /** Walking the ring from anywhere at or before the range's start splits it as the whole ring does. */
  lemma RingOrderSplits(r: Range, ring: seq<int>, from: int, tokens: seq<int>)
    requires RingOrder(ring, from, tokens) && from <= StartToken(r)
    ensures SplitBy(r, tokens) == SplitBy(r, ring)
  {
    var k: nat :| k <= |ring| && WalksFrom(ring, from, tokens, k);
    WalkSplits(r, ring, from, tokens, k);
  }

  lemma WalkSplits(r: Range, ring: seq<int>, from: int, tokens: seq<int>, k: nat)
    requires k <= |ring| && WalksFrom(ring, from, tokens, k) && from <= StartToken(r)
    ensures SplitBy(r, tokens) == SplitBy(r, ring)
  {
    hide SplitBy, Behind;
    EarlierAreBehind(r, ring[..k], from);
    assert ring == ring[..k] + ring[k..];
    SkipBehind(r, ring[..k], ring[k..]);
    if tokens != ring[k..] {
      IgnoreBehind(r, ring[k..], ring[..k]);
    }
  }

  lemma EarlierAreBehind(r: Range, tokens: seq<int>, from: int)
    requires from <= StartToken(r) && forall j | 0 <= j < |tokens| :: tokens[j] < from
    ensures Behind(r, tokens)
  {}

  /** The walk goes up, except that it may go on with tokens before the one it started from. */
  lemma WalkGoesUp(ring: seq<int>, from: int, tokens: seq<int>)
    requires Ascending(ring) && RingOrder(ring, from, tokens)
    ensures forall i, j | 0 <= i < j < |tokens| :: tokens[i] < tokens[j] || tokens[j] < from
  {
    var k: nat :| k <= |ring| && WalksFrom(ring, from, tokens, k);
    forall i, j | 0 <= i < j < |tokens| ensures tokens[i] < tokens[j] || tokens[j] < from {
      WalkStep(ring, from, tokens, k, i);
      WalkStep(ring, from, tokens, k, j);
    }
  }

  lemma WalkStep(ring: seq<int>, from: int, tokens: seq<int>, k: nat, i: nat)
    requires k <= |ring| && WalksFrom(ring, from, tokens, k) && i < |tokens|
    ensures if k + i < |ring| then tokens[i] == ring[k + i] else tokens[i] < from
  {
    var n := |ring| - k;
    assert i >= n ==> tokens[i] == ring[i - n];
  }

  /** Once a token is past the end of the range, no later one on the walk splits it. */
  lemma NoMoreSplits(r: Range, ring: seq<int>, from: int, tokens: seq<int>, i: nat)
    requires Ascending(ring) && RingOrder(ring, from, tokens) && from <= StartToken(r)
    requires i < |tokens| && r.EndView().AtOrBefore(View(EndOf(tokens[i]), false))
    ensures SplitBy(r, tokens[i..]) == [r]
  {
    hide RingOrder;
    WalkGoesUp(ring, from, tokens);
    forall j | i <= j < |tokens| ensures !Splits(r, tokens[j]) {
      assert j > i ==> tokens[i] < tokens[j] || tokens[j] < from;
    }
    SkipBeyond(r, tokens[i..]);
  }

  /** After a split at a token of the walk, the tokens so far are behind. */
  lemma WalkedBehind(r: Range, ring: seq<int>, from: int, tokens: seq<int>, i: nat)
    requires Ascending(ring) && RingOrder(ring, from, tokens)
    requires i < |tokens| && from <= tokens[i] && r.StartView() == View(EndOf(tokens[i]), false)
    ensures SplitBy(r, tokens) == SplitBy(r, tokens[i + 1..])
  {
    hide RingOrder;
    WalkGoesUp(ring, from, tokens);
    assert tokens == tokens[..i + 1] + tokens[i + 1..];
    assert Behind(r, tokens[..i + 1]);
    SkipBehind(r, tokens[..i + 1], tokens[i + 1..]);
  }

  /** One token of the walk: the range is done, the token is passed over, or a piece is split off. */
  lemma AtToken(made: seq<Range>, r: Range, ring: seq<int>, from: int, tokens: seq<int>, k: nat)
    requires Ascending(ring) && RingOrder(ring, from, tokens) && from <= StartToken(r) && k < |tokens|
    ensures var all, p := made + SplitBy(r, tokens[k..]), View(EndOf(tokens[k]), false);
            if r.EndView().AtOrBefore(p) then all == made + [r]
            else if p.AtOrBefore(r.StartView()) then all == made + SplitBy(r, tokens[k + 1..])
            else
              var left, right := r.Left(EndOf(tokens[k])), r.Right(EndOf(tokens[k]));
              && all == (made + [left]) + SplitBy(right, tokens[k + 1..])
              && SplitBy(right, tokens[k + 1..]) == SplitBy(right, ring)
              && r.Contains(EndOf(tokens[k])) && from <= StartToken(right) < EndToken(right)
  {
    hide SplitBy, RingOrder, Ascending;
    var t := tokens[k];
    SplitStep(r, tokens, k);
    if r.EndView().AtOrBefore(View(EndOf(t), false)) {
      NoMoreSplits(r, ring, from, tokens, k);
    } else if Splits(r, t) {
      SplitPointIsInside(r, t);
      SplitParts(r, t);
      WalkedBehind(r.Right(EndOf(t)), ring, from, tokens, k);
      RingOrderSplits(r.Right(EndOf(t)), ring, from, tokens);
    }
  }

  // ---------- everything that is due ----------

  predicate CoveredBy(pieces: seq<Range>, p: Position) {
    exists k | 0 <= k < |pieces| :: pieces[k].Covers(p)
  }

  predicate WhollyMinimum(r: Range) {
    StartToken(r) == MINIMUM_TOKEN && EndToken(r) == MINIMUM_TOKEN
  }

  /** What is due for a range covers exactly its positions, unless it lies wholly at the minimum token. */
  lemma DueCovers(r: Range, tokens: seq<int>, p: Position)
    ensures CoveredBy(Due(r, tokens), p) <==> r.Covers(p) && !WhollyMinimum(r)
  {
    hide SplitBy, Splits;
    if StartToken(r) == EndToken(r) {
      assert Due(r, tokens) != [] ==> Due(r, tokens)[0] == r;
    } else if r.StartView().Before(r.EndView()) {
      PiecesChain(r, tokens);
      PiecesCover(SplitBy(r, tokens), p);
    } else {
      NothingToSplit(r, tokens);
      assert [r][0] == r;
    }
  }

  lemma NothingToSplit(r: Range, tokens: seq<int>)
    requires r.EndView().AtOrBefore(r.StartView())
    ensures SplitBy(r, tokens) == [r]
  {
    SkipBeyond(r, tokens);
  }

  lemma {:induction false} DueAllCovers(rs: seq<Range>, tokens: seq<int>, p: Position)
    ensures CoveredBy(DueAll(rs, tokens), p) <==> exists r | r in rs :: r.Covers(p) && !WhollyMinimum(r)
  {
    if rs != [] {
      var a, b := Due(rs[0], tokens), DueAll(rs[1..], tokens);
      DueCovers(rs[0], tokens, p);
      DueAllCovers(rs[1..], tokens, p);
      CoveredByEither(a, b, p);
      assert rs == [rs[0]] + rs[1..];
    }
  }

  lemma CoveredByEither(a: seq<Range>, b: seq<Range>, p: Position)
    ensures CoveredBy(a + b, p) <==> CoveredBy(a, p) || CoveredBy(b, p)
  {
    if k :| 0 <= k < |a + b| && (a + b)[k].Covers(p) {
      assert k < |a| ==> a[k].Covers(p);
      assert k >= |a| ==> b[k - |a|].Covers(p);
    }
    if k :| 0 <= k < |a| && a[k].Covers(p) { assert (a + b)[k].Covers(p); }
    if k :| 0 <= k < |b| && b[k].Covers(p) { assert (a + b)[|a| + k].Covers(p); }
  }

  /** Each ends at or before the start of all that follow. */
  predicate InOrder(rs: seq<Range>) {
    && (forall k | 0 <= k < |rs| :: rs[k].StartView().Before(rs[k].EndView()))
    && (forall a, b | 0 <= a < b < |rs| :: rs[a].EndView().AtOrBefore(rs[b].StartView()))
  }

  predicate Within(rs: seq<Range>, lo: Position, hi: Position) {
    forall k | 0 <= k < |rs| :: lo.AtOrBefore(rs[k].StartView()) && rs[k].EndView().AtOrBefore(hi)
  }

  lemma DueInOrder(r: Range, tokens: seq<int>)
    requires r.StartView().Before(r.EndView())
    ensures InOrder(Due(r, tokens)) && Within(Due(r, tokens), r.StartView(), r.EndView())
  {
    if StartToken(r) != EndToken(r) {
      hide SplitBy;
      var ps := SplitBy(r, tokens);
      PiecesChain(r, tokens);
      PiecesCover(ps, r.StartView());
      forall k | 0 <= k < |ps|
        ensures r.StartView().AtOrBefore(ps[k].StartView()) && ps[k].EndView().AtOrBefore(r.EndView())
      {
        assert k > 0 ==> ps[0].EndView().AtOrBefore(ps[k].StartView());
        assert k < |ps| - 1 ==> ps[k].EndView().AtOrBefore(ps[|ps| - 1].StartView());
      }
    }
  }

  /** From ranges in order come pieces in order, which therefore do not overlap. */
  lemma {:induction false} DueAllInOrder(rs: seq<Range>, tokens: seq<int>)
    requires InOrder(rs)
    ensures InOrder(DueAll(rs, tokens))
    ensures rs != [] ==> Within(DueAll(rs, tokens), rs[0].StartView(), rs[|rs| - 1].EndView())
  {
    if rs != [] {
      var a, b := Due(rs[0], tokens), DueAll(rs[1..], tokens);
      DueInOrder(rs[0], tokens);
      DueAllInOrder(rs[1..], tokens);
      if |rs| > 1 {
        assert rs[0].EndView().AtOrBefore(rs[1].StartView()) && rs[0].EndView().AtOrBefore(rs[|rs| - 1].StartView());
        JoinInOrder(a, b, rs[0].StartView(), rs[0].EndView(), rs[1].StartView(), rs[|rs| - 1].EndView());
      } else {
        assert b == [] && a + b == a;
      }
    }
  }

  lemma JoinInOrder(a: seq<Range>, b: seq<Range>, lo: Position, m: Position, m': Position, hi: Position)
    requires InOrder(a) && InOrder(b) && Within(a, lo, m) && Within(b, m', hi) && m.AtOrBefore(m')
    requires lo.AtOrBefore(m') && m.AtOrBefore(hi)
    ensures InOrder(a + b) && Within(a + b, lo, hi)
  {
    hide Range.StartView, Range.EndView;
    var c := a + b;
    assert forall k | 0 <= k < |c| :: c[k] == if k < |a| then a[k] else b[k - |a|];
  }

  /** No piece that is due reaches across the end of a ring token. */
  lemma {:induction false} DueAllDoNotStraddle(rs: seq<Range>, tokens: seq<int>, t: int)
    requires Ascending(tokens) && t in tokens
    ensures forall k | 0 <= k < |DueAll(rs, tokens)| :: !Splits(DueAll(rs, tokens)[k], t)
  {
    if rs != [] {
      PiecesDoNotStraddle(rs[0], tokens, t);
      DueAllDoNotStraddle(rs[1..], tokens, t);
    }
  }
}
