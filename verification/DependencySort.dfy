/** `sort_dependencies` of the IDL compiler: types in rounds, each round the ones whose dependencies
    are out already.  Types are numbered in alphabetical order. */
module DependencySort {

  type Graph = map<nat, set<nat>>

  /** Dependencies are themselves types to be sorted. */
  predicate Closed(deps: Graph) {
    forall k | k in deps :: deps[k] <= deps.Keys
  }

  /** Every member depends on a member. */
  ghost predicate IsCycle(deps: Graph, s: set<nat>) {
    s != {} && s <= deps.Keys && forall k | k in s :: deps[k] * s != {}
  }

  ghost predicate Cyclic(deps: Graph) {
    exists s :: IsCycle(deps, s)
  }

  /** Each type of the path depends on the next one, and the last on the first. */
  ghost predicate ClosedPath(deps: Graph, path: seq<nat>) {
    && path != []
    && forall k | 0 <= k < |path| ::
         path[k] in deps && path[if k + 1 < |path| then k + 1 else 0] in deps[path[k]]
  }

  lemma PathIsCycle(deps: Graph, path: seq<nat>)
    requires ClosedPath(deps, path)
    ensures Cyclic(deps)
  {
    var s := set k | 0 <= k < |path| :: path[k];
    assert path[0] in s;
    forall x | x in s ensures deps[x] * s != {} {
      var k :| 0 <= k < |path| && path[k] == x;
      var next := path[if k + 1 < |path| then k + 1 else 0];
      assert next in deps[x] * s;
    }
    assert IsCycle(deps, s);
  }

  /** A walk from dependency to dependency. */
  ghost predicate IsWalk(deps: Graph, s: set<nat>, w: seq<nat>) {
    && w != [] && s <= deps.Keys
    && (forall k | 0 <= k < |w| :: w[k] in s)
    && (forall k | 0 <= k < |w| - 1 :: w[k + 1] in deps[w[k]])
  }

  /** A walk that stays within a finite set comes back to where it was. */
  lemma {:induction false} WalkCloses(deps: Graph, s: set<nat>, w: seq<nat>) returns (path: seq<nat>)
    requires IsCycle(deps, s) && IsWalk(deps, s, w)
    ensures ClosedPath(deps, path)
    decreases s - Members(w)
  {
    var last := w[|w| - 1];
    var x :| x in deps[last] * s;
    if x in w {
      var i :| 0 <= i < |w| && w[i] == x;
      path := w[i..];
    } else {
      assert Members(w + [x]) == Members(w) + {x};
      assert x in s - Members(w) && x !in s - Members(w + [x]);
      path := WalkCloses(deps, s, w + [x]);
    }
  }

  /** A set of types that feeds itself is the same as a chain of types each depending on the next,
      and the last on the first. */
  lemma CyclicPath(deps: Graph)
    ensures Cyclic(deps) <==> exists path :: ClosedPath(deps, path)
  {
    if s :| IsCycle(deps, s) {
      var x :| x in s;
      var path := WalkCloses(deps, s, [x]);
    }
    if path :| ClosedPath(deps, path) {
      PathIsCycle(deps, path);
    }
  }

  // ---------- rounds ----------

  function Ready(tree: Graph): (r: set<nat>)
    ensures forall k :: k in r <==> k in tree && tree[k] == {}
  {
    set k | k in tree && tree[k] == {}
  }

  /** The rest of the tree, without the types of this round. */
  function Round(tree: Graph): Graph {
    map k | k in tree && tree[k] != {} :: tree[k] - Ready(tree)
  }

  function Rounds(deps: Graph, n: nat): Graph {
    if n == 0 then deps else Round(Rounds(deps, n - 1))
  }

  lemma CycleHasKeys(deps: Graph, s: set<nat>)
    requires IsCycle(deps, s)
    ensures deps.Keys != {}
  {}

  lemma CycleSurvives(tree: Graph, s: set<nat>)
    requires IsCycle(tree, s)
    ensures IsCycle(Round(tree), s)
  {
    hide Round;
    forall k | k in s ensures k in Round(tree) && Round(tree)[k] * s != {} {
      StillFed(tree, s, k);
    }
  }

  lemma StillFed(tree: Graph, s: set<nat>, k: nat)
    requires IsCycle(tree, s) && k in s
    ensures k in Round(tree) && Round(tree)[k] * s != {}
  {
    var d :| d in tree[k] * s;
    assert tree[d] * s != {};
    assert d !in Ready(tree);
    assert d in Round(tree)[k] * s;
  }

  /** A cycle is never taken apart, so that the loop goes on for ever. */
  lemma {:induction false} CycleStays(deps: Graph, s: set<nat>, n: nat)
    requires IsCycle(deps, s)
    ensures IsCycle(Rounds(deps, n), s) && Rounds(deps, n).Keys != {}
  {
    hide Round, IsCycle;
    CycleHasKeys(deps, s);
    if n > 0 {
      CycleStays(deps, s, n - 1);
      CycleSurvives(Rounds(deps, n - 1), s);
      CycleHasKeys(Rounds(deps, n), s);
    }
  }

  /** What is left after the types in `done` are out. */
  function Left(deps: Graph, done: set<nat>): Graph {
    map k | k in deps && k !in done :: deps[k] - done
  }

  /** If no type is ready, those left form a cycle. */
  lemma StuckIsCycle(deps: Graph, done: set<nat>)
    requires Closed(deps) && Ready(Left(deps, done)) == {} && Left(deps, done) != map[]
    ensures IsCycle(deps, Left(deps, done).Keys)
  {
    var tree := Left(deps, done);
    var s := tree.Keys;
    forall k | k in s ensures deps[k] * s != {} {
      assert tree[k] != {};
      var d :| d in tree[k];
      assert d in deps[k] * s;
    }
  }

  lemma RoundLeaves(deps: Graph, done: set<nat>)
    ensures Round(Left(deps, done)) == Left(deps, done + Ready(Left(deps, done)))
  {
    var tree := Left(deps, done);
    forall k | k in Round(tree) ensures Round(tree)[k] == Left(deps, done + Ready(tree))[k] {}
  }

  lemma AllLeft(deps: Graph)
    ensures Left(deps, {}) == deps
  {
    forall k | k in deps ensures Left(deps, {})[k] == deps[k] {}
  }

  /** Without a cycle every round takes at least one type out. */
  lemma {:induction false} RoundsShrink(deps: Graph, n: nat) returns (done: set<nat>)
    requires Closed(deps) && !Cyclic(deps)
    ensures Rounds(deps, n) == Left(deps, done)
    ensures Rounds(deps, n).Keys == {} || |Rounds(deps, n).Keys| + n <= |deps.Keys|
  {
    hide Round, Left;
    if n == 0 {
      done := {};
      AllLeft(deps);
    } else {
      var before := RoundsShrink(deps, n - 1);
      done := before + Ready(Left(deps, before));
      RoundLeaves(deps, before);
      RoundShrinks(deps, before);
    }
  }

  lemma RoundShrinks(deps: Graph, done: set<nat>)
    requires Closed(deps) && !Cyclic(deps)
    ensures Left(deps, done).Keys == {} ==> Round(Left(deps, done)).Keys == {}
    ensures Left(deps, done).Keys != {} ==> |Round(Left(deps, done)).Keys| < |Left(deps, done).Keys|
  {
    var tree := Left(deps, done);
    if tree.Keys != {} {
      if Ready(tree) == {} {
        StuckIsCycle(deps, done);
        assert false;
      }
      var k :| k in Ready(tree);
      assert Round(tree).Keys < tree.Keys;
      SmallerSet(Round(tree).Keys, tree.Keys);
    }
  }

  /** The loop comes to an end exactly if no chain of dependencies leads back to its start. */
  lemma EndsUnlessCyclic(deps: Graph)
    requires Closed(deps)
    ensures (exists n: nat :: Rounds(deps, n).Keys == {}) <==> !exists path :: ClosedPath(deps, path)
  {
    CyclicPath(deps);
    if Cyclic(deps) {
      var s :| IsCycle(deps, s);
      forall n: nat ensures Rounds(deps, n).Keys != {} {
        CycleStays(deps, s, n);
      }
    } else {
      var n := |deps.Keys| + 1;
      var done := RoundsShrink(deps, n);
      assert Rounds(deps, n).Keys == {};
    }
  }

  // ---------- sorting ----------

  predicate Ascending(s: seq<nat>) {
    forall a, b | 0 <= a < b < |s| :: s[a] < s[b]
  }

  function Members(s: seq<nat>): (r: set<nat>)
    ensures forall x :: x in r <==> x in s
  {
    set x | x in s
  }

  predicate IsLeast(m: nat, s: set<nat>) {
    m in s && forall x | x in s :: m <= x
  }

  lemma {:induction false} LeastExists(s: set<nat>)
    requires s != {}
    ensures exists m :: IsLeast(m, s)
    decreases |s|
  {
    var k :| k in s;
    var rest := s - {k};
    if rest == {} {
      assert s == {k};
      assert IsLeast(k, s);
    } else {
      LeastExists(rest);
      var m :| IsLeast(m, rest);
      var least := if k < m then k else m;
      forall x | x in s ensures least <= x {
        assert x == k || x in rest;
      }
      assert IsLeast(least, s);
    }
  }

  predicate AllBelow(s: seq<nat>, left: set<nat>) {
    forall k, y | 0 <= k < |s| && y in left :: s[k] < y
  }

  lemma NoneBelow(left: set<nat>)
    ensures Ascending([]) && AllBelow([], left)
  {}

  lemma TakeLeast(s: seq<nat>, left: set<nat>, m: nat)
    requires Ascending(s) && AllBelow(s, left) && IsLeast(m, left)
    ensures Ascending(s + [m]) && AllBelow(s + [m], left - {m})
  {}

  /** `sorted` */
  method Sorted(keys: set<nat>) returns (r: seq<nat>)
    ensures Members(r) == keys && Ascending(r)
  {
    hide Ascending, AllBelow;
    r := [];
    var left := keys;
    NoneBelow(keys);
    while left != {}
      invariant Members(r) + left == keys && Ascending(r) && AllBelow(r, left)
      decreases |left|
    {
      LeastExists(left);
      var m :| m in left && IsLeast(m, left);
      ghost var before := r;
      TakeLeast(r, left, m);
      r := r + [m];
      left := left - {m};
      assert Members(r) == Members(before) + {m};
    }
  }

  /** Each type is after all its dependencies. */
  predicate InOrder(deps: Graph, res: seq<nat>) {
    forall k | 0 <= k < |res| :: res[k] in deps && forall d | d in deps[res[k]] :: d in res[..k]
  }

  predicate NoRepeats(s: seq<nat>) {
    forall a, b | 0 <= a < b < |s| :: s[a] != s[b]
  }

  method SortDependencies(deps: Graph) returns (res: seq<nat>)
    requires Closed(deps) && !Cyclic(deps)
    ensures Members(res) == deps.Keys && NoRepeats(res) && InOrder(deps, res)
  {
    var tree := deps;
    res := [];
    AllLeft(deps);
    assert Members([]) == {};
    while tree != map[]
      invariant tree == Left(deps, Members(res)) && Members(res) <= deps.Keys
      invariant NoRepeats(res) && InOrder(deps, res)
      decreases |tree.Keys|
    {
      ghost var done := Members(res);
      RoundShrinks(deps, done);
      var found := Sorted(Ready(tree));
      RoundLeaves(deps, done);
      ReadyInOrder(deps, res, found);
      res := res + found;
      tree := Round(tree);
      assert Members(res) == done + Members(found);
    }
    assert deps.Keys <= Members(res);
  }

  lemma {:induction false} SmallerSet(a: set<nat>, b: set<nat>)
    requires a < b
    ensures |a| < |b|
  {
    assert b == a + (b - a);
  }

  lemma ReadyInOrder(deps: Graph, res: seq<nat>, found: seq<nat>)
    requires NoRepeats(res) && InOrder(deps, res) && Ascending(found)
    requires forall x | x in found :: x in deps && x !in res && deps[x] <= Members(res)
    ensures NoRepeats(res + found) && InOrder(deps, res + found)
  {
    var all := res + found;
    forall k | 0 <= k < |all| ensures all[k] in deps && forall d | d in deps[all[k]] :: d in all[..k] {
      if k < |res| {
        assert all[..k] == res[..k];
      } else {
        assert all[k] in found;
        assert all[..k] == res + found[..k - |res|];
      }
    }
    forall a, b | 0 <= a < b < |all| ensures all[a] != all[b] {
      assert a < |res| <= b ==> all[b] in found && all[a] in res;
    }
  }
}
