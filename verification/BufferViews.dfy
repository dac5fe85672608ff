/** `buffer_view`: a stretch of a fragmented buffer, seen as one byte string. */
module BufferViews {
  import opened Integers
  import opened Fragments

  /** The first `total` bytes of the current fragment and those after it. */
  function Stretch(first: Fragment, next: seq<Fragment>, total: nat): seq<byte>
    requires total <= |first| + |Flatten(next)|
  {
    (first + Flatten(next))[..total]
  }

  /** The next fragment, cut to what is left of the view. */
  function NextFragment(next: seq<Fragment>, left: nat): (r: Fragment)
    requires next != []
    ensures |r| <= left
  {
    next[0][..Min(left, |next[0]|)]
  }

  lemma StretchAdvances(first: Fragment, next: seq<Fragment>, total: nat)
    requires |first| < total <= |first| + |Flatten(next)|
    ensures next != []
    ensures var left, f := total - |first|, NextFragment(next, total - |first|);
            left <= |f| + |Flatten(next[1..])| && Stretch(f, next[1..], left) == Stretch(first, next, total)[|first|..]
  {
    assert next != [] by {
      assert Flatten([]) == [];
    }
    var left := total - |first|;
    var f := NextFragment(next, left);
    assert next == [next[0]] + next[1..];
    FlattenCons(next[0], next[1..]);
    assert Stretch(first, next, total)[|first|..] == Flatten(next)[..left];
    if left <= |next[0]| {
      assert (f + Flatten(next[1..]))[..left] == f == next[0][..left];
    } else {
      assert f == next[0];
    }
  }

  // ---------- when dropping a prefix ends ----------

  /** The variables of the loop in `remove_prefix`. */
  datatype Cursor = Cursor(left: nat, first: Fragment, total: nat, next: seq<Fragment>) {
    ghost predicate Sound() {
      |first| <= total <= |first| + |Flatten(next)|
    }

    predicate Again() {
      left >= |first| && left > 0
    }
  }

  /** One turn of the loop, which stays put once its guard fails. */
  ghost function Turn(c: Cursor): (r: Cursor)
    requires c.Sound()
    ensures r.Sound() && r.left - r.total == c.left - c.total
  {
    if !c.Again() then c
    else
      var left, total := c.left - |c.first|, c.total - |c.first|;
      if total == 0 then Cursor(left, [], 0, c.next)
      else
        StretchAdvances(c.first, c.next, c.total);
        Cursor(left, NextFragment(c.next, total), total, c.next[1..])
  }

  ghost function Turns(c: Cursor, k: nat): (r: Cursor)
    requires c.Sound()
    ensures r.Sound() && r.left - r.total == c.left - c.total
    decreases k
  {
    if k == 0 then c else Turns(Turn(c), k - 1)
  }

  /** The loop ends exactly if there is as much to drop as is asked for. */
  lemma RemovePrefixEnds(c: Cursor)
    requires c.Sound()
    ensures (exists k: nat :: !Turns(c, k).Again()) <==> c.left <= c.total
  {
    if c.left <= c.total {
      var k := TurnsEnough(c);
    } else {
      assert forall k: nat :: Turns(c, k).Again();
    }
  }

  lemma {:induction false} TurnsEnough(c: Cursor) returns (k: nat)
    requires c.Sound() && c.left <= c.total
    ensures !Turns(c, k).Again()
    decreases c.left, |c.next|
  {
    if !c.Again() {
      k := 0;
    } else {
      k := TurnsEnough(Turn(c));
      k := k + 1;
    }
  }

  class BufferView {
    var first: Fragment
    var totalSize: nat
    var next: seq<Fragment>

    ghost predicate Valid()
      reads this
    {
      |first| <= totalSize <= |first| + |Flatten(next)|
    }

    ghost function Contents(): (r: seq<byte>)
      requires Valid()
      reads this
      ensures |r| == totalSize
    {
      Stretch(first, next, totalSize)
    }

    constructor (current: Fragment, size: nat, next: seq<Fragment>)
      requires size <= |current| + |Flatten(next)|
      ensures Valid() && Contents() == Stretch(current, next, size)
    {
      first := if |current| > size then current[..size] else current;
      totalSize, this.next := size, next;
    }

    /** Drops the rest of the current fragment. */
    method RemoveCurrent()
      requires Valid()
      modifies this
      ensures Valid() && totalSize == old(totalSize) - |old(first)| && Contents() == old(Contents())[|old(first)|..]
      ensures old(totalSize) > |old(first)| ==> |next| < |old(next)|
    {
      if totalSize > |first| {
        StretchAdvances(first, next, totalSize);
      }
      totalSize := totalSize - |first|;
      if totalSize > 0 {
        first := NextFragment(next, totalSize);
        next := next[1..];
      } else {
        first := [];
      }
    }

    /** More than there is cannot be asked for: the loop would not end. */
    method RemovePrefix(n: nat)
      requires Valid() && n <= totalSize
      modifies this
      ensures Valid() && Contents() == old(Contents())[n..]
    {
      hide Flatten;
      ghost var all := Contents();
      var left := n;
      while left >= |first| && left > 0
        invariant Valid() && 0 <= left <= totalSize <= |all| && n - left == |all| - totalSize
        invariant Contents() == all[n - left..]
        decreases left, |next|
      {
        left := left - |first|;
        RemoveCurrent();
      }
      totalSize := totalSize - left;
      ghost var whole := first + Flatten(next);
      first := first[left..];
      assert first + Flatten(next) == whole[left..];
    }

    method Prefix(n: nat) returns (r: BufferView)
      requires Valid()
      ensures fresh(r) && r.Valid() && r.Contents() == Contents()[..Min(n, totalSize)]
    {
      var size := Min(totalSize, n);
      var cut := if |first| > n then first[..n] else first;
      assert size <= |cut| + |Flatten(next)|;
      r := new BufferView(cut, size, next);
    }

    /** Copies the fragments one after the other. */
    method Linearize() returns (b: seq<byte>)
      requires Valid()
      ensures b == Contents()
    {
      b := [];
      var current, left, rest := first, totalSize, next;
      ghost var all := Contents();
      while left != 0
        invariant |current| <= left <= |current| + |Flatten(rest)|
        invariant b + Stretch(current, rest, left) == all
        decreases left, |rest|
      {
        if left > |current| {
          StretchAdvances(current, rest, left);
        }
        assert Stretch(current, rest, left)[..|current|] == current;
        b := b + current;
        left := left - |current|;
        if left > 0 {
          current, rest := NextFragment(rest, left), rest[1..];
        } else {
          current := [];
        }
      }
    }
  }
}
