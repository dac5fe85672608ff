/** `cartesian_product`: an odometer over vectors, and the numbers it counts through. */
module CartesianProduct {

  // ---------- mixed radix ----------

  function Product(radix: seq<nat>): nat {
    if radix == [] then 1 else Product(radix[..|radix| - 1]) * radix[|radix| - 1]
  }

  predicate Digits(radix: seq<nat>, d: seq<nat>) {
    |d| == |radix| && forall k | 0 <= k < |d| :: d[k] < radix[k]
  }

  /** The number with these digits, the last one counting ones. */
  function Value(radix: seq<nat>, d: seq<nat>): nat
    requires |d| == |radix|
  {
    if d == [] then 0
    else
      var n := |d| - 1;
      Value(radix[..n], d[..n]) * radix[n] + d[n]
  }

  /** The digits of a number. */
  function Decode(radix: seq<nat>, v: nat): (d: seq<nat>)
    requires v < Product(radix)
    ensures Digits(radix, d)
  {
    if radix == [] then []
    else
      var n := |radix| - 1;
      QuotientFits(v, radix[n], Product(radix[..n]));
      Decode(radix[..n], v / radix[n]) + [v % radix[n]]
  }

  lemma Times(a: nat, b: nat, r: nat)
    requires a <= b
    ensures a * r <= b * r
  {}

  lemma QuotientFits(v: nat, r: nat, p: nat)
    requires v < p * r
    ensures r > 0 && v / r < p && v == v / r * r + v % r
  {
    assert p * 0 == 0;
    if p <= v / r { Times(p, v / r, r); assert false; }
  }

  lemma DivMod(q: nat, r: nat, d: nat)
    requires d < r
    ensures (q * r + d) / r == q && (q * r + d) % r == d
  {
    var v := q * r + d;
    QuotientRest(v / r, v % r, q, d, r);
  }

  /** Quotient and rest are unique, and order numbers lexicographically. */
  lemma QuotientRest(x: nat, a: nat, y: nat, b: nat, r: nat)
    requires a < r && b < r
    ensures x * r + a < y * r + b <==> x < y || (x == y && a < b)
    ensures x * r + a == y * r + b ==> x == y && a == b
  {
    if x < y { Times(x + 1, y, r); }
    if y < x { Times(y + 1, x, r); }
  }

  lemma {:induction false} ValueOfDecode(radix: seq<nat>, v: nat)
    requires v < Product(radix)
    ensures Value(radix, Decode(radix, v)) == v
  {
    if radix != [] {
      var n := |radix| - 1;
      QuotientFits(v, radix[n], Product(radix[..n]));
      ValueOfDecode(radix[..n], v / radix[n]);
      assert Decode(radix, v)[..n] == Decode(radix[..n], v / radix[n]);
    }
  }

  lemma {:induction false} DecodeOfValue(radix: seq<nat>, d: seq<nat>)
    requires Digits(radix, d)
    ensures Value(radix, d) < Product(radix) && Decode(radix, Value(radix, d)) == d
  {
    if d != [] {
      var n := |d| - 1;
      var q, p := Value(radix[..n], d[..n]), Product(radix[..n]);
      DecodeOfValue(radix[..n], d[..n]);
      ValueFits(q, radix[n], d[n], p);
      DivMod(q, radix[n], d[n]);
      assert d[..n] + [d[n]] == d;
    }
  }

  lemma ValueFits(q: nat, r: nat, d: nat, p: nat)
    requires q < p && d < r
    ensures q * r + d < p * r
  {
    Times(q + 1, p, r);
  }

  predicate LexLess(a: seq<nat>, b: seq<nat>)
    requires |a| == |b|
  {
    exists k | 0 <= k < |a| :: a[k] < b[k] && a[..k] == b[..k]
  }

  /** Counting up is going through the tuples in lexicographic order. */
  lemma {:induction false} ValueIsLexicographic(radix: seq<nat>, a: seq<nat>, b: seq<nat>)
    requires Digits(radix, a) && Digits(radix, b)
    ensures Value(radix, a) < Value(radix, b) <==> LexLess(a, b)
  {
    if a != [] {
      var n := |a| - 1;
      var x, y, r := Value(radix[..n], a[..n]), Value(radix[..n], b[..n]), radix[n];
      ValueIsLexicographic(radix[..n], a[..n], b[..n]);
      LexStep(a, b);
      QuotientRest(x, a[n], y, b[n], r);
      DecodeOfValue(radix[..n], a[..n]);
      DecodeOfValue(radix[..n], b[..n]);
      assert x == y <==> a[..n] == b[..n];
    }
  }

  /** The tuples of a full walk come in strictly increasing lexicographic order. */
  lemma DecodeIsLexicographic(radix: seq<nat>, i: nat, j: nat)
    requires i < j < Product(radix)
    ensures LexLess(Decode(radix, i), Decode(radix, j))
  {
    ValueOfDecode(radix, i);
    ValueOfDecode(radix, j);
    ValueIsLexicographic(radix, Decode(radix, i), Decode(radix, j));
  }

  lemma LexStep(a: seq<nat>, b: seq<nat>)
    requires |a| == |b| > 0
    ensures var n := |a| - 1; LexLess(a, b) <==> LexLess(a[..n], b[..n]) || (a[..n] == b[..n] && a[n] < b[n])
  {
    var n := |a| - 1;
    if k :| 0 <= k < |a| && a[k] < b[k] && a[..k] == b[..k] {
      if k < n {
        assert a[..n][..k] == a[..k] && b[..n][..k] == b[..k];
        assert a[..n][k] < b[..n][k];
      }
    }
    if k :| 0 <= k < n && a[..n][k] < b[..n][k] && a[..n][..k] == b[..n][..k] {
      assert a[..n][..k] == a[..k] && b[..n][..k] == b[..k];
    }
  }

  // ---------- carrying ----------

  /** Digit `i` goes up by one and the digits after it, all at their maximum, go back to zero. */
  function Carried(d: seq<nat>, i: nat): (r: seq<nat>)
    requires i < |d|
    ensures |r| == |d|
  {
    d[..i] + [d[i] + 1] + seq(|d| - i - 1, _ => 0)
  }

  lemma IsCarried(d: seq<nat>, i: nat, c: seq<nat>)
    requires i < |d| == |c| && c[..i] == d[..i] && c[i] == d[i] + 1 && forall j | i < j < |d| :: c[j] == 0
    ensures c == Carried(d, i)
  {}

  lemma {:induction false} CarryIsSuccessor(radix: seq<nat>, d: seq<nat>, i: nat)
    requires |d| == |radix| && i < |d| && forall k | i < k < |d| :: d[k] + 1 == radix[k]
    ensures Value(radix, Carried(d, i)) == Value(radix, d) + 1
  {
    var n := |d| - 1;
    if i == n {
      assert Carried(d, i)[..n] == d[..n];
    } else {
      CarryIsSuccessor(radix[..n], d[..n], i);
      assert Carried(d, i)[..n] == Carried(d[..n], i);
      assert (Value(radix[..n], d[..n]) + 1) * radix[n] == Value(radix[..n], d[..n]) * radix[n] + radix[n];
    }
  }

  lemma {:induction false} AllAtMaximum(radix: seq<nat>, d: seq<nat>)
    requires Digits(radix, d) && forall k | 0 <= k < |d| :: d[k] + 1 == radix[k]
    ensures Value(radix, d) + 1 == Product(radix)
  {
    if d != [] {
      var n := |d| - 1;
      AllAtMaximum(radix[..n], d[..n]);
      assert (Value(radix[..n], d[..n]) + 1) * radix[n] == Value(radix[..n], d[..n]) * radix[n] + radix[n];
    }
  }

  lemma {:induction false} ZerosAreZero(radix: seq<nat>, d: seq<nat>)
    requires |d| == |radix| && forall k | 0 <= k < |d| :: d[k] == 0
    ensures Value(radix, d) == 0
  {
    if d != [] {
      ZerosAreZero(radix[..|d| - 1], d[..|d| - 1]);
    }
  }

  lemma {:induction false} ProductIsZero(radix: seq<nat>)
    ensures Product(radix) == 0 <==> 0 in radix
  {
    if radix != [] {
      ProductIsZero(radix[..|radix| - 1]);
    }
  }

  // ---------- the iterator ----------

  function Sizes<T>(vecs: seq<seq<T>>): (r: seq<nat>)
    ensures |r| == |vecs|
  {
    seq(|vecs|, k requires 0 <= k < |vecs| => |vecs[k]|)
  }

  function Tuple<T>(vecs: seq<seq<T>>, d: seq<nat>): (r: seq<T>)
    requires Digits(Sizes(vecs), d)
    ensures |r| == |vecs| && forall k | 0 <= k < |r| :: r[k] == vecs[k][d[k]]
  {
    seq(|vecs|, k requires 0 <= k < |vecs| => vecs[k][d[k]])
  }

  const AT_END := -1

  class ProductIterator<T> {
    const vecs: seq<seq<T>>
    var pos: int
    var iterators: seq<nat>

    /** Before the end, the iterators are the digits of the position. */
    ghost predicate Valid()
      reads this
    {
      || pos == AT_END
      || (0 <= pos < Product(Sizes(vecs)) && Digits(Sizes(vecs), iterators) && Value(Sizes(vecs), iterators) == pos)
    }

    constructor (vecs: seq<seq<T>>)
      ensures Valid() && this.vecs == vecs
      ensures pos == if Product(Sizes(vecs)) == 0 then AT_END else 0
    {
      this.vecs := vecs;
      pos := 0;
      var its: seq<nat> := [];
      var end := false;
      for k := 0 to |vecs|
        invariant |its| == k && !end
        invariant forall j | 0 <= j < k :: its[j] == 0 && vecs[j] != []
      {
        its := its + [0];
        if vecs[k] == [] {
          end := true;
          break;
        }
      }
      if end {
        pos := AT_END;
      }
      iterators := its;
      new;
      ProductIsZero(Sizes(vecs));
      if end {
        assert Sizes(vecs)[|its| - 1] == 0;
      } else {
        ZerosAreZero(Sizes(vecs), its);
      }
    }

    method Dereference() returns (current: seq<T>)
      requires Valid() && pos != AT_END
      ensures current == Tuple(vecs, Decode(Sizes(vecs), pos))
    {
      DecodeOfValue(Sizes(vecs), iterators);
      current := [];
      for k := 0 to |iterators|
        invariant |current| == k && forall j | 0 <= j < k :: current[j] == vecs[j][iterators[j]]
      {
        current := current + [vecs[k][iterators[k]]];
      }
    }

    method Increment()
      requires Valid() && pos != AT_END
      modifies this
      ensures Valid()
      ensures pos == if old(pos) + 1 < Product(Sizes(vecs)) then old(pos) + 1 else AT_END
    {
      hide Value, Product, Carried;
      ghost var d, radix := iterators, Sizes(vecs);
      pos := pos + 1;
      var i := |iterators|;
      while i > 0
        invariant 0 <= i <= |d| == |iterators| && iterators[..i] == d[..i] && pos == old(pos) + 1
        invariant forall j | i <= j < |d| :: iterators[j] == 0 && d[j] + 1 == radix[j]
      {
        i := i - 1;
        iterators := iterators[i := iterators[i] + 1];
        if iterators[i] != |vecs[i]| {
          IsCarried(d, i, iterators);
          CarryIsSuccessor(radix, d, i);
          DecodeOfValue(radix, iterators);
          return;
        }
        iterators := iterators[i := 0];
      }
      AllAtMaximum(radix, d);
      pos := AT_END;
    }
  }

  /** A full walk visits every tuple once, in the order of their numbers. */
  method VisitAll<T>(vecs: seq<seq<T>>) returns (tuples: seq<seq<T>>)
    ensures |tuples| == Product(Sizes(vecs))
    ensures forall k | 0 <= k < |tuples| :: tuples[k] == Tuple(vecs, Decode(Sizes(vecs), k))
  {
    hide Tuple, Decode, Product;
    var it := new ProductIterator(vecs);
    tuples := [];
    while it.pos != AT_END
      invariant it.Valid() && it.vecs == vecs && fresh(it) && |tuples| <= Product(Sizes(vecs))
      invariant |tuples| == if it.pos == AT_END then Product(Sizes(vecs)) else it.pos
      invariant forall k | 0 <= k < |tuples| :: tuples[k] == Tuple(vecs, Decode(Sizes(vecs), k))
      decreases Product(Sizes(vecs)) - |tuples|, it.pos
    {
      DecodeOfValue(Sizes(vecs), it.iterators);
      var t := it.Dereference();
      tuples := tuples + [t];
      it.Increment();
    }
  }

  method ProductSize<T>(vecs: seq<seq<T>>) returns (r: nat)
    ensures r == Product(Sizes(vecs))
  {
    r := 1;
    for k := 0 to |vecs|
      invariant r == Product(Sizes(vecs)[..k])
    {
      assert Sizes(vecs)[..k + 1][..k] == Sizes(vecs)[..k];
      r := r * |vecs[k]|;
    }
    assert Sizes(vecs)[..|vecs|] == Sizes(vecs);
  }

  /** Calls a product of no vectors empty, although it has one tuple, the empty one. */
  method ProductIsEmpty<T>(vecs: seq<seq<T>>) returns (r: bool)
    ensures r <==> Product(Sizes(vecs)) == 0 || vecs == []
  {
    ProductIsZero(Sizes(vecs));
    for k := 0 to |vecs|
      invariant forall j | 0 <= j < k :: vecs[j] != []
    {
      if vecs[k] == [] {
        assert Sizes(vecs)[k] == 0;
        return true;
      }
    }
    return vecs == [];
  }
}
