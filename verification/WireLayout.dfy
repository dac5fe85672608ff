/** The bytes on the wire, type by type: what a written value looks like and what given bytes read
    as, without reference to how either is computed. */
module WireLayout {
  import opened Wrappers
  import opened Integers
  import opened Fragments
  import opened WireFormat
  import opened WireTheorems

  // ---------- numbers ----------

  /** The bytes are the digits of `n` in base 256, the least significant first. */
  predicate Spells(b: seq<byte>, n: int) {
    0 <= n < Pow(|b|) && forall k | 0 <= k < |b| :: b[k] == n / Pow(k) % 256
  }

  lemma DivideTwice(n: nat, m: nat)
    requires m > 0
    ensures n / 256 / m == n / (256 * m)
  {
    var q, r := n / 256, n % 256;
    var a, b := q / m, q % m;
    assert n == (256 * m) * a + (256 * b + r);
    assert 256 * b + r < 256 * m;
    Quotient(n, 256 * m, a, 256 * b + r);
  }

  lemma Quotient(n: nat, d: nat, q: nat, r: nat)
    requires n == d * q + r && r < d
    ensures n / d == q
  {
    Remainder(n, d, q, r);
    assert d * (n / d) == d * q;
  }

  /** Byte `k` is digit `k`. */
  lemma {:induction false} ByteAt(n: nat, w: nat, k: nat)
    requires k < w
    ensures LittleEndian(n, w)[k] == n / Pow(k) % 256
  {
    if k > 0 {
      ByteAt(n / 256, w - 1, k - 1);
      DivideTwice(n, Pow(k - 1));
    }
  }

  lemma WrittenSpells(n: nat, w: nat)
    requires n < Pow(w)
    ensures Spells(LittleEndian(n, w), n)
  {
    forall k: nat | k < w ensures LittleEndian(n, w)[k] == n / Pow(k) % 256 {
      ByteAt(n, w, k);
    }
  }

  /** Bytes are read as the number that they spell, which is the only one. */
  lemma ReadsAsSpelled(b: seq<byte>)
    ensures forall n: int :: Spells(b, n) <==> n == FromLittleEndian(b)
  {
    FromLittleEndianRoundTrip(b);
    WrittenSpells(FromLittleEndian(b), |b|);
    forall n: int | Spells(b, n) ensures n == FromLittleEndian(b) {
      forall k: nat | k < |b| ensures LittleEndian(n, |b|)[k] == b[k] {
        ByteAt(n, |b|, k);
      }
      assert LittleEndian(n, |b|) == b;
      LittleEndianRoundTrip(n, |b|);
    }
  }

  // ---------- written values ----------

  ghost function BytesOf(t: Type, v: Value): seq<byte> {
    if HasType(t, v) && Write(t, v).Some? then Write(t, v).value else []
  }

  ghost function ItemParts(t: Type, vs: seq<Value>): seq<Fragment> {
    seq(|vs|, k requires 0 <= k < |vs| => BytesOf(t, vs[k]))
  }

  /** Each key is followed by its value. */
  ghost function EntryParts(k: Type, e: Type, entries: seq<(Value, Value)>): seq<Fragment> {
    seq(|entries|, j requires 0 <= j < |entries| => BytesOf(k, entries[j].0) + BytesOf(e, entries[j].1))
  }

  function KindAt(ms: Members, k: nat): Type
    requires k < Length(ms)
  {
    if k == 0 then ms.kind else KindAt(ms.rest, k - 1)
  }

  ghost function MemberParts(ms: Members, vs: seq<Value>): seq<Fragment>
    requires |vs| == Length(ms)
  {
    seq(|vs|, k requires 0 <= k < |vs| => BytesOf(KindAt(ms, k), vs[k]))
  }

  /** A 32-bit number followed by the body. */
  predicate Prefixed(b: seq<byte>, n: int, body: seq<byte>) {
    4 <= |b| && Spells(b[..4], n) && b[4..] == body
  }

  /** The wire format.  Negative numbers are written in two's complement; of a blob's length the low
      32 bits are kept; a frame's size counts its own four bytes. */
  ghost predicate LaidOut(t: Type, v: Value, b: seq<byte>)
    requires HasType(t, v)
  {
    match t
    case Integer(w, _) => |b| == w && Spells(b, if v.number < 0 then v.number + Pow(w) else v.number)
    case Bool => b == [if v.flag then 1 else 0]
    case Bytes => Prefixed(b, |v.data| % U32, v.data)
    case Vector(e) => Prefixed(b, |v.items|, Flatten(ItemParts(e, v.items)))
    case Optional(e) => b == if v.inner.None? then [0] else [1] + BytesOf(e, v.inner.value)
    case Map(k, e) => Prefixed(b, |v.entries|, Flatten(EntryParts(k, e, v.entries)))
    case Final(ms) => b == Flatten(MemberParts(ms, v.fields))
    case Framed(ms) => Prefixed(b, |b|, Flatten(MemberParts(ms, v.fields)))
  }

  /** Whatever is written has this layout. */
  lemma WrittenIsLaidOut(t: Type, v: Value)
    requires HasType(t, v) && Write(t, v).Some?
    ensures LaidOut(t, v, Write(t, v).value)
  {
    hide LittleEndian, Flatten, Spells, Pow, Measure, WriteAll, WriteEntries, WriteMembers, ItemParts, EntryParts,
      MemberParts;
    match t
    case Integer(w, signed) =>
      TwosComplement(v.number, w, signed);
      WrittenSpells(if v.number < 0 then v.number + Pow(w) else v.number, w);
    case Bool =>
    case Bytes => CountIsPrefix(|v.data| % U32, v.data);
    case Vector(e) =>
      AllLaidOut(e, v.items);
      CountIsPrefix(|v.items|, WriteAll(e, v.items).value);
    case Optional(e) =>
    case Map(k, e) =>
      EntriesLaidOut(t, v.entries);
      CountIsPrefix(|v.entries|, WriteEntries(t, v.entries).value);
    case Final(ms) => MembersLaidOut(ms, v.fields);
    case Framed(ms) =>
      MembersLaidOut(ms, v.fields);
      MeasureIsSize(t, v);
      CountIsPrefix(Measure(t, v).value, WriteMembers(ms, v.fields).value);
  }

  lemma CountIsPrefix(n: nat, body: seq<byte>)
    requires n < U32
    ensures Prefixed(LittleEndian(n, 4) + body, n, body)
  {
    hide LittleEndian, Spells;
    Pow4();
    WrittenSpells(n, 4);
    var b := LittleEndian(n, 4) + body;
    assert b[..4] == LittleEndian(n, 4) && b[4..] == body;
  }

  lemma {:induction false} AllLaidOut(t: Type, vs: seq<Value>)
    requires (forall x | x in vs :: HasType(t, x)) && WriteAll(t, vs).Some?
    ensures WriteAll(t, vs).value == Flatten(ItemParts(t, vs))
    decreases |vs|
  {
    hide Write, HasType;
    if vs != [] {
      AllLaidOut(t, vs[1..]);
      assert ItemParts(t, vs) == [BytesOf(t, vs[0])] + ItemParts(t, vs[1..]);
      FlattenCons(BytesOf(t, vs[0]), ItemParts(t, vs[1..]));
    }
  }

  lemma {:induction false} EntriesLaidOut(t: Type, entries: seq<(Value, Value)>)
    requires t.Map? && forall x | x in entries :: HasType(t.key, x.0) && HasType(t.mapped, x.1)
    requires WriteEntries(t, entries).Some?
    ensures WriteEntries(t, entries).value == Flatten(EntryParts(t.key, t.mapped, entries))
    decreases |entries|
  {
    hide Write, HasType;
    if entries != [] {
      EntriesLaidOut(t, entries[1..]);
      var first := BytesOf(t.key, entries[0].0) + BytesOf(t.mapped, entries[0].1);
      var later := EntryParts(t.key, t.mapped, entries[1..]);
      assert EntryParts(t.key, t.mapped, entries) == [first] + later;
      FlattenCons(first, later);
    }
  }

  lemma {:induction false} MembersLaidOut(ms: Members, vs: seq<Value>)
    requires HaveTypes(ms, vs) && WriteMembers(ms, vs).Some?
    ensures WriteMembers(ms, vs).value == Flatten(MemberParts(ms, vs))
    decreases ms
  {
    hide Write, HasType;
    if ms.Member? {
      MembersLaidOut(ms.rest, vs[1..]);
      assert MemberParts(ms, vs) == [BytesOf(ms.kind, vs[0])] + MemberParts(ms.rest, vs[1..]);
      FlattenCons(BytesOf(ms.kind, vs[0]), MemberParts(ms.rest, vs[1..]));
    }
  }

  // ---------- arbitrary bytes ----------

  /** Any `w` bytes are an integer, the one that they spell in two's complement. */
  lemma AnyBytesAreAnInteger(w: Width, signed: bool, s: seq<byte>)
    ensures Read(Integer(w, signed), s).Got? <==> w <= |s|
    ensures w <= |s| ==>
              var r := Read(Integer(w, signed), s);
              && r.rest == s[w..] && HasType(Integer(w, signed), r.value)
              && Spells(s[..w], if r.value.number < 0 then r.value.number + Pow(w) else r.value.number)
  {
    hide Spells, FromLittleEndian, Pow, FromUnsigned, InRange;
    if w <= |s| {
      ReadsAsSpelled(s[..w]);
      FromLittleEndianRoundTrip(s[..w]);
      SignedBack(FromLittleEndian(s[..w]), w, signed);
    }
  }

  lemma SignedBack(u: nat, w: Width, signed: bool)
    requires u < Pow(w)
    ensures var n := FromUnsigned(u, w, signed); InRange(n, w, signed) && u == if n < 0 then n + Pow(w) else n
  {}

  /** Any byte is a bool, true exactly if it is not zero. */
  lemma AnyByteIsABool(s: seq<byte>)
    ensures Read(Bool, s) == if s == [] then Underflow else Got(Flag(s[0] != 0), s[1..])
  {
    if s != [] {
      assert s[..1] == [s[0]] && FromLittleEndian([s[0]]) == s[0];
    }
  }

  /** Any byte but zero announces a value. */
  lemma AnyByteIsAFlag(e: Type, s: seq<byte>)
    ensures s == [] ==> Read(Optional(e), s).Underflow?
    ensures s != [] && s[0] == 0 ==> Read(Optional(e), s) == Got(Maybe(None), s[1..])
    ensures s != [] && s[0] != 0 ==>
              && (Read(Optional(e), s).Got? <==> Read(e, s[1..]).Got?)
              && (Read(e, s[1..]).Got? ==>
                    Read(Optional(e), s) == Got(Maybe(Some(Read(e, s[1..]).value)), Read(e, s[1..]).rest))
  {
    if s != [] {
      assert s[..1] == [s[0]] && FromLittleEndian([s[0]]) == s[0];
    }
  }

  /** A frame is skipped by the size it states, whatever it holds. */
  lemma FramesAreSkippedBySize(ms: Members, s: seq<byte>, n: nat)
    requires 4 <= |s| && Spells(s[..4], n)
    ensures Skip(Framed(ms), s) == if 4 <= n <= |s| then Some(s[n..]) else None
    ensures Skip(Bytes, s) == if 4 + n <= |s| then Some(s[4 + n..]) else None
  {
    ReadsAsSpelled(s[..4]);
    if 4 <= n <= |s| {
      assert s[4..][n - 4..] == s[n..];
    }
    if 4 + n <= |s| {
      assert s[4..][n..] == s[4 + n..];
    }
  }

  // ---------- repeated keys ----------

  /** Keys and values as they come. */
  function ReadPairs(t: Type, n: nat, s: seq<byte>): Parsed<seq<(Value, Value)>>
    requires t.Map?
    decreases n
  {
    if n == 0 then Got([], s)
    else
      match Read(t.key, s)
      case Underflow => Underflow
      case Got(key, rest) =>
        match Read(t.mapped, rest)
        case Underflow => Underflow
        case Got(mapped, after) =>
          match ReadPairs(t, n - 1, after)
          case Underflow => Underflow
          case Got(later, end) => Got([(key, mapped)] + later, end)
  }

  ghost predicate IsFirst(pairs: seq<(Value, Value)>, k: nat) {
    k < |pairs| && forall j | 0 <= j < k :: pairs[j].0 != pairs[k].0
  }

  /** The entries are, for each key among the pairs, the first pair that has it. */
  ghost predicate KeepsFirst(pairs: seq<(Value, Value)>, entries: seq<(Value, Value)>) {
    && DistinctKeys(entries)
    && (forall x | x in entries :: exists k: nat | k < |pairs| :: pairs[k] == x && IsFirst(pairs, k))
    && (forall y | y in pairs :: exists x | x in entries :: x.0 == y.0)
  }

  lemma EmplaceKeepsFirst(pairs: seq<(Value, Value)>, entries: seq<(Value, Value)>, key: Value, mapped: Value)
    requires KeepsFirst(pairs, entries)
    ensures KeepsFirst(pairs + [(key, mapped)], Emplace(entries, key, mapped))
  {
    var pairs', entries' := pairs + [(key, mapped)], Emplace(entries, key, mapped);
    forall x | x in entries' ensures exists k: nat | k < |pairs'| :: pairs'[k] == x && IsFirst(pairs', k) {
      if x in entries {
        var k: nat :| k < |pairs| && pairs[k] == x && IsFirst(pairs, k);
        assert pairs'[k] == x && IsFirst(pairs', k);
      } else {
        forall j | 0 <= j < |pairs| ensures pairs'[j].0 != key {
          assert pairs[j] in pairs;
        }
        assert pairs'[|pairs|] == x && IsFirst(pairs', |pairs|);
      }
    }
    forall y | y in pairs' ensures exists x | x in entries' :: x.0 == y.0 {
      if y in pairs {
        var x :| x in entries && x.0 == y.0;
        assert x in entries';
      } else if entries' != entries {
        assert entries'[|entries|] == y;
      }
    }
  }

  /** Of a map whose keys repeat, on any bytes, the first value of each key is read. */
  lemma {:induction false} RepeatedKeys(t: Type, n: nat, s: seq<byte>, seen: seq<(Value, Value)>,
                                        done: seq<(Value, Value)>)
    requires t.Map? && KeepsFirst(seen, done)
    ensures var r, pairs := ReadEntries(t, n, s, done), ReadPairs(t, n, s);
            && (r.Got? <==> pairs.Got?)
            && (r.Got? ==> r.rest == pairs.rest && KeepsFirst(seen + pairs.value, r.value))
    decreases n
  {
    hide Read, Emplace, KeepsFirst, ReadEntries, ReadPairs;
    if n == 0 {
      NoPair(t, s, done);
      assert seen + [] == seen;
    } else {
      var key := Read(t.key, s);
      FirstPair(t, n, s, done);
      if key.Got? && Read(t.mapped, key.rest).Got? {
        var mapped := Read(t.mapped, key.rest);
        var pair := (key.value, mapped.value);
        EmplaceKeepsFirst(seen, done, key.value, mapped.value);
        RepeatedKeys(t, n - 1, mapped.rest, seen + [pair], Emplace(done, key.value, mapped.value));
        var later := ReadPairs(t, n - 1, mapped.rest);
        assert later.Got? ==> seen + [pair] + later.value == seen + ([pair] + later.value);
      }
    }
  }

  lemma NoPair(t: Type, s: seq<byte>, done: seq<(Value, Value)>)
    requires t.Map?
    ensures ReadEntries(t, 0, s, done) == Got(done, s) && ReadPairs(t, 0, s) == Got([], s)
  {}

  lemma FirstPair(t: Type, n: nat, s: seq<byte>, done: seq<(Value, Value)>)
    requires t.Map? && n > 0
    ensures var key := Read(t.key, s);
            if key.Got? && Read(t.mapped, key.rest).Got? then
              var mapped := Read(t.mapped, key.rest);
              var later := ReadPairs(t, n - 1, mapped.rest);
              && ReadEntries(t, n, s, done) ==
                 ReadEntries(t, n - 1, mapped.rest, Emplace(done, key.value, mapped.value))
              && (ReadPairs(t, n, s).Got? <==> later.Got?)
              && (later.Got? ==> ReadPairs(t, n, s) == Got([(key.value, mapped.value)] + later.value, later.rest))
            else ReadEntries(t, n, s, done).Underflow? && ReadPairs(t, n, s).Underflow?
  {
    hide Read, Emplace;
  }

  lemma MapKeepsFirst(k: Type, e: Type, s: seq<byte>, n: nat)
    requires 4 <= |s| && Spells(s[..4], n)
    ensures var r, pairs := Read(Map(k, e), s), ReadPairs(Map(k, e), n, s[4..]);
            && (r.Got? <==> pairs.Got?)
            && (r.Got? ==> r.rest == pairs.rest && r.value.Table? && KeepsFirst(pairs.value, r.value.entries))
  {
    hide Spells, ReadEntries, ReadPairs, FromLittleEndian;
    ReadsAsSpelled(s[..4]);
    NothingToKeep();
    RepeatedKeys(Map(k, e), n, s[4..], [], []);
    var pairs := ReadPairs(Map(k, e), n, s[4..]);
    assert pairs.Got? ==> [] + pairs.value == pairs.value;
  }

  lemma NothingToKeep()
    ensures KeepsFirst([], [])
  {}
}
