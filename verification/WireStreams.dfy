/** The serializers as they run: cursors over streams, loops over containers, the bulk path for
    arrays of integers.  Each is proved to do what the whole-string functions say. */
module WireStreams {
  import opened Wrappers
  import opened Integers
  import opened WireFormat
  import opened WireTheorems

  // ---------- bulk arrays ----------

  /** An array of integers as it lies in memory. */
  function ArrayMemory(host: Host, w: Width, signed: bool, vs: seq<Value>): (r: seq<byte>)
    requires forall x | x in vs :: HasType(Integer(w, signed), x)
    ensures |r| == |vs| * w
  {
    if vs == [] then []
    else
      assert HasType(Integer(w, signed), vs[0]);
      TwosComplement(vs[0].number, w, signed);
      Memory(host, ToUnsigned(vs[0].number, w), w) + ArrayMemory(host, w, signed, vs[1..])
  }

  function FromArrayMemory(host: Host, w: Width, signed: bool, n: nat, b: seq<byte>): seq<Value>
    requires |b| == n * w
  {
    if n == 0 then []
    else [Number(FromUnsigned(FromMemory(host, b[..w]), w, signed))] + FromArrayMemory(host, w, signed, n - 1, b[w..])
  }

  /** Copying the array's memory writes what element-by-element encoding writes. */
  lemma {:induction false} BulkWrites(host: Host, w: Width, signed: bool, vs: seq<Value>)
    requires CanSerializeFast(host, w) && forall x | x in vs :: HasType(Integer(w, signed), x)
    ensures WriteAll(Integer(w, signed), vs) == Some(ArrayMemory(host, w, signed, vs))
  {
    if vs != [] {
      BulkCopy(host, w);
      assert vs[0] in vs;
      TwosComplement(vs[0].number, w, signed);
      BulkWrites(host, w, signed, vs[1..]);
    }
  }

  lemma OneMore(n: int, w: int)
    ensures n * w == w + (n - 1) * w
  {}

  lemma SliceTwice(s: seq<byte>, a: nat, b: nat)
    requires a + b <= |s|
    ensures s[..a + b][..a] == s[..a] && s[..a + b][a..] == s[a..][..b] && s[a + b..] == s[a..][b..]
  {}

  lemma {:induction false} BulkReads(host: Host, w: Width, signed: bool, n: nat, s: seq<byte>)
    requires CanSerializeFast(host, w)
    ensures ReadAll(Integer(w, signed), n, s) ==
            if n * w <= |s| then Got(FromArrayMemory(host, w, signed, n, s[..n * w]), s[n * w..]) else Underflow
    decreases n
  {
    if n > 0 {
      var m := (n - 1) * w;
      OneMore(n, w);
      if w <= |s| {
        BulkRead(host, s[..w]);
        BulkReads(host, w, signed, n - 1, s[w..]);
        if n * w <= |s| {
          SliceTwice(s, w, m);
        }
      }
    } else {
      assert s[..0] == [] && s[0..] == s;
    }
  }

  lemma {:induction false} BulkSkips(w: Width, signed: bool, n: nat, s: seq<byte>)
    ensures SkipAll(Integer(w, signed), n, s) == Drop(n * w, s)
    decreases n
  {
    hide Drop;
    if n > 0 {
      OneMore(n, w);
      DropTwice(w, (n - 1) * w, s);
      if w <= |s| {
        BulkSkips(w, signed, n - 1, s[w..]);
      }
    } else {
      DropTwice(0, 0, s);
    }
  }

  lemma DropTwice(a: nat, b: nat, s: seq<byte>)
    ensures Drop(0, s) == Some(s)
    ensures Drop(a, s) == if a <= |s| then Some(s[a..]) else None
    ensures Drop(a + b, s) == if a <= |s| then Drop(b, s[a..]) else None
  {}

  predicate Bulk(host: Host, t: Type) {
    t.Integer? && CanSerializeFast(host, t.width)
  }

  // ---------- input ----------

  /** A memory input stream: what is left of a buffer. */
  class InputStream {
    const data: seq<byte>
    var begin: nat
    var size: nat

    ghost predicate Valid()
      reads this
    {
      begin + size <= |data|
    }

    ghost function Rest(): (r: seq<byte>)
      requires Valid()
      reads this
      ensures |r| == size
    {
      data[begin..begin + size]
    }

    constructor (data: seq<byte>)
      ensures Valid() && Rest() == data
    {
      this.data, begin, size := data, 0, |data|;
    }

    constructor Part(data: seq<byte>, begin: nat, size: nat)
      requires begin + size <= |data|
      ensures Valid() && Rest() == data[begin..begin + size]
    {
      this.data, this.begin, this.size := data, begin, size;
    }

    method Copy() returns (c: InputStream)
      requires Valid()
      ensures fresh(c) && c.Valid() && c.Rest() == Rest()
    {
      c := new InputStream.Part(data, begin, size);
    }

    method Read(n: nat) returns (r: Option<seq<byte>>)
      requires Valid()
      modifies this
      ensures Valid() && (r.Some? <==> n <= |old(Rest())|)
      ensures r.Some? ==> r.value == old(Rest())[..n] && Rest() == old(Rest())[n..]
    {
      if n > size {
        return None;
      }
      r := Some(data[begin..begin + n]);
      begin, size := begin + n, size - n;
    }

    method Skip(n: nat) returns (ok: bool)
      requires Valid()
      modifies this
      ensures Valid() && (ok <==> Drop(n, old(Rest())).Some?)
      ensures ok ==> Rest() == Drop(n, old(Rest())).value
    {
      ok := n <= size;
      if ok {
        begin, size := begin + n, size - n;
      }
    }

    method ReadUnsigned(w: nat) returns (r: Option<nat>)
      requires Valid()
      modifies this
      ensures Valid()
      ensures match WireFormat.ReadUnsigned(w, old(Rest()))
              case Underflow => r.None?
              case Got(n, rest) => r == Some(n) && Rest() == rest
    {
      var b := Read(w);
      return if b.None? then None else Some(FromLittleEndian(b.value));
    }

    /** `read_substream` of what a length prefix announces; the prefix counts `extra` bytes of itself. */
    method ReadSized(extra: nat) returns (r: Option<InputStream>)
      requires Valid()
      modifies this
      ensures Valid()
      ensures match WireFormat.ReadSized(extra, old(Rest()))
              case Underflow => r.None?
              case Got(b, rest) => r.Some? && fresh(r.value) && r.value.Valid() && r.value.Rest() == b && Rest() == rest
    {
      var n := ReadUnsigned(4);
      if n.None? || n.value < extra || n.value - extra > size {
        return None;
      }
      var m := n.value - extra;
      var sub := new InputStream.Part(data, begin, m);
      begin, size := begin + m, size - m;
      return Some(sub);
    }
  }

  // ---------- reading ----------

  /** The outcome of reading, as the value and what is left of the stream. */
  ghost predicate Reads<T>(r: Option<T>, s: InputStream, p: Parsed<T>)
    reads s
  {
    s.Valid() && match p case Underflow => r.None? case Got(v, rest) => r == Some(v) && s.Rest() == rest
  }

  function Attach<T>(done: seq<T>, p: Parsed<seq<T>>): Parsed<seq<T>> {
    match p case Underflow => Underflow case Got(vs, rest) => Got(done + vs, rest)
  }

  lemma AttachLaws<T>(done: seq<T>, v: T, p: Parsed<seq<T>>)
    ensures Attach(done, Attach([v], p)) == Attach(done + [v], p)
    ensures Attach([], p) == p
    ensures p.Got? && p.value == [] ==> Attach(done, p) == Got(done, p.rest)
  {
    if p.Got? {
      assert done + ([v] + p.value) == (done + [v]) + p.value;
      assert [] + p.value == p.value && done + [] == done;
    }
  }

  method Deserialize(host: Host, s: InputStream, t: Type) returns (r: Option<Value>)
    requires s.Valid()
    modifies s
    ensures Reads(r, s, Read(t, old(s.Rest())))
    decreases t, 1, 0
  {
    match t
    case Integer(w, signed) =>
      var u := s.ReadUnsigned(w);
      r := if u.None? then None else Some(Number(FromUnsigned(u.value, w, signed)));
    case Bool =>
      var u := s.ReadUnsigned(1);
      r := if u.None? then None else Some(Flag(u.value != 0));
    case Bytes =>
      var sub := s.ReadSized(0);
      if sub.None? { return None; }
      r := Some(Blob(sub.value.data[sub.value.begin..sub.value.begin + sub.value.size]));
    case Vector(e) =>
      var n := s.ReadUnsigned(4);
      if n.None? { return None; }
      var vs := DeserializeArray(host, s, e, n.value);
      r := if vs.None? then None else Some(Items(vs.value));
    case Optional(e) =>
      var u := s.ReadUnsigned(1);
      if u.None? { return None; }
      if u.value == 0 { return Some(Maybe(None)); }
      var v := Deserialize(host, s, e);
      r := if v.None? then None else Some(Maybe(v));
    case Map(_, _) =>
      var n := s.ReadUnsigned(4);
      if n.None? { return None; }
      var es := DeserializeEntries(host, s, t, n.value);
      r := if es.None? then None else Some(Table(es.value));
    case Final(ms) =>
      var vs := DeserializeMembers(host, s, ms);
      r := if vs.None? then None else Some(Record(vs.value));
    case Framed(ms) =>
      var sub := s.ReadSized(4);
      if sub.None? { return None; }
      var vs := DeserializeMembers(host, sub.value, ms);
      r := if vs.None? then None else Some(Record(vs.value));
  }

  lemma ReadAllStep(t: Type, n: nat, s: seq<byte>)
    requires n > 0
    ensures ReadAll(t, n, s) ==
            match Read(t, s) case Underflow => Underflow case Got(v, rest) => Attach([v], ReadAll(t, n - 1, rest))
  {}

  method DeserializeArray(host: Host, s: InputStream, t: Type, n: nat) returns (r: Option<seq<Value>>)
    requires s.Valid()
    modifies s
    ensures Reads(r, s, ReadAll(t, n, old(s.Rest())))
    decreases t, 2, 0
  {
    hide Read, FromLittleEndian, FromArrayMemory;
    if Bulk(host, t) {
      BulkReads(host, t.width, t.signed, n, s.Rest());
      var b := s.Read(n * t.width);
      return if b.None? then None else Some(FromArrayMemory(host, t.width, t.signed, n, b.value));
    }
    ghost var all := ReadAll(t, n, s.Rest());
    var vs: seq<Value> := [];
    var sz := n;
    AttachLaws([], Flag(false), all);
    while sz > 0
      invariant s.Valid() && all == Attach(vs, ReadAll(t, sz, s.Rest()))
    {
      ghost var was := s.Rest();
      var v := Deserialize(host, s, t);
      if v.None? { return None; }
      ReadAllStep(t, sz, was);
      AttachLaws(vs, v.value, ReadAll(t, sz - 1, s.Rest()));
      vs := vs + [v.value];
      sz := sz - 1;
    }
    AttachLaws(vs, Flag(false), ReadAll(t, 0, s.Rest()));
    return Some(vs);
  }

  method DeserializeEntries(host: Host, s: InputStream, t: Type, n: nat) returns (r: Option<seq<(Value, Value)>>)
    requires s.Valid() && t.Map?
    modifies s
    ensures Reads(r, s, ReadEntries(t, n, old(s.Rest()), []))
    decreases t, 0, 0
  {
    hide Read, Emplace, FromLittleEndian;
    ghost var all := ReadEntries(t, n, s.Rest(), []);
    var es: seq<(Value, Value)> := [];
    var sz := n;
    while sz > 0
      invariant s.Valid() && all == ReadEntries(t, sz, s.Rest(), es)
    {
      var k := Deserialize(host, s, t.key);
      if k.None? { return None; }
      var v := Deserialize(host, s, t.mapped);
      if v.None? { return None; }
      es := Emplace(es, k.value, v.value);
      sz := sz - 1;
    }
    return Some(es);
  }

  method DeserializeMembers(host: Host, s: InputStream, members: Members) returns (r: Option<seq<Value>>)
    requires s.Valid()
    modifies s
    ensures Reads(r, s, ReadMembers(members, old(s.Rest()), []))
    decreases members, 0, 0
  {
    ghost var all := ReadMembers(members, s.Rest(), []);
    var ms, vs: seq<Value> := members, [];
    while ms.Member?
      invariant s.Valid() && all == ReadMembers(ms, s.Rest(), vs)
      invariant ms == members || ms < members
      decreases ms
    {
      if ms.attribute != Plain && s.size == 0 {
        vs := vs + [Lookup(ms.absent, vs)];
      } else {
        var v := Deserialize(host, s, ms.kind);
        if v.None? { return None; }
        vs := vs + [v.value];
      }
      ms := ms.rest;
    }
    return Some(vs);
  }

  // ---------- skipping ----------

  ghost predicate Skips(ok: bool, s: InputStream, p: Written)
    reads s
  {
    s.Valid() && (ok <==> p.Some?) && (ok ==> s.Rest() == p.value)
  }

  method SkipValue(host: Host, s: InputStream, t: Type) returns (ok: bool)
    requires s.Valid()
    modifies s
    ensures Skips(ok, s, Skip(t, old(s.Rest())))
    decreases t, 1, 0
  {
    match t
    case Integer(w, _) => ok := s.Skip(w);
    case Bool => ok := s.Skip(1);
    case Bytes =>
      var n := s.ReadUnsigned(4);
      if n.None? { return false; }
      ok := s.Skip(n.value);
    case Vector(e) =>
      var n := s.ReadUnsigned(4);
      if n.None? { return false; }
      ok := SkipArray(host, s, e, n.value);
    case Optional(e) =>
      var u := s.ReadUnsigned(1);
      if u.None? { return false; }
      if u.value == 0 { return true; }
      ok := SkipValue(host, s, e);
    case Map(_, _) => ok := SkipMap(host, s, t);
    case Final(ms) => ok := SkipClass(host, s, ms);
    case Framed(_) =>
      var n := s.ReadUnsigned(4);
      if n.None? || n.value < 4 { return false; }
      ok := s.Skip(n.value - 4);
  }

  method SkipArray(host: Host, s: InputStream, t: Type, n: nat) returns (ok: bool)
    requires s.Valid()
    modifies s
    ensures Skips(ok, s, SkipAll(t, n, old(s.Rest())))
    decreases t, 2, 0
  {
    if Bulk(host, t) {
      BulkSkips(t.width, t.signed, n, s.Rest());
      ok := s.Skip(n * t.width);
      return;
    }
    ghost var all := SkipAll(t, n, s.Rest());
    var sz := n;
    while sz > 0
      invariant s.Valid() && all == SkipAll(t, sz, s.Rest())
    {
      ok := SkipValue(host, s, t);
      if !ok { return; }
      sz := sz - 1;
    }
    return true;
  }

  method SkipMap(host: Host, s: InputStream, t: Type) returns (ok: bool)
    requires s.Valid() && t.Map?
    modifies s
    ensures Skips(ok, s, Skip(t, old(s.Rest())))
    decreases t, 0, 0
  {
    var n := s.ReadUnsigned(4);
    if n.None? { return false; }
    ghost var all := SkipEntries(t, n.value, s.Rest());
    var sz := n.value;
    while sz > 0
      invariant s.Valid() && all == SkipEntries(t, sz, s.Rest())
    {
      ok := SkipValue(host, s, t.key);
      if !ok { return; }
      ok := SkipValue(host, s, t.mapped);
      if !ok { return; }
      sz := sz - 1;
    }
    return true;
  }

  method SkipClass(host: Host, s: InputStream, members: Members) returns (ok: bool)
    requires s.Valid()
    modifies s
    ensures Skips(ok, s, SkipMembers(members, old(s.Rest())))
    decreases members, 0, 0
  {
    ghost var all := SkipMembers(members, s.Rest());
    var ms := members;
    while ms.Member?
      invariant s.Valid() && all == SkipMembers(ms, s.Rest())
      invariant ms == members || ms < members
      decreases ms
    {
      ok := SkipValue(host, s, ms.kind);
      if !ok { return; }
      ms := ms.rest;
    }
    return true;
  }

  // ---------- output ----------

  /** What a stream has received.  A measuring stream keeps only the size. */
  datatype Sent = Sent(size: nat, bytes: seq<byte>) {
    function Then(s: Sent): Sent {
      Sent(size + s.size, bytes + s.bytes)
    }
  }

  class OutputStream {
    const measuring: bool
    var size: nat
    var bytes: seq<byte>

    ghost function State(): Sent
      reads this
    {
      Sent(size, bytes)
    }

    constructor (measuring: bool)
      ensures State() == Sent(0, []) && this.measuring == measuring
    {
      this.measuring, size, bytes := measuring, 0, [];
    }

    method Write(b: seq<byte>)
      modifies this
      ensures State() == old(State()).Then(Chunk(measuring, b))
    {
      size := size + |b|;
      if !measuring {
        bytes := bytes + b;
      }
    }
  }

  function Chunk(measuring: bool, b: seq<byte>): Sent {
    Sent(|b|, if measuring then [] else b)
  }

  /** What a stream receives for a value: its measure, or its encoding. */
  function Both(measuring: bool, m: Option<nat>, w: Written): Option<Sent> {
    if measuring then if m.Some? then Some(Sent(m.value, [])) else None
    else if w.Some? then Some(Sent(|w.value|, w.value)) else None
  }

  ghost function Effect(measuring: bool, t: Type, v: Value): Option<Sent>
    requires HasType(t, v)
  {
    Both(measuring, Measure(t, v), Write(t, v))
  }

  ghost function EffectAll(measuring: bool, t: Type, vs: seq<Value>): Option<Sent>
    requires forall x | x in vs :: HasType(t, x)
  {
    Both(measuring, MeasureAll(t, vs), WriteAll(t, vs))
  }

  ghost function EffectEntries(measuring: bool, t: Type, es: seq<(Value, Value)>): Option<Sent>
    requires t.Map? && forall x | x in es :: HasType(t.key, x.0) && HasType(t.mapped, x.1)
  {
    Both(measuring, MeasureEntries(t, es), WriteEntries(t, es))
  }

  ghost function EffectMembers(measuring: bool, ms: Members, vs: seq<Value>): Option<Sent>
    requires HaveTypes(ms, vs)
  {
    Both(measuring, MeasureMembers(ms, vs), WriteMembers(ms, vs))
  }

  /** The stream was in state `before` and has received `e`, unless that throws. */
  ghost predicate Receives(ok: bool, out: OutputStream, before: Sent, e: Option<Sent>)
    reads out
  {
    (ok <==> e.Some?) && (ok ==> out.State() == before.Then(e.value))
  }

  /** `before` has received part of `e` and is now `now`; `left` is to come. */
  ghost predicate Partway(before: Sent, e: Option<Sent>, now: Sent, left: Option<Sent>) {
    (e.Some? <==> left.Some?) && (e.Some? ==> before.Then(e.value) == now.Then(left.value))
  }

  lemma Onward(before: Sent, e: Option<Sent>, now: Sent, first: Option<Sent>, left: Option<Sent>, rest: Option<Sent>)
    requires Partway(before, e, now, left)
    requires (left.Some? <==> first.Some? && rest.Some?) && (left.Some? ==> left.value == first.value.Then(rest.value))
    ensures first.None? ==> e.None?
    ensures first.Some? ==> Partway(before, e, now.Then(first.value), rest)
  {
    if left.Some? {
      assert (now.bytes + first.value.bytes) + rest.value.bytes == now.bytes + (first.value.bytes + rest.value.bytes);
    }
  }

  lemma ArrayStart(before: Sent, m: bool, t: Type, vs: seq<Value>)
    requires forall x | x in vs :: HasType(t, x)
    ensures Partway(before, EffectAll(m, t, vs), before, EffectAll(m, t, vs[0..]))
  {
    assert vs[0..] == vs;
  }

  lemma ArrayOnward(before: Sent, all: Option<Sent>, now: Sent, m: bool, t: Type, vs: seq<Value>, k: nat)
    requires k < |vs| && forall x | x in vs :: HasType(t, x)
    requires Partway(before, all, now, EffectAll(m, t, vs[k..]))
    ensures var first := Effect(m, t, vs[k]);
            && (first.None? ==> all.None?)
            && (first.Some? ==> Partway(before, all, now.Then(first.value), EffectAll(m, t, vs[k + 1..])))
  {
    hide Partway, Measure, Write;
    assert vs[k..][0] == vs[k] && vs[k..][1..] == vs[k + 1..];
    Onward(before, all, now, Effect(m, t, vs[k]), EffectAll(m, t, vs[k..]), EffectAll(m, t, vs[k + 1..]));
  }

  lemma ArrayEnd(before: Sent, all: Option<Sent>, now: Sent, m: bool, t: Type, vs: seq<Value>)
    requires (forall x | x in vs :: HasType(t, x)) && Partway(before, all, now, EffectAll(m, t, vs[|vs|..]))
    ensures all.Some? && now == before.Then(all.value)
  {
    assert now.bytes + [] == now.bytes;
  }

  lemma EntriesStart(before: Sent, m: bool, t: Type, es: seq<(Value, Value)>)
    requires t.Map? && forall x | x in es :: HasType(t.key, x.0) && HasType(t.mapped, x.1)
    ensures Partway(before, EffectEntries(m, t, es), before, EffectEntries(m, t, es[0..]))
  {
    assert es[0..] == es;
  }

  lemma EntriesOnward(before: Sent, all: Option<Sent>, now: Sent, m: bool, t: Type, es: seq<(Value, Value)>, k: nat)
    requires t.Map? && k < |es| && forall x | x in es :: HasType(t.key, x.0) && HasType(t.mapped, x.1)
    requires Partway(before, all, now, EffectEntries(m, t, es[k..]))
    ensures var a, b := Effect(m, t.key, es[k].0), Effect(m, t.mapped, es[k].1);
            && (a.None? || b.None? ==> all.None?)
            && (a.Some? && b.Some? ==>
                  Partway(before, all, now.Then(a.value).Then(b.value), EffectEntries(m, t, es[k + 1..])))
  {
    hide Partway, Measure, Write;
    assert es[k..][0] == es[k] && es[k..][1..] == es[k + 1..];
    var a, b := Effect(m, t.key, es[k].0), Effect(m, t.mapped, es[k].1);
    Onward(before, all, now, if a.Some? && b.Some? then Some(a.value.Then(b.value)) else None,
           EffectEntries(m, t, es[k..]), EffectEntries(m, t, es[k + 1..]));
    if a.Some? && b.Some? {
      assert now.bytes + (a.value.bytes + b.value.bytes) == (now.bytes + a.value.bytes) + b.value.bytes;
    }
  }

  lemma EntriesEnd(before: Sent, all: Option<Sent>, now: Sent, m: bool, t: Type, es: seq<(Value, Value)>)
    requires t.Map? && forall x | x in es :: HasType(t.key, x.0) && HasType(t.mapped, x.1)
    requires Partway(before, all, now, EffectEntries(m, t, es[|es|..]))
    ensures all.Some? && now == before.Then(all.value)
  {
    assert now.bytes + [] == now.bytes;
  }

  lemma AllToCome(before: Sent, all: Option<Sent>)
    ensures Partway(before, all, before, all)
  {}

  lemma MembersOnward(before: Sent, all: Option<Sent>, now: Sent, m: bool, ms: Members, vs: seq<Value>)
    requires ms.Member? && HaveTypes(ms, vs) && Partway(before, all, now, EffectMembers(m, ms, vs))
    ensures var e := Effect(m, ms.kind, vs[0]);
            && (e.None? ==> all.None?)
            && (e.Some? ==> Partway(before, all, now.Then(e.value), EffectMembers(m, ms.rest, vs[1..])))
  {
    hide Partway, Measure, Write;
    Onward(before, all, now, Effect(m, ms.kind, vs[0]), EffectMembers(m, ms, vs),
           EffectMembers(m, ms.rest, vs[1..]));
  }

  lemma MembersEnd(before: Sent, all: Option<Sent>, now: Sent, m: bool, ms: Members, vs: seq<Value>)
    requires ms.End? && HaveTypes(ms, vs) && Partway(before, all, now, EffectMembers(m, ms, vs))
    ensures all.Some? && now == before.Then(all.value)
  {
    assert now.bytes + [] == now.bytes;
  }

  // ---------- writing ----------

  /** `safe_serialize_as_uint32` */
  method SerializeCount(out: OutputStream, n: nat) returns (ok: bool)
    modifies out
    ensures Receives(ok, out, old(out.State()), Both(out.measuring, if n < U32 then Some(4) else None, Count(n)))
  {
    ok := n < U32;
    if ok {
      out.Write(LittleEndian(n, 4));
    }
  }

  /** `get_sizeof` */
  method GetSizeof(host: Host, t: Type, v: Value) returns (r: Option<nat>)
    requires HasType(t, v)
    ensures r == if Measure(t, v).Some? && Measure(t, v).value < U32 then Measure(t, v) else None
    decreases t, 6, 0
  {
    var measure := new OutputStream(true);
    var ok := Serialize(host, measure, t, v);
    return if ok && measure.size < U32 then Some(measure.size) else None;
  }

  /** `set_size`: a measuring stream receives a zero of the same size. */
  method SetSize(host: Host, out: OutputStream, t: Type, v: Value) returns (ok: bool)
    requires t.Framed? && HasType(t, v)
    modifies out
    ensures Receives(ok, out, old(out.State()), Both(out.measuring, Some(4), SizeOf(t, v)))
    decreases t, if out.measuring then 0 else 8, 0
  {
    if out.measuring {
      out.Write(LittleEndian(0, 4));
      return true;
    }
    var n := GetSizeof(host, t, v);
    if n.None? { return false; }
    out.Write(LittleEndian(n.value, 4));
    return true;
  }

  method SerializeScalar(host: Host, out: OutputStream, t: Type, v: Value)
    requires (t.Integer? || t.Bool? || t.Bytes?) && HasType(t, v)
    modifies out
    ensures Receives(true, out, old(out.State()), Effect(out.measuring, t, v))
  {
    hide Pow, LittleEndian;
    match t
    case Integer(w, signed) =>
      TwosComplement(v.number, w, signed);
      SerializeIntegral(host, ToUnsigned(v.number, w), w);
      out.Write(Memory(host, CpuToLe(host, ToUnsigned(v.number, w), w), w));
    case Bool => out.Write([if v.flag then 1 else 0]);
    case Bytes =>
      var _ := SerializeCount(out, |v.data| % U32);
      out.Write(v.data);
  }

  method Serialize(host: Host, out: OutputStream, t: Type, v: Value) returns (ok: bool)
    requires HasType(t, v)
    modifies out
    ensures Receives(ok, out, old(out.State()), Effect(out.measuring, t, v))
    decreases t, if out.measuring then 4 else 10, 0
  {
    if t.Integer? || t.Bool? || t.Bytes? {
      SerializeScalar(host, out, t, v);
      ok := true;
    } else if t.Final? {
      ok := SerializeMembers(host, out, t.members, v.fields);
    } else if t.Framed? {
      ok := SerializeFrame(host, out, t, v);
    } else if t.Optional? {
      ok := SerializeOptional(host, out, t, v);
    } else {
      ok := SerializeCounted(host, out, t, v);
    }
  }

  method SerializeFrame(host: Host, out: OutputStream, t: Type, v: Value) returns (ok: bool)
    requires t.Framed? && HasType(t, v)
    modifies out
    ensures Receives(ok, out, old(out.State()), Effect(out.measuring, t, v))
    decreases t, if out.measuring then 2 else 9, 0
  {
    hide WriteMembers, MeasureMembers, HaveTypes, LittleEndian;
    ok := SetSize(host, out, t, v);
    if ok {
      ok := SerializeMembers(host, out, t.members, v.fields);
    }
  }

  method SerializeOptional(host: Host, out: OutputStream, t: Type, v: Value) returns (ok: bool)
    requires t.Optional? && HasType(t, v)
    modifies out
    ensures Receives(ok, out, old(out.State()), Effect(out.measuring, t, v))
    decreases t, if out.measuring then 2 else 9, 0
  {
    hide Effect;
    OptionalEffect(out.measuring, t, v);
    ghost var before, flag := out.State(), Chunk(out.measuring, [if v.inner.Some? then 1 else 0]);
    out.Write([if v.inner.Some? then 1 else 0]);
    ok := true;
    if v.inner.Some? {
      ok := Serialize(host, out, t.inner, v.inner.value);
      if ok {
        ThenThen(before, flag, Effect(out.measuring, t.inner, v.inner.value).value);
      }
    }
  }

  lemma OptionalEffect(m: bool, t: Type, v: Value)
    requires t.Optional? && HasType(t, v)
    ensures var flag := Chunk(m, [if v.inner.Some? then 1 else 0]);
            Effect(m, t, v) ==
              if v.inner.None? then Some(flag)
              else
                match Effect(m, t.inner, v.inner.value)
                case None => None
                case Some(e) => Some(flag.Then(e))
  {
    if v.inner.Some? {
      var e := Effect(m, t.inner, v.inner.value);
      assert m ==> [] + [] == Chunk(m, [1]).bytes;
    }
  }

  lemma ThenThen(a: Sent, b: Sent, c: Sent)
    ensures a.Then(b).Then(c) == a.Then(b.Then(c))
  {
    assert (a.bytes + b.bytes) + c.bytes == a.bytes + (b.bytes + c.bytes);
  }

  /** Vectors and maps are written after their number of elements. */
  method SerializeCounted(host: Host, out: OutputStream, t: Type, v: Value) returns (ok: bool)
    requires (t.Vector? || t.Map?) && HasType(t, v)
    modifies out
    ensures Receives(ok, out, old(out.State()), Effect(out.measuring, t, v))
    decreases t, if out.measuring then 2 else 9, 0
  {
    hide WriteAll, MeasureAll, WriteEntries, MeasureEntries, LittleEndian;
    ok := SerializeCount(out, if t.Vector? then |v.items| else |v.entries|);
    if ok {
      if t.Vector? {
        ok := SerializeArray(host, out, t.element, v.items);
      } else {
        ok := SerializeEntries(host, out, t, v.entries);
      }
    }
  }

  method SerializeArray(host: Host, out: OutputStream, t: Type, vs: seq<Value>) returns (ok: bool)
    requires forall x | x in vs :: HasType(t, x)
    modifies out
    ensures Receives(ok, out, old(out.State()), EffectAll(out.measuring, t, vs))
    decreases t, 12, 0
  {
    if Bulk(host, t) {
      BulkWrites(host, t.width, t.signed, vs);
      MeasureAllIsSize(t, vs);
      out.Write(ArrayMemory(host, t.width, t.signed, vs));
      return true;
    }
    hide EffectAll, Effect, Partway;
    ghost var before, all := out.State(), EffectAll(out.measuring, t, vs);
    ArrayStart(before, out.measuring, t, vs);
    for k := 0 to |vs|
      invariant Partway(before, all, out.State(), EffectAll(out.measuring, t, vs[k..]))
    {
      ArrayOnward(before, all, out.State(), out.measuring, t, vs, k);
      ok := Serialize(host, out, t, vs[k]);
      if !ok { return; }
    }
    ArrayEnd(before, all, out.State(), out.measuring, t, vs);
    return true;
  }

  method SerializeEntries(host: Host, out: OutputStream, t: Type, es: seq<(Value, Value)>) returns (ok: bool)
    requires t.Map? && forall x | x in es :: HasType(t.key, x.0) && HasType(t.mapped, x.1)
    modifies out
    ensures Receives(ok, out, old(out.State()), EffectEntries(out.measuring, t, es))
    decreases t, 0, 0
  {
    hide EffectEntries, Effect, Partway;
    ghost var before, all := out.State(), EffectEntries(out.measuring, t, es);
    EntriesStart(before, out.measuring, t, es);
    for k := 0 to |es|
      invariant Partway(before, all, out.State(), EffectEntries(out.measuring, t, es[k..]))
    {
      EntriesOnward(before, all, out.State(), out.measuring, t, es, k);
      ok := Serialize(host, out, t.key, es[k].0);
      if !ok { return; }
      ok := Serialize(host, out, t.mapped, es[k].1);
      if !ok { return; }
    }
    EntriesEnd(before, all, out.State(), out.measuring, t, es);
    return true;
  }

  method SerializeMembers(host: Host, out: OutputStream, members: Members, fields: seq<Value>) returns (ok: bool)
    requires HaveTypes(members, fields)
    modifies out
    ensures Receives(ok, out, old(out.State()), EffectMembers(out.measuring, members, fields))
    decreases members, 0, 0
  {
    hide EffectMembers, Effect, Partway;
    ghost var before, all := out.State(), EffectMembers(out.measuring, members, fields);
    AllToCome(before, all);
    var ms, vs := members, fields;
    while ms.Member?
      invariant HaveTypes(ms, vs)
      invariant Partway(before, all, out.State(), EffectMembers(out.measuring, ms, vs))
      invariant ms == members || ms < members
      decreases ms
    {
      MembersOnward(before, all, out.State(), out.measuring, ms, vs);
      ok := Serialize(host, out, ms.kind, vs[0]);
      if !ok { return; }
      ms, vs := ms.rest, vs[1..];
    }
    MembersEnd(before, all, out.State(), out.measuring, ms, vs);
    return true;
  }
}
