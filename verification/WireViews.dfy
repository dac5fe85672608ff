/** Views over serialized data: buffers sized by measuring, and vectors whose elements are read or
    skipped one at a time, in either direction. */
module WireViews {
  import opened Wrappers
  import opened Integers
  import opened WireFormat
  import opened WireTheorems
  import opened WireSkips
  import opened WireStreams

  // ---------- reading is local ----------

  /** `rest` is what is left of `s` after its first `n` bytes. */
  predicate Leaves(s: seq<byte>, n: nat, rest: seq<byte>) {
    n <= |s| && rest == s[n..]
  }

  lemma Slices(s: seq<byte>, j: nat, k: nat, more: seq<byte>)
    requires j + k <= |s|
    ensures s[..j + k] + more == s[..j] + (s[j..][..k] + more)
    ensures s[j..][k..] == s[j + k..]
  {}

  /** In a class without a frame, the default of an attributed member that takes no bytes is a value
      of the member's type. */
  ghost predicate DefaultsFit(t: Type) {
    match t
    case Vector(e) => DefaultsFit(e)
    case Optional(e) => DefaultsFit(e)
    case Map(k, e) => DefaultsFit(k) && DefaultsFit(e)
    case Final(ms) => MembersDefaultsFit(ms)
    case _ => true
  }

  ghost predicate MembersDefaultsFit(ms: Members) {
    ms.Member? ==>
      && DefaultsFit(ms.kind)
      && (ms.attribute != Plain && !Solid(ms.kind) ==> ms.absent.Fixed? && HasType(ms.kind, ms.absent.value))
      && MembersDefaultsFit(ms.rest)
  }

  /** So it is where defaults have the members' types, and where no such member is attributed. */
  lemma {:induction false} DefaultsMayFit(t: Type)
    requires WellTyped(t) || Skippable(t)
    ensures DefaultsFit(t)
  {
    match t
    case Vector(e) => DefaultsMayFit(e);
    case Optional(e) => DefaultsMayFit(e);
    case Map(k, e) => DefaultsMayFit(k); DefaultsMayFit(e);
    case Final(ms) => MembersDefaultsMayFit(ms);
    case _ =>
  }

  lemma {:induction false} MembersDefaultsMayFit(ms: Members)
    requires WellTypedMembers(ms) || SkippableMembers(ms)
    ensures MembersDefaultsFit(ms)
  {
    hide Solid, HasType;
    if ms.Member? {
      DefaultsMayFit(ms.kind);
      MembersDefaultsMayFit(ms.rest);
    }
  }

  /** A type without bytes has a single value. */
  lemma {:induction false} HollowIsSingle(t: Type, v: Value, w: Value)
    requires !Solid(t) && HasType(t, v) && HasType(t, w)
    ensures v == w
    decreases t
  {
    HollowAreSingle(t.members, v.fields, w.fields);
  }

  lemma {:induction false} HollowAreSingle(ms: Members, vs: seq<Value>, ws: seq<Value>)
    requires !SomeSolid(ms) && HaveTypes(ms, vs) && HaveTypes(ms, ws)
    ensures vs == ws
    decreases ms
  {
    if ms.Member? {
      HollowIsSingle(ms.kind, vs[0], ws[0]);
      HollowAreSingle(ms.rest, vs[1..], ws[1..]);
      assert vs == [vs[0]] + vs[1..] && ws == [ws[0]] + ws[1..];
    }
  }

  /** That value is read from anywhere, and nothing is consumed for it. */
  lemma {:induction false} HollowReads(t: Type, s: seq<byte>, v: Value)
    requires !Solid(t) && DefaultsFit(t) && HasType(t, v)
    ensures Read(t, s) == Got(v, s)
    decreases t
  {
    HollowMembersRead(t.members, s, [], v.fields);
    assert [] + v.fields == v.fields;
  }

  lemma {:induction false} HollowMembersRead(ms: Members, s: seq<byte>, done: seq<Value>, vs: seq<Value>)
    requires !SomeSolid(ms) && MembersDefaultsFit(ms) && HaveTypes(ms, vs)
    ensures ReadMembers(ms, s, done) == Got(done + vs, s)
    decreases ms
  {
    hide Read;
    if ms.Member? {
      HollowReads(ms.kind, s, vs[0]);
      if ms.attribute != Plain {
        HollowIsSingle(ms.kind, vs[0], ms.absent.value);
      }
      HollowMembersRead(ms.rest, s, done + [vs[0]], vs[1..]);
      assert done + [vs[0]] + vs[1..] == done + vs;
    } else {
      assert done + vs == done;
    }
  }

  /** Reading cannot tell whether it is at the end of the input: either it is not, whichever of the
      two continuations follows, or what is read there does not depend on it. */
  ghost predicate Settled(t: Type, rest: seq<byte>, more: seq<byte>) {
    (rest != [] && more != []) || (SkipExact(t) && DefaultsFit(t))
  }

  ghost predicate MembersSettled(ms: Members, rest: seq<byte>, more: seq<byte>) {
    (rest != [] && more != []) || (MembersSkipExact(ms) && MembersDefaultsFit(ms))
  }

  /** Reading looks at nothing beyond the bytes it consumes, of types that are skipped to where they
      are read to. */
  lemma ReadIsLocal(t: Type, s: seq<byte>, more: seq<byte>) returns (n: nat)
    requires SkipExact(t) && DefaultsFit(t) && Read(t, s).Got?
    ensures Leaves(s, n, Read(t, s).rest)
    ensures Read(t, s[..n] + more) == Got(Read(t, s).value, more)
  {
    n := SettledIsLocal(t, s, more);
  }

  /** Of any type, it does not see what follows as long as something does. */
  lemma {:induction false} SettledIsLocal(t: Type, s: seq<byte>, more: seq<byte>) returns (n: nat)
    requires Read(t, s).Got? && Settled(t, Read(t, s).rest, more)
    ensures Leaves(s, n, Read(t, s).rest)
    ensures Read(t, s[..n] + more) == Got(Read(t, s).value, more)
    decreases t, 1, 0
  {
    hide ReadAll, ReadEntries, ReadMembers, FromLittleEndian;
    match t
    case Integer(w, _) => n := w; UnsignedIsLocal(w, s, more);
    case Bool => n := 1; UnsignedIsLocal(1, s, more);
    case Bytes => n := SizedIsLocal(0, s, more);
    case Framed(_) => n := SizedIsLocal(4, s, more);
    case Vector(e) =>
      var u := ReadUnsigned(4, s);
      var k := AllIsLocal(e, u.value, u.rest, more);
      n := PrefixIsLocal(4, s, k, more);
    case Optional(e) =>
      var u := ReadUnsigned(1, s);
      var k := 0;
      if u.value != 0 { k := SettledIsLocal(e, u.rest, more); } else { assert u.rest[..0] + more == more; }
      n := PrefixIsLocal(1, s, k, more);
    case Map(_, _) =>
      var u := ReadUnsigned(4, s);
      var k := EntriesIsLocal(t, u.value, u.rest, [], more);
      n := PrefixIsLocal(4, s, k, more);
    case Final(ms) => n := MembersIsLocal(ms, s, [], more);
  }

  lemma PrefixIsLocal(w: nat, s: seq<byte>, k: nat, more: seq<byte>) returns (n: nat)
    requires ReadUnsigned(w, s).Got? && k <= |ReadUnsigned(w, s).rest|
    ensures Leaves(s, n, ReadUnsigned(w, s).rest[k..])
    ensures ReadUnsigned(w, s[..n] + more) == Got(ReadUnsigned(w, s).value, ReadUnsigned(w, s).rest[..k] + more)
  {
    n := w + k;
    var rest := ReadUnsigned(w, s).rest;
    UnsignedIsLocal(w, s, rest[..k] + more);
    Slices(s, w, k, more);
  }

  lemma UnsignedIsLocal(w: nat, s: seq<byte>, more: seq<byte>)
    requires w <= |s|
    ensures ReadUnsigned(w, s[..w] + more) == Got(ReadUnsigned(w, s).value, more)
  {
    assert (s[..w] + more)[..w] == s[..w] && (s[..w] + more)[w..] == more;
  }

  lemma SizedIsLocal(extra: nat, s: seq<byte>, more: seq<byte>) returns (n: nat)
    requires ReadSized(extra, s).Got?
    ensures Leaves(s, n, ReadSized(extra, s).rest)
    ensures ReadSized(extra, s[..n] + more) == Got(ReadSized(extra, s).value, more)
  {
    var u := ReadUnsigned(4, s);
    var k := u.value - extra;
    n := 4 + k;
    UnsignedIsLocal(4, s, u.rest[..k] + more);
    Slices(s, 4, k, more);
    assert (u.rest[..k] + more)[..k] == u.rest[..k] && (u.rest[..k] + more)[k..] == more;
  }

  lemma {:induction false} AllIsLocal(t: Type, c: nat, s: seq<byte>, more: seq<byte>) returns (n: nat)
    requires ReadAll(t, c, s).Got? && Settled(t, ReadAll(t, c, s).rest, more)
    ensures Leaves(s, n, ReadAll(t, c, s).rest)
    ensures ReadAll(t, c, s[..n] + more) == Got(ReadAll(t, c, s).value, more)
    decreases t, 2, c
  {
    hide Read, SkipExact, DefaultsFit;
    if c == 0 {
      n := 0;
      assert s[..0] + more == more;
    } else {
      var v := Read(t, s);
      var k := AllIsLocal(t, c - 1, v.rest, more);
      var j := SettledIsLocal(t, s, v.rest[..k] + more);
      n := j + k;
      Slices(s, j, k, more);
    }
  }

  lemma {:induction false} EntriesIsLocal(t: Type, c: nat, s: seq<byte>, done: seq<(Value, Value)>, more: seq<byte>)
    returns (n: nat)
    requires t.Map? && ReadEntries(t, c, s, done).Got? && Settled(t, ReadEntries(t, c, s, done).rest, more)
    ensures Leaves(s, n, ReadEntries(t, c, s, done).rest)
    ensures ReadEntries(t, c, s[..n] + more, done) == Got(ReadEntries(t, c, s, done).value, more)
    decreases t, 0, c
  {
    hide Read, Emplace, SkipExact, DefaultsFit;
    if c == 0 {
      n := 0;
      assert s[..0] + more == more;
    } else {
      var key := Read(t.key, s);
      var mapped := Read(t.mapped, key.rest);
      var k := EntriesIsLocal(t, c - 1, mapped.rest, Emplace(done, key.value, mapped.value), more);
      var j := EntryIsLocal(t, s, mapped.rest[..k] + more);
      n := j + k;
      Slices(s, j, k, more);
    }
  }

  lemma {:induction false} EntryIsLocal(t: Type, s: seq<byte>, more: seq<byte>) returns (n: nat)
    requires t.Map? && Read(t.key, s).Got? && Read(t.mapped, Read(t.key, s).rest).Got?
    requires Settled(t, Read(t.mapped, Read(t.key, s).rest).rest, more)
    ensures Leaves(s, n, Read(t.mapped, Read(t.key, s).rest).rest)
    ensures var key, key' := Read(t.key, s), Read(t.key, s[..n] + more);
            && key'.Got? && key'.value == key.value
            && Read(t.mapped, key'.rest) == Got(Read(t.mapped, key.rest).value, more)
    decreases t, 0, 0
  {
    hide Read, Sample, ReadsNothing;
    var key := Read(t.key, s);
    EmptyRead(t.mapped);
    if key.rest != [] {
      SampleIsShortest(t.key, s);
    } else if SkipExact(t) {
      ExactHasSample(t.key, s);
    }
    var j := SettledIsLocal(t.mapped, key.rest, more);
    var i := SettledIsLocal(t.key, s, key.rest[..j] + more);
    n := i + j;
    Slices(s, i, j, more);
  }

  lemma {:induction false} MembersIsLocal(ms: Members, s: seq<byte>, done: seq<Value>, more: seq<byte>) returns (n: nat)
    requires ReadMembers(ms, s, done).Got? && MembersSettled(ms, ReadMembers(ms, s, done).rest, more)
    ensures Leaves(s, n, ReadMembers(ms, s, done).rest)
    ensures ReadMembers(ms, s[..n] + more, done) == Got(ReadMembers(ms, s, done).value, more)
    decreases ms, 0, 0
  {
    hide Read, SkipExact, DefaultsFit, Sample, Solid, HasType, AllReadNothing;
    if ms.End? {
      n := 0;
      assert s[..0] + more == more;
    } else if ms.attribute != Plain && s == [] {
      n := MissingIsLocal(ms, done, more);
    } else {
      var v := Read(ms.kind, s);
      if MembersSkipExact(ms) { MemberHasSample(ms, s, done); }
      var k := MembersIsLocal(ms.rest, v.rest, done + [v.value], more);
      var j := PresentIsLocal(ms, s, done, v.rest[..k] + more);
      n := j + k;
      Slices(s, j, k, more);
    }
  }

  /** A member that is there is read from its own bytes. */
  lemma {:induction false} PresentIsLocal(ms: Members, s: seq<byte>, done: seq<Value>, next: seq<byte>) returns (n: nat)
    requires ms.Member? && (ms.attribute == Plain || s != []) && Read(ms.kind, s).Got?
    requires var done' := done + [Read(ms.kind, s).value];
             ReadMembers(ms.rest, Read(ms.kind, s).rest, done').Got? && ReadMembers(ms.rest, next, done').Got?
    requires MembersSettled(ms, Read(ms.kind, s).rest, next)
    ensures Leaves(s, n, Read(ms.kind, s).rest)
    ensures ReadMembers(ms, s[..n] + next, done) == ReadMembers(ms.rest, next, done + [Read(ms.kind, s).value])
    decreases ms.kind, 2, 0
  {
    hide Read, SkipExact, DefaultsFit, Sample, Solid, HasType, AllReadNothing;
    var v := Read(ms.kind, s);
    EmptyReadMembers(ms.rest, done + [v.value]);
    if ms.attribute == Plain || (next != [] && v.rest != []) {
      n := SettledIsLocal(ms.kind, s, next);
    } else {
      HollowReads(ms.kind, s, ms.absent.value);
      HollowReads(ms.kind, next, ms.absent.value);
      n := 0;
      assert s[..0] + next == next;
    }
  }

  /** A member that is missing takes its default, which is what would be read for it. */
  lemma {:induction false} MissingIsLocal(ms: Members, done: seq<Value>, more: seq<byte>) returns (n: nat)
    requires ms.Member? && ms.attribute != Plain && ReadMembers(ms, [], done).Got?
    requires MembersSettled(ms, ReadMembers(ms, [], done).rest, more)
    ensures Leaves([], n, ReadMembers(ms, [], done).rest)
    ensures ReadMembers(ms, [][..n] + more, done) == Got(ReadMembers(ms, [], done).value, more)
    decreases ms.rest, 1, 0
  {
    hide Read, SkipExact, DefaultsFit, Sample, Solid, HasType, AllReadNothing;
    EmptyReadMembers(ms, done);
    MemberHasSample(ms, [], done);
    var next := done + [Lookup(ms.absent, done)];
    EmptyReadMembers(ms.rest, next);
    n := MembersIsLocal(ms.rest, [], next, more);
    assert [][..n] + more == more;
    HollowReads(ms.kind, more, ms.absent.value);
  }

  // ---------- buffers ----------

  /** A run of the serializer over a fresh stream. */
  method SerializeAlone(host: Host, measuring: bool, t: Type, v: Value) returns (ok: bool, size: nat, bytes: seq<byte>)
    requires HasType(t, v)
    ensures ok <==> Effect(measuring, t, v).Some?
    ensures ok ==> Sent(size, bytes) == Effect(measuring, t, v).value
  {
    hide Write, Measure, HasType, Effect;
    var out := new OutputStream(measuring);
    ok := Serialize(host, out, t, v);
    return ok, out.size, out.bytes;
  }

  function HeadSpace(n: nat): (r: seq<byte>)
    ensures |r| == n
  {
    seq(n, _ => 0)
  }

  /** `serialize_to_buffer`: the buffer is sized by measuring first and is filled exactly. */
  method SerializeToBuffer(host: Host, t: Type, v: Value, headSpace: nat) returns (r: Option<seq<byte>>)
    requires HasType(t, v)
    ensures r.Some? <==> Write(t, v).Some?
    ensures r.Some? ==> headSpace <= |r.value| && r.value[headSpace..] == Write(t, v).value
    ensures r.Some? ==> Measure(t, v) == Some(|r.value| - headSpace)
  {
    hide Write, Measure, HasType;
    if Write(t, v).Some? {
      MeasureIsSize(t, v);
    }
    var ok, size, _ := SerializeAlone(host, true, t, v);
    if !ok { return None; }
    var ok', size', bytes := SerializeAlone(host, false, t, v);
    if !ok' { return None; }
    assert size' == size;
    return Some(HeadSpace(headSpace) + bytes);
  }

  method DeserializeFromBuffer(host: Host, t: Type, buffer: seq<byte>, headSpace: nat) returns (r: Option<Value>)
    requires headSpace <= |buffer|
    ensures match Read(t, buffer[headSpace..]) case Underflow => r.None? case Got(v, _) => r == Some(v)
  {
    var s := new InputStream(buffer[headSpace..]);
    r := Deserialize(host, s, t);
  }

  // ---------- lazy vectors ----------

  /** The forward iterator of `vector_deserializer`: dereferencing reads the element and steps over
      it, so that the increment after it has nothing left to do.  Either may throw. */
  class VectorIterator {
    const host: Host
    const element: Type
    const input: InputStream
    var idx: nat
    var consumed: bool

    constructor (host: Host, element: Type, input: InputStream)
      requires input.Valid()
      ensures fresh(this.input) && this.input.Valid() && this.input.Rest() == input.Rest()
      ensures this.element == element && idx == 0 && !consumed
    {
      this.host, this.element := host, element;
      this.input := new InputStream.Part(input.data, input.begin, input.size);
      idx, consumed := 0, false;
    }

    method Dereference() returns (v: Option<Value>)
      requires input.Valid()
      modifies this, input
      ensures Reads(v, input, Read(element, old(input.Rest())))
      ensures v.Some? ==> idx == old(idx) + 1 && consumed
    {
      v := Deserialize(host, input, element);
      if v.Some? {
        idx, consumed := idx + 1, true;
      }
    }

    method Increment() returns (ok: bool)
      requires input.Valid()
      modifies this, input
      ensures if old(consumed) then ok && input.Valid() && input.Rest() == old(input.Rest()) && idx == old(idx)
              else Skips(ok, input, Skip(element, old(input.Rest()))) && (ok ==> idx == old(idx) + 1)
      ensures ok ==> !consumed
    {
      ok := true;
      if !consumed {
        ok := SkipValue(host, input, element);
        if ok {
          idx := idx + 1;
        }
      } else {
        consumed := false;
      }
    }
  }

  /** Walking over elements `k` up to `n`, dereferencing at the wanted positions: the elements seen
      there, or `None` when one of the steps throws. */
  function Visit(t: Type, k: nat, n: nat, s: seq<byte>, wanted: set<nat>): Option<seq<Value>>
    requires k <= n
    decreases n - k
  {
    if k == n then Some([])
    else if k in wanted then
      match Read(t, s)
      case Underflow => None
      case Got(v, rest) => Onto([v], Visit(t, k + 1, n, rest, wanted))
    else
      match Skip(t, s)
      case None => None
      case Some(rest) => Visit(t, k + 1, n, rest, wanted)
  }

  /** What was collected so far and what is still to come, unless that throws. */
  function Onto<T>(done: seq<T>, rest: Option<seq<T>>): Option<seq<T>> {
    if rest.Some? then Some(done + rest.value) else None
  }

  lemma OntoLaws<T>(done: seq<T>, v: T, rest: Option<seq<T>>)
    ensures Onto(done, Onto([v], rest)) == Onto(done + [v], rest)
    ensures Onto([], rest) == rest && Onto(done, Some([])) == Some(done)
  {
    if rest.Some? {
      assert done + ([v] + rest.value) == done + [v] + rest.value;
      assert [] + rest.value == rest.value;
    }
    assert done + [] == done;
  }

  lemma OntoNone<T>(done: seq<T>)
    ensures Onto(done, None) == None
  {}

  /** Whatever the bytes, the walk reads the wanted elements and skips the others. */
  method Walk(host: Host, element: Type, s: InputStream, wanted: set<nat>) returns (seen: Option<seq<Value>>)
    requires s.Valid()
    modifies s
    ensures seen == match ReadUnsigned(4, old(s.Rest()))
                    case Underflow => None
                    case Got(n, rest) => Visit(element, 0, n, rest, wanted)
  {
    hide Read, Skip, FromLittleEndian;
    var size := s.ReadUnsigned(4);
    if size.None? {
      return None;
    }
    ghost var all := Visit(element, 0, size.value, s.Rest(), wanted);
    var it := new VectorIterator(host, element, s);
    var done := [];
    OntoLaws([], Flag(false), all);
    while it.idx != size.value
      invariant it.input.Valid() && fresh(it) && fresh(it.input) && it.element == element
      invariant it.idx <= size.value && !it.consumed
      invariant all == Onto(done, Visit(element, it.idx, size.value, it.input.Rest(), wanted))
      decreases size.value - it.idx
    {
      if it.idx in wanted {
        var v := it.Dereference();
        if v.None? {
          return None;
        }
        OntoLaws(done, v.value, Visit(element, it.idx, size.value, it.input.Rest(), wanted));
        done := done + [v.value];
      }
      var ok := it.Increment();
      if !ok {
        return None;
      }
    }
    OntoLaws(done, Flag(false), None);
    return Some(done);
  }

  /** The elements at the wanted positions, the first one being element `k`. */
  function Pick(items: seq<Value>, k: nat, wanted: set<nat>): seq<Value> {
    if items == [] then []
    else (if k in wanted then [items[0]] else []) + Pick(items[1..], k + 1, wanted)
  }

  /** On a vector that can be read, and whose elements are skipped to where they are read to, a walk
      sees the elements at the positions it asks for. */
  lemma {:induction false} VisitPicks(t: Type, k: nat, n: nat, s: seq<byte>, wanted: set<nat>)
    requires SkipExact(t) && k <= n && ReadAll(t, n - k, s).Got?
    ensures Visit(t, k, n, s, wanted) == Some(Pick(ReadAll(t, n - k, s).value, k, wanted))
    decreases n - k
  {
    hide Read, Skip, SkipExact;
    if k < n {
      SkipFollowsRead(t, s);
      VisitPicks(t, k + 1, n, Read(t, s).rest, wanted);
      var items := ReadAll(t, n - k, s).value;
      assert items[1..] == ReadAll(t, n - k - 1, Read(t, s).rest).value;
      var later := Pick(items[1..], k + 1, wanted);
      assert [] + later == later;
    }
  }

  // ---------- reverse iteration ----------

  predicate IsSuffix(rest: seq<byte>, s: seq<byte>) {
    |rest| <= |s| && rest == s[|s| - |rest|..]
  }

  lemma SuffixTransitive(a: seq<byte>, b: seq<byte>, c: seq<byte>)
    requires IsSuffix(a, b) && IsSuffix(b, c)
    ensures IsSuffix(a, c)
  {}

  /** Skipping leaves an end of the input. */
  lemma {:induction false} SkipLeavesEnd(t: Type, s: seq<byte>)
    requires Skip(t, s).Some?
    ensures IsSuffix(Skip(t, s).value, s)
    decreases t, 1, 0
  {
    hide FromLittleEndian;
    match t
    case Vector(e) =>
      var n := ReadUnsigned(4, s);
      SkipAllLeavesEnd(e, n.value, n.rest);
      SuffixTransitive(Skip(t, s).value, n.rest, s);
    case Optional(e) =>
      var u := ReadUnsigned(1, s);
      if u.value != 0 {
        SkipLeavesEnd(e, u.rest);
        SuffixTransitive(Skip(t, s).value, u.rest, s);
      }
    case Map(_, _) =>
      var n := ReadUnsigned(4, s);
      SkipEntriesLeavesEnd(t, n.value, n.rest);
      SuffixTransitive(Skip(t, s).value, n.rest, s);
    case Final(ms) => SkipMembersLeavesEnd(ms, s);
    case _ =>
  }

  lemma {:induction false} SkipAllLeavesEnd(t: Type, n: nat, s: seq<byte>)
    requires SkipAll(t, n, s).Some?
    ensures IsSuffix(SkipAll(t, n, s).value, s)
    decreases t, 2, n
  {
    if n > 0 {
      SkipLeavesEnd(t, s);
      SkipAllLeavesEnd(t, n - 1, Skip(t, s).value);
      SuffixTransitive(SkipAll(t, n, s).value, Skip(t, s).value, s);
    }
  }

  lemma {:induction false} SkipEntriesLeavesEnd(t: Type, n: nat, s: seq<byte>)
    requires t.Map? && SkipEntries(t, n, s).Some?
    ensures IsSuffix(SkipEntries(t, n, s).value, s)
    decreases t, 0, n
  {
    hide Skip;
    if n > 0 {
      var rest := Skip(t.key, s).value;
      var after := Skip(t.mapped, rest).value;
      SkipLeavesEnd(t.key, s);
      SkipLeavesEnd(t.mapped, rest);
      SuffixTransitive(after, rest, s);
      SkipEntriesLeavesEnd(t, n - 1, after);
      SuffixTransitive(SkipEntries(t, n, s).value, after, s);
    }
  }

  lemma {:induction false} SkipMembersLeavesEnd(ms: Members, s: seq<byte>)
    requires SkipMembers(ms, s).Some?
    ensures IsSuffix(SkipMembers(ms, s).value, s)
    decreases ms, 0, 0
  {
    hide Skip;
    if ms.Member? {
      SkipLeavesEnd(ms.kind, s);
      SkipMembersLeavesEnd(ms.rest, Skip(ms.kind, s).value);
      SuffixTransitive(SkipMembers(ms, s).value, Skip(ms.kind, s).value, s);
    }
  }

  /** The stretches of the input that skipping `n` elements passes over, or `None` when it throws. */
  function Stretches(t: Type, n: nat, s: seq<byte>): Option<seq<seq<byte>>> {
    if n == 0 then Some([])
    else
      match Skip(t, s)
      case None => None
      case Some(rest) =>
        SkipLeavesEnd(t, s);
        Onto([s[..|s| - |rest|]], Stretches(t, n - 1, rest))
  }

  /** `fill_substreams`: skipping over an element finds its stretch of the stream, which is cut out
      of a second copy. */
  method FillSubstreams(host: Host, element: Type, s: InputStream, n: nat) returns (streams: Option<seq<seq<byte>>>)
    requires s.Valid()
    modifies s
    ensures streams == Stretches(element, n, old(s.Rest()))
  {
    hide Skip, Onto;
    ghost var all := Stretches(element, n, s.Rest());
    var second := s.Copy();
    var done := [];
    OntoLaws([], [], all);
    for i := 0 to n
      invariant s.Valid() && second.Valid() && fresh(second) && second.Rest() == s.Rest()
      invariant all == Onto(done, Stretches(element, n - i, s.Rest()))
    {
      var oldSize := s.size;
      ghost var was := s.Rest();
      var ok := SkipValue(host, s, element);
      if !ok {
        OntoNone(done);
        return None;
      }
      SkipLeavesEnd(element, was);
      var b := second.Read(oldSize - s.size);
      OntoLaws(done, b.value, Stretches(element, n - i - 1, s.Rest()));
      done := done + [b.value];
    }
    OntoLaws(done, [], None);
    return Some(done);
  }

  /** The substreams are read last to first, until one of them throws. */
  function ReadBack(t: Type, streams: seq<seq<byte>>): Option<seq<Value>> {
    if streams == [] then Some([])
    else
      match Read(t, streams[|streams| - 1])
      case Underflow => None
      case Got(v, _) => Onto([v], ReadBack(t, streams[..|streams| - 1]))
  }

  /** The reverse view, whatever the bytes. */
  method WalkBackwards(host: Host, element: Type, s: InputStream) returns (seen: Option<seq<Value>>)
    requires s.Valid()
    modifies s
    ensures seen == match ReadUnsigned(4, old(s.Rest()))
                    case Underflow => None
                    case Got(n, rest) =>
                      match Stretches(element, n, rest)
                      case None => None
                      case Some(streams) => ReadBack(element, streams)
  {
    hide Read, Stretches, FromLittleEndian;
    var size := s.ReadUnsigned(4);
    if size.None? {
      return None;
    }
    var streams := FillSubstreams(host, element, s, size.value);
    if streams.None? {
      return None;
    }
    var done := [];
    var n := |streams.value|;
    ghost var all := ReadBack(element, streams.value);
    assert streams.value[..n] == streams.value;
    OntoLaws([], Flag(false), all);
    while n > 0
      invariant 0 <= n <= |streams.value|
      invariant all == Onto(done, ReadBack(element, streams.value[..n]))
    {
      assert streams.value[..n][..n - 1] == streams.value[..n - 1];
      n := n - 1;
      var one := new InputStream(streams.value[n]);
      var v := Deserialize(host, one, element);
      if v.None? {
        return None;
      }
      OntoLaws(done, v.value, ReadBack(element, streams.value[..n]));
      done := done + [v.value];
    }
    OntoLaws(done, Flag(false), None);
    return Some(done);
  }

  /** Each stream holds exactly one element. */
  ghost predicate Separated(t: Type, streams: seq<seq<byte>>, items: seq<Value>) {
    |streams| == |items| && forall k | 0 <= k < |items| :: Read(t, streams[k]) == Got(items[k], [])
  }

  /** The substreams of a vector that can be read hold its elements, one each. */
  lemma {:induction false} StretchesSeparate(t: Type, n: nat, s: seq<byte>)
    requires SkipExact(t) && DefaultsFit(t) && ReadAll(t, n, s).Got?
    ensures Stretches(t, n, s).Some? && Separated(t, Stretches(t, n, s).value, ReadAll(t, n, s).value)
    decreases n
  {
    hide Read, Skip, SkipExact, DefaultsFit;
    if n > 0 {
      var rest := Read(t, s).rest;
      SkipFollowsRead(t, s);
      SkipLeavesEnd(t, s);
      var k := ReadIsLocal(t, s, []);
      assert s[..k] + [] == s[..k];
      StretchesSeparate(t, n - 1, rest);
    }
  }

  /** Read last to first, they come in reverse order. */
  lemma {:induction false} ReadBackReverses(t: Type, streams: seq<seq<byte>>, items: seq<Value>)
    requires Separated(t, streams, items)
    ensures var seen := ReadBack(t, streams);
            && seen.Some? && |seen.value| == |items|
            && forall k | 0 <= k < |items| :: seen.value[k] == items[|items| - 1 - k]
  {
    hide Read;
    if items != [] {
      var n := |items| - 1;
      ReadBackReverses(t, streams[..n], items[..n]);
    }
  }
}
