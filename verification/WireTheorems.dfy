/** What the wire format promises: sizes are measured right, skipping agrees with reading, and a
    reader of any compatible version of a type gets the written value back. */
module WireTheorems {
  import opened Wrappers
  import opened Integers
  import opened WireFormat

  // ---------- measuring ----------

  /** The measured size is the number of bytes written, nested frames included. */
  lemma {:induction false} MeasureIsSize(t: Type, v: Value)
    requires HasType(t, v) && Write(t, v).Some?
    ensures Measure(t, v) == Some(|Write(t, v).value|)
    decreases t, 1, 0
  {
    hide WriteAll, WriteEntries, WriteMembers, MeasureAll, MeasureEntries, MeasureMembers, LittleEndian;
    match t
    case Vector(e) => MeasureAllIsSize(e, v.items);
    case Optional(e) => if v.inner.Some? { MeasureIsSize(e, v.inner.value); }
    case Map(_, _) => MeasureEntriesIsSize(t, v.entries);
    case Final(ms) => MeasureMembersIsSize(ms, v.fields);
    case Framed(ms) => MeasureMembersIsSize(ms, v.fields);
    case _ =>
  }

  lemma {:induction false} MeasureAllIsSize(t: Type, vs: seq<Value>)
    requires (forall x | x in vs :: HasType(t, x)) && WriteAll(t, vs).Some?
    ensures MeasureAll(t, vs) == Some(|WriteAll(t, vs).value|)
    decreases t, 2, |vs|
  {
    hide Measure, Write, HasType;
    if vs != [] {
      MeasureIsSize(t, vs[0]);
      MeasureAllIsSize(t, vs[1..]);
    }
  }

  lemma {:induction false} MeasureEntriesIsSize(t: Type, es: seq<(Value, Value)>)
    requires t.Map? && forall x | x in es :: HasType(t.key, x.0) && HasType(t.mapped, x.1)
    requires WriteEntries(t, es).Some?
    ensures MeasureEntries(t, es) == Some(|WriteEntries(t, es).value|)
    decreases t, 0, |es|
  {
    hide Measure, Write, HasType;
    if es != [] {
      MeasureIsSize(t.key, es[0].0);
      MeasureIsSize(t.mapped, es[0].1);
      MeasureEntriesIsSize(t, es[1..]);
    }
  }

  lemma {:induction false} MeasureMembersIsSize(ms: Members, vs: seq<Value>)
    requires HaveTypes(ms, vs) && WriteMembers(ms, vs).Some?
    ensures MeasureMembers(ms, vs) == Some(|WriteMembers(ms, vs).value|)
    decreases ms, 0, 0
  {
    if ms.Member? {
      MeasureIsSize(ms.kind, vs[0]);
      MeasureMembersIsSize(ms.rest, vs[1..]);
    }
  }

  // ---------- compatible versions ----------

  /** Some byte is written for every value. */
  predicate Solid(t: Type) {
    t.Final? ==> SomeSolid(t.members)
  }

  predicate SomeSolid(ms: Members) {
    ms.Member? && (Solid(ms.kind) || SomeSolid(ms.rest))
  }

  predicate AllAttributed(ms: Members) {
    ms.Member? ==> ms.attribute != Plain && AllAttributed(ms.rest)
  }

  /** What is written as `w` can be read as `r`: the same shape, except that of two framed classes
      one may have further members at its end, and the reader's further members are attributed. */
  ghost predicate Compatible(w: Type, r: Type)
    decreases r
  {
    match w
    case Integer(_, _) => w == r
    case Bool => w == r
    case Bytes => w == r
    case Vector(e) => r.Vector? && Compatible(e, r.element)
    case Optional(e) => r.Optional? && Compatible(e, r.inner)
    case Map(k, e) => r.Map? && k == r.key && Compatible(k, r.key) && Compatible(e, r.mapped)
    case Final(ms) => r.Final? && Length(ms) == Length(r.members) && CompatibleMembers(ms, r.members)
    case Framed(ms) => r.Framed? && CompatibleMembers(ms, r.members)
  }

  ghost predicate CompatibleMembers(w: Members, r: Members)
    decreases r
  {
    if w.End? then AllAttributed(r)
    else r.Member? ==>
      && Compatible(w.kind, r.kind)
      && (r.attribute != Plain ==> Solid(w.kind) || (r.absent.Fixed? && HasType(r.kind, r.absent.value)))
      && CompatibleMembers(w.rest, r.rest)
  }

  /** The value a reader of `r` should get for `v` of type `w`. */
  ghost function Convert(w: Type, r: Type, v: Value): Value
    requires Compatible(w, r) && HasType(w, v)
    decreases r, 1, 0
  {
    match w
    case Vector(e) => Items(ConvertAll(e, r.element, v.items))
    case Optional(e) => Maybe(if v.inner.None? then None else Some(Convert(e, r.inner, v.inner.value)))
    case Map(_, _) => Table(ConvertEntries(w, r, v.entries))
    case Final(ms) => Record(ConvertMembers(ms, r.members, v.fields, []))
    case Framed(ms) => Record(ConvertMembers(ms, r.members, v.fields, []))
    case _ => v
  }

  ghost function ConvertAll(w: Type, r: Type, vs: seq<Value>): (c: seq<Value>)
    requires Compatible(w, r) && forall x | x in vs :: HasType(w, x)
    ensures |c| == |vs|
    decreases r, 2, |vs|
  {
    if vs == [] then [] else [Convert(w, r, vs[0])] + ConvertAll(w, r, vs[1..])
  }

  ghost function ConvertEntries(w: Type, r: Type, es: seq<(Value, Value)>): (c: seq<(Value, Value)>)
    requires w.Map? && Compatible(w, r) && forall x | x in es :: HasType(w.key, x.0) && HasType(w.mapped, x.1)
    ensures |c| == |es|
    decreases r, 0, |es|
  {
    if es == [] then []
    else [(es[0].0, Convert(w.mapped, r.mapped, es[0].1))] + ConvertEntries(w, r, es[1..])
  }

  ghost function ConvertMembers(w: Members, r: Members, vs: seq<Value>, done: seq<Value>): (c: seq<Value>)
    requires CompatibleMembers(w, r) && HaveTypes(w, vs)
    ensures |c| == |done| + Length(r)
    decreases r, 0, 0
  {
    if r.End? then done
    else if w.End? then ConvertMembers(w, r.rest, vs, done + [Lookup(r.absent, done)])
    else ConvertMembers(w.rest, r.rest, vs[1..], done + [Convert(w.kind, r.kind, vs[0])])
  }

  /** Blob lengths are written modulo 2^32 without a check; these fit. */
  ghost predicate BlobsFit(t: Type, v: Value)
    requires HasType(t, v)
    decreases t
  {
    match t
    case Bytes => |v.data| < U32
    case Vector(e) => forall x | x in v.items :: BlobsFit(e, x)
    case Optional(e) => v.inner.Some? ==> BlobsFit(e, v.inner.value)
    case Map(k, e) => forall x | x in v.entries :: BlobsFit(k, x.0) && BlobsFit(e, x.1)
    case Final(ms) => MemberBlobsFit(ms, v.fields)
    case Framed(ms) => MemberBlobsFit(ms, v.fields)
    case _ => true
  }

  ghost predicate MemberBlobsFit(ms: Members, vs: seq<Value>)
    requires HaveTypes(ms, vs)
    decreases ms
  {
    ms.Member? ==> BlobsFit(ms.kind, vs[0]) && MemberBlobsFit(ms.rest, vs[1..])
  }

  lemma ReadUnsignedWritten(n: nat, w: nat, rest: seq<byte>)
    requires n < Pow(w)
    ensures ReadUnsigned(w, LittleEndian(n, w) + rest) == Got(n, rest)
  {
    LittleEndianRoundTrip(n, w);
    var b := LittleEndian(n, w);
    assert (b + rest)[..w] == b && (b + rest)[w..] == rest;
  }

  lemma Pow4()
    ensures Pow(4) == U32 && Pow(1) == 256
  {
    assert Pow(2) == 256 * 256;
  }

  lemma ReadCountWritten(n: nat, b: seq<byte>, rest: seq<byte>)
    requires n < U32
    ensures ReadUnsigned(4, (LittleEndian(n, 4) + b) + rest) == Got(n, b + rest)
  {
    Pow4();
    ReadUnsignedWritten(n, 4, b + rest);
    assert (LittleEndian(n, 4) + b) + rest == LittleEndian(n, 4) + (b + rest);
  }

  lemma ReadSizedWritten(extra: nat, b: seq<byte>, rest: seq<byte>)
    requires extra + |b| < U32
    ensures ReadSized(extra, (LittleEndian(extra + |b|, 4) + b) + rest) == Got(b, rest)
  {
    ReadCountWritten(extra + |b|, b, rest);
    assert (b + rest)[..|b|] == b && (b + rest)[|b|..] == rest;
  }

  lemma {:induction false} SolidWrites(t: Type, v: Value)
    requires Solid(t) && HasType(t, v) && Write(t, v).Some?
    ensures Write(t, v).value != []
  {
    if t.Final? {
      SomeSolidWrites(t.members, v.fields);
    }
  }

  lemma {:induction false} SomeSolidWrites(ms: Members, vs: seq<Value>)
    requires SomeSolid(ms) && HaveTypes(ms, vs) && WriteMembers(ms, vs).Some?
    ensures WriteMembers(ms, vs).value != []
  {
    if Solid(ms.kind) {
      SolidWrites(ms.kind, vs[0]);
    } else {
      SomeSolidWrites(ms.rest, vs[1..]);
    }
  }

  /** A type for which nothing is written has a single value, so that its default is that value. */
  lemma {:induction false} HollowConverts(w: Type, r: Type, v: Value, d: Value)
    requires !Solid(w) && Compatible(w, r) && HasType(w, v) && HasType(r, d)
    ensures Convert(w, r, v) == d
  {
    HollowMembersConvert(w.members, r.members, v.fields, d.fields, []);
    assert [] + d.fields == d.fields;
  }

  lemma {:induction false} HollowMembersConvert(w: Members, r: Members, vs: seq<Value>, ds: seq<Value>,
                                                done: seq<Value>)
    requires !SomeSolid(w) && Length(w) == Length(r) && CompatibleMembers(w, r) && HaveTypes(w, vs) && HaveTypes(r, ds)
    ensures ConvertMembers(w, r, vs, done) == done + ds
  {
    if w.Member? {
      HollowConverts(w.kind, r.kind, vs[0], ds[0]);
      HollowMembersConvert(w.rest, r.rest, vs[1..], ds[1..], done + [ds[0]]);
      assert (done + [ds[0]]) + ds[1..] == done + ds;
    } else {
      assert done + ds == done;
    }
  }

  /** If a member's stretch of the stream is empty, its default is what was written. */
  lemma AbsentIsWritten(w: Members, r: Members, v: Value, s: seq<byte>, done: seq<Value>)
    requires w.Member? && r.Member? && CompatibleMembers(w, r) && HasType(w.kind, v) && Write(w.kind, v).Some?
    requires r.attribute != Plain && Write(w.kind, v).value + s == []
    ensures Lookup(r.absent, done) == Convert(w.kind, r.kind, v)
  {
    if Solid(w.kind) {
      SolidWrites(w.kind, v);
      assert false;
    }
    HollowConverts(w.kind, r.kind, v, r.absent.value);
  }

  lemma ReadIntegerWritten(w: Width, signed: bool, v: Value, rest: seq<byte>)
    requires HasType(Integer(w, signed), v)
    ensures Read(Integer(w, signed), Write(Integer(w, signed), v).value + rest) == Got(v, rest)
  {
    TwosComplement(v.number, w, signed);
    ReadUnsignedWritten(ToUnsigned(v.number, w), w, rest);
  }

  lemma ReadBoolWritten(v: Value, rest: seq<byte>)
    requires HasType(Bool, v)
    ensures Read(Bool, Write(Bool, v).value + rest) == Got(v, rest)
  {
    var b := Write(Bool, v).value;
    assert (b + rest)[..1] == b && (b + rest)[1..] == rest;
    assert FromLittleEndian(b) == b[0];
  }

  /** Reading what a compatible version wrote gives the converted value and leaves exactly what follows. */
  lemma {:induction false} ReadWritten(w: Type, r: Type, v: Value, rest: seq<byte>)
    requires Compatible(w, r) && HasType(w, v) && Write(w, v).Some? && BlobsFit(w, v)
    ensures Read(r, Write(w, v).value + rest) == Got(Convert(w, r, v), rest)
    decreases r, 1, 1
  {
    hide Read, Write, Convert, HasType, BlobsFit, Compatible;
    match w
    case Integer(_, _) => ReadScalarWritten(w, r, v, rest);
    case Bool => ReadScalarWritten(w, r, v, rest);
    case Bytes => ReadScalarWritten(w, r, v, rest);
    case Vector(_) => ReadVectorWritten(w, r, v, rest);
    case Optional(_) => ReadOptionalWritten(w, r, v, rest);
    case Map(_, _) => ReadMapWritten(w, r, v, rest);
    case Final(_) => ReadFinalWritten(w, r, v, rest);
    case Framed(_) => ReadFrameWritten(w, r, v, rest);
  }

  lemma {:induction false} ReadScalarWritten(w: Type, r: Type, v: Value, rest: seq<byte>)
    requires w.Integer? || w.Bool? || w.Bytes?
    requires Compatible(w, r) && HasType(w, v) && Write(w, v).Some? && BlobsFit(w, v)
    ensures Read(r, Write(w, v).value + rest) == Got(Convert(w, r, v), rest)
  {
    hide LittleEndian, FromLittleEndian, Pow;
    match w
    case Integer(n, signed) => ReadIntegerWritten(n, signed, v, rest);
    case Bool => ReadBoolWritten(v, rest);
    case Bytes => ReadSizedWritten(0, v.data, rest);
  }

  lemma {:induction false} ReadFinalWritten(w: Type, r: Type, v: Value, rest: seq<byte>)
    requires w.Final? && Compatible(w, r) && HasType(w, v) && Write(w, v).Some? && BlobsFit(w, v)
    ensures Read(r, Write(w, v).value + rest) == Got(Convert(w, r, v), rest)
    decreases r, 1, 0
  {
    ReadMembersWritten(w.members, r.members, v.fields, rest, []);
  }

  lemma {:induction false} ReadVectorWritten(w: Type, r: Type, v: Value, rest: seq<byte>)
    requires w.Vector? && Compatible(w, r) && HasType(w, v) && Write(w, v).Some? && BlobsFit(w, v)
    ensures Read(r, Write(w, v).value + rest) == Got(Convert(w, r, v), rest)
    decreases r, 1, 0
  {
    ReadCountWritten(|v.items|, WriteAll(w.element, v.items).value, rest);
    ReadAllWritten(w.element, r.element, v.items, rest);
  }

  lemma {:induction false} ReadOptionalWritten(w: Type, r: Type, v: Value, rest: seq<byte>)
    requires w.Optional? && Compatible(w, r) && HasType(w, v) && Write(w, v).Some? && BlobsFit(w, v)
    ensures Read(r, Write(w, v).value + rest) == Got(Convert(w, r, v), rest)
    decreases r, 1, 0
  {
    var b := Write(w, v).value;
    assert (b + rest)[..1] == [b[0]] && (b + rest)[1..] == b[1..] + rest;
    assert FromLittleEndian([b[0]]) == b[0];
    if v.inner.Some? {
      assert b[1..] == Write(w.inner, v.inner.value).value;
      ReadWritten(w.inner, r.inner, v.inner.value, rest);
    } else {
      assert b[1..] + rest == rest;
    }
  }

  lemma {:induction false} ReadMapWritten(w: Type, r: Type, v: Value, rest: seq<byte>)
    requires w.Map? && Compatible(w, r) && HasType(w, v) && Write(w, v).Some? && BlobsFit(w, v)
    ensures Read(r, Write(w, v).value + rest) == Got(Convert(w, r, v), rest)
    decreases r, 1, 0
  {
    ReadCountWritten(|v.entries|, WriteEntries(w, v.entries).value, rest);
    ReadEntriesWritten(w, r, v.entries, rest, []);
    assert [] + ConvertEntries(w, r, v.entries) == ConvertEntries(w, r, v.entries);
  }

  lemma {:induction false} ReadFrameWritten(w: Type, r: Type, v: Value, rest: seq<byte>)
    requires w.Framed? && Compatible(w, r) && HasType(w, v) && Write(w, v).Some? && BlobsFit(w, v)
    ensures Read(r, Write(w, v).value + rest) == Got(Convert(w, r, v), rest)
    decreases r, 0, 0
  {
    var b := WriteMembers(w.members, v.fields).value;
    MeasureMembersIsSize(w.members, v.fields);
    ReadSizedWritten(4, b, rest);
    ReadFramedMembersWritten(w.members, r.members, v.fields, []);
  }

  lemma {:induction false} ReadAllWritten(w: Type, r: Type, vs: seq<Value>, rest: seq<byte>)
    requires Compatible(w, r) && forall x | x in vs :: HasType(w, x)
    requires (forall x | x in vs :: BlobsFit(w, x)) && WriteAll(w, vs).Some?
    ensures ReadAll(r, |vs|, WriteAll(w, vs).value + rest) == Got(ConvertAll(w, r, vs), rest)
    decreases r, 2, |vs|
  {
    hide Read, Write, Convert, HasType, BlobsFit, Compatible;
    if vs == [] {
      assert [] + rest == rest;
    } else {
      var a, b := Write(w, vs[0]).value, WriteAll(w, vs[1..]).value;
      assert (a + b) + rest == a + (b + rest);
      ReadWritten(w, r, vs[0], b + rest);
      ReadAllWritten(w, r, vs[1..], rest);
    }
  }

  lemma {:induction false} ReadEntriesWritten(w: Type, r: Type, es: seq<(Value, Value)>, rest: seq<byte>,
                                              done: seq<(Value, Value)>)
    requires w.Map? && Compatible(w, r) && forall x | x in es :: HasType(w.key, x.0) && HasType(w.mapped, x.1)
    requires forall x | x in es :: BlobsFit(w.key, x.0) && BlobsFit(w.mapped, x.1)
    requires WriteEntries(w, es).Some? && DistinctKeys(es)
    requires forall x, y | x in es && y in done :: x.0 != y.0
    ensures ReadEntries(r, |es|, WriteEntries(w, es).value + rest, done) == Got(done + ConvertEntries(w, r, es), rest)
    decreases r, 0, |es|
  {
    hide Read, Write, Convert, HasType, BlobsFit, Emplace;
    if es == [] {
      assert [] + rest == rest && done + [] == done;
    } else {
      var key, mapped := es[0].0, es[0].1;
      var a, b, c := Write(w.key, key).value, Write(w.mapped, mapped).value, WriteEntries(w, es[1..]).value;
      assert ((a + b) + c) + rest == a + (b + (c + rest));
      ReadWritten(w.key, r.key, key, b + (c + rest));
      ConvertSelf(w.key, key);
      ReadWritten(w.mapped, r.mapped, mapped, c + rest);
      var entry := (key, Convert(w.mapped, r.mapped, mapped));
      EmplaceNew(done, entry.0, entry.1);
      ReadEntriesWritten(w, r, es[1..], rest, done + [entry]);
      assert (done + [entry]) + ConvertEntries(w, r, es[1..]) == done + ConvertEntries(w, r, es);
    }
  }

  lemma EmplaceNew(done: seq<(Value, Value)>, key: Value, mapped: Value)
    requires forall x | x in done :: x.0 != key
    ensures Emplace(done, key, mapped) == done + [(key, mapped)]
  {}

  /** Without a frame: both sides have the same number of members. */
  lemma {:induction false} ReadMembersWritten(w: Members, r: Members, vs: seq<Value>, rest: seq<byte>, done: seq<Value>)
    requires Length(w) == Length(r) && CompatibleMembers(w, r) && HaveTypes(w, vs)
    requires WriteMembers(w, vs).Some? && MemberBlobsFit(w, vs)
    ensures ReadMembers(r, WriteMembers(w, vs).value + rest, done) == Got(ConvertMembers(w, r, vs, done), rest)
    decreases r, 0, 0
  {
    if w.End? {
      assert [] + rest == rest;
    } else {
      var a, b := Write(w.kind, vs[0]).value, WriteMembers(w.rest, vs[1..]).value;
      assert (a + b) + rest == a + (b + rest);
      ReadWritten(w.kind, r.kind, vs[0], b + rest);
      if r.attribute != Plain && a + (b + rest) == [] {
        AbsentIsWritten(w, r, vs[0], b + rest, done);
      }
      ReadMembersWritten(w.rest, r.rest, vs[1..], rest, done + [Convert(w.kind, r.kind, vs[0])]);
    }
  }

  /** Within a frame: what an older reader does not know is left unread in the frame. */
  lemma {:induction false} ReadFramedMembersWritten(w: Members, r: Members, vs: seq<Value>, done: seq<Value>)
    requires CompatibleMembers(w, r) && HaveTypes(w, vs)
    requires WriteMembers(w, vs).Some? && MemberBlobsFit(w, vs)
    ensures var p := ReadMembers(r, WriteMembers(w, vs).value, done);
            p.Got? && p.value == ConvertMembers(w, r, vs, done)
    decreases r, 0, 0
  {
    if r.Member? {
      if w.End? {
        ReadFramedMembersWritten(w, r.rest, vs, done + [Lookup(r.absent, done)]);
      } else {
        var b := WriteMembers(w.rest, vs[1..]).value;
        ReadWritten(w.kind, r.kind, vs[0], b);
        if r.attribute != Plain && Write(w.kind, vs[0]).value + b == [] {
          AbsentIsWritten(w, r, vs[0], b, done);
        }
        ReadFramedMembersWritten(w.rest, r.rest, vs[1..], done + [Convert(w.kind, r.kind, vs[0])]);
      }
    }
  }

  // ---------- one version ----------

  lemma {:induction false} ConvertSelf(t: Type, v: Value)
    requires Compatible(t, t) && HasType(t, v)
    ensures Convert(t, t, v) == v
    decreases t, 1, 0
  {
    match t
    case Vector(e) => ConvertAllSelf(e, v.items);
    case Optional(e) => if v.inner.Some? { ConvertSelf(e, v.inner.value); }
    case Map(_, _) => ConvertEntriesSelf(t, v.entries);
    case Final(ms) => ConvertMembersSelf(ms, v.fields, []);
    case Framed(ms) => ConvertMembersSelf(ms, v.fields, []);
    case _ =>
  }

  lemma {:induction false} ConvertAllSelf(t: Type, vs: seq<Value>)
    requires Compatible(t, t) && forall x | x in vs :: HasType(t, x)
    ensures ConvertAll(t, t, vs) == vs
    decreases t, 2, |vs|
  {
    if vs != [] {
      ConvertSelf(t, vs[0]);
      ConvertAllSelf(t, vs[1..]);
    }
  }

  lemma {:induction false} ConvertEntriesSelf(t: Type, es: seq<(Value, Value)>)
    requires t.Map? && Compatible(t, t) && forall x | x in es :: HasType(t.key, x.0) && HasType(t.mapped, x.1)
    ensures ConvertEntries(t, t, es) == es
    decreases t, 0, |es|
  {
    if es != [] {
      ConvertSelf(t.mapped, es[0].1);
      ConvertEntriesSelf(t, es[1..]);
    }
  }

  lemma {:induction false} ConvertMembersSelf(ms: Members, vs: seq<Value>, done: seq<Value>)
    requires CompatibleMembers(ms, ms) && HaveTypes(ms, vs)
    ensures ConvertMembers(ms, ms, vs, done) == done + vs
    decreases ms, 0, 0
  {
    if ms.Member? {
      ConvertSelf(ms.kind, vs[0]);
      ConvertMembersSelf(ms.rest, vs[1..], done + [vs[0]]);
      assert (done + [vs[0]]) + vs[1..] == done + vs;
    } else {
      assert done + vs == done;
    }
  }

  /** The default of an attributed member has the member's type; it may be another member's value
      if something is always written for the member. */
  ghost predicate WellTyped(t: Type) {
    match t
    case Vector(e) => WellTyped(e)
    case Optional(e) => WellTyped(e)
    case Map(k, e) => WellTyped(k) && WellTyped(e)
    case Final(ms) => WellTypedMembers(ms)
    case Framed(ms) => WellTypedMembers(ms)
    case _ => true
  }

  ghost predicate WellTypedMembers(ms: Members) {
    ms.Member? ==>
      && WellTyped(ms.kind)
      && (ms.attribute != Plain ==> Solid(ms.kind) || (ms.absent.Fixed? && HasType(ms.kind, ms.absent.value)))
      && WellTypedMembers(ms.rest)
  }

  lemma {:induction false} CompatibleSelf(t: Type)
    requires WellTyped(t)
    ensures Compatible(t, t)
  {
    match t
    case Vector(e) => CompatibleSelf(e);
    case Optional(e) => CompatibleSelf(e);
    case Map(k, e) => CompatibleSelf(k); CompatibleSelf(e);
    case Final(ms) => CompatibleMembersSelf(ms);
    case Framed(ms) => CompatibleMembersSelf(ms);
    case _ =>
  }

  lemma {:induction false} CompatibleMembersSelf(ms: Members)
    requires WellTypedMembers(ms)
    ensures CompatibleMembers(ms, ms)
  {
    if ms.Member? {
      CompatibleSelf(ms.kind);
      CompatibleMembersSelf(ms.rest);
    }
  }

  /** Reading back gives the value and leaves exactly what follows. */
  lemma RoundTrip(t: Type, v: Value, rest: seq<byte>)
    requires WellTyped(t) && HasType(t, v) && Write(t, v).Some? && BlobsFit(t, v)
    ensures Read(t, Write(t, v).value + rest) == Got(v, rest)
  {
    CompatibleSelf(t);
    ReadWritten(t, t, v, rest);
    ConvertSelf(t, v);
  }

  lemma ReadShorter(s: seq<byte>, n: nat)
    requires ReadUnsigned(4, s).Got? && ReadUnsigned(4, s).value == n <= |ReadUnsigned(4, s).rest|
    ensures Read(Bytes, s).Got? && |Read(Bytes, s).value.data| == n
  {}

  /** The length prefix of a blob wraps around: it reads back exactly when it is below 4 GiB. */
  lemma BlobRoundTrip(data: seq<byte>, rest: seq<byte>)
    ensures Write(Bytes, Blob(data)).Some?
    ensures Read(Bytes, Write(Bytes, Blob(data)).value + rest) == Got(Blob(data), rest) <==> |data| < U32
  {
    hide FromLittleEndian, LittleEndian, Pow;
    var n := |data| % U32;
    assert Write(Bytes, Blob(data)).value == LittleEndian(n, 4) + data;
    if |data| < U32 {
      ReadSizedWritten(0, data, rest);
    } else {
      ReadCountWritten(n, data, rest);
      ReadShorter(LittleEndian(n, 4) + data + rest, n);
    }
  }

  /** Encodings are prefix-free: what was written determines the value. */
  lemma WritesAreDistinct(t: Type, v: Value, v': Value, rest: seq<byte>, rest': seq<byte>)
    requires WellTyped(t) && HasType(t, v) && HasType(t, v')
    requires Write(t, v).Some? && BlobsFit(t, v) && Write(t, v').Some? && BlobsFit(t, v')
    requires Write(t, v).value + rest == Write(t, v').value + rest'
    ensures v == v' && rest == rest'
  {
    RoundTrip(t, v, rest);
    RoundTrip(t, v', rest');
  }
}
