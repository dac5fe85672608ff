/** The IDL wire format: the type universe of the serializers and of the classes the IDL compiler
    emits, with what writing, measuring, reading and skipping mean on whole byte strings. */
module WireFormat {
  import opened Wrappers
  import opened Integers

  datatype Type =
    | Integer(width: Width, signed: bool)
    | Bool
    | Bytes
    | Vector(element: Type)
    | Optional(inner: Type)
    | Map(key: Type, mapped: Type)
    | Final(members: Members)
    | Framed(members: Members)

  /** A class's members in wire order. */
  datatype Members = End | Member(kind: Type, attribute: Attribute, absent: Default, rest: Members)

  /** `numbers` is empty when the attribute's version does not parse. */
  datatype Attribute = Plain | Version(numbers: seq<int>) | Other

  /** The value of an attributed member that is absent: fixed, or that of an earlier member. */
  datatype Default = Fixed(value: Value) | Earlier(index: nat)

  datatype Value =
    | Number(number: int)
    | Flag(flag: bool)
    | Blob(data: seq<byte>)
    | Items(items: seq<Value>)
    | Maybe(inner: Option<Value>)
    | Table(entries: seq<(Value, Value)>)
    | Record(fields: seq<Value>)

  /** A map is its entries in iteration order. */
  ghost predicate DistinctKeys(entries: seq<(Value, Value)>) {
    forall a, b | 0 <= a < b < |entries| :: entries[a].0 != entries[b].0
  }

  function Length(ms: Members): nat {
    if ms.End? then 0 else 1 + Length(ms.rest)
  }

  ghost predicate HasType(t: Type, v: Value)
    decreases t
  {
    match t
    case Integer(w, signed) => v.Number? && InRange(v.number, w, signed)
    case Bool => v.Flag?
    case Bytes => v.Blob?
    case Vector(e) => v.Items? && forall x | x in v.items :: HasType(e, x)
    case Optional(e) => v.Maybe? && (v.inner.Some? ==> HasType(e, v.inner.value))
    case Map(k, e) =>
      v.Table? && DistinctKeys(v.entries) && forall x | x in v.entries :: HasType(k, x.0) && HasType(e, x.1)
    case Final(ms) => v.Record? && HaveTypes(ms, v.fields)
    case Framed(ms) => v.Record? && HaveTypes(ms, v.fields)
  }

  ghost predicate HaveTypes(ms: Members, vs: seq<Value>)
    ensures HaveTypes(ms, vs) ==> |vs| == Length(ms)
    decreases ms
  {
    if ms.End? then vs == []
    else vs != [] && HasType(ms.kind, vs[0]) && HaveTypes(ms.rest, vs[1..])
  }

  // ---------- writing ----------

  /** A write is `None` when it throws. */
  type Written = Option<seq<byte>>

  function Join(a: Written, b: Written): Written {
    if a.Some? && b.Some? then Some(a.value + b.value) else None
  }

  /** `safe_serialize_as_uint32` */
  function Count(n: nat): Written {
    if n < U32 then Some(LittleEndian(n, 4)) else None
  }

  function Write(t: Type, v: Value): Written
    requires HasType(t, v)
    decreases t, 1, 0
  {
    match t
    case Integer(w, signed) => TwosComplement(v.number, w, signed); Some(LittleEndian(ToUnsigned(v.number, w), w))
    case Bool => Some([if v.flag then 1 else 0])
    case Bytes => Join(Count(|v.data| % U32), Some(v.data))
    case Vector(e) => Join(Count(|v.items|), WriteAll(e, v.items))
    case Optional(e) => if v.inner.None? then Some([0]) else Join(Some([1]), Write(e, v.inner.value))
    case Map(_, _) => Join(Count(|v.entries|), WriteEntries(t, v.entries))
    case Final(ms) => WriteMembers(ms, v.fields)
    case Framed(ms) => Join(SizeOf(t, v), WriteMembers(ms, v.fields))
  }

  function WriteAll(t: Type, vs: seq<Value>): Written
    requires forall x | x in vs :: HasType(t, x)
    decreases t, 2, |vs|
  {
    if vs == [] then Some([]) else Join(Write(t, vs[0]), WriteAll(t, vs[1..]))
  }

  function WriteEntries(t: Type, entries: seq<(Value, Value)>): Written
    requires t.Map? && forall x | x in entries :: HasType(t.key, x.0) && HasType(t.mapped, x.1)
    decreases t, 0, |entries|
  {
    if entries == [] then Some([])
    else Join(Join(Write(t.key, entries[0].0), Write(t.mapped, entries[0].1)), WriteEntries(t, entries[1..]))
  }

  function WriteMembers(ms: Members, vs: seq<Value>): Written
    requires HaveTypes(ms, vs)
    decreases ms, 0, 0
  {
    if ms.End? then Some([]) else Join(Write(ms.kind, vs[0]), WriteMembers(ms.rest, vs[1..]))
  }

  // ---------- measuring ----------

  function Plus(a: Option<nat>, b: Option<nat>): Option<nat> {
    if a.Some? && b.Some? then Some(a.value + b.value) else None
  }

  /** The size a measuring stream reports; frame sizes are written to it as zero. */
  function Measure(t: Type, v: Value): Option<nat>
    requires HasType(t, v)
    decreases t, 1, 0
  {
    match t
    case Integer(w, _) => Some(w)
    case Bool => Some(1)
    case Bytes => Some(4 + |v.data|)
    case Vector(e) => if |v.items| < U32 then Plus(Some(4), MeasureAll(e, v.items)) else None
    case Optional(e) => if v.inner.None? then Some(1) else Plus(Some(1), Measure(e, v.inner.value))
    case Map(_, _) => if |v.entries| < U32 then Plus(Some(4), MeasureEntries(t, v.entries)) else None
    case Final(ms) => MeasureMembers(ms, v.fields)
    case Framed(ms) => Plus(Some(4), MeasureMembers(ms, v.fields))
  }

  function MeasureAll(t: Type, vs: seq<Value>): Option<nat>
    requires forall x | x in vs :: HasType(t, x)
    decreases t, 2, |vs|
  {
    if vs == [] then Some(0) else Plus(Measure(t, vs[0]), MeasureAll(t, vs[1..]))
  }

  function MeasureEntries(t: Type, entries: seq<(Value, Value)>): Option<nat>
    requires t.Map? && forall x | x in entries :: HasType(t.key, x.0) && HasType(t.mapped, x.1)
    decreases t, 0, |entries|
  {
    if entries == [] then Some(0)
    else Plus(Plus(Measure(t.key, entries[0].0), Measure(t.mapped, entries[0].1)), MeasureEntries(t, entries[1..]))
  }

  function MeasureMembers(ms: Members, vs: seq<Value>): Option<nat>
    requires HaveTypes(ms, vs)
    decreases ms, 0, 0
  {
    if ms.End? then Some(0) else Plus(Measure(ms.kind, vs[0]), MeasureMembers(ms.rest, vs[1..]))
  }

  /** `set_size` with `get_sizeof`: throws when the measured size does not fit. */
  function SizeOf(t: Type, v: Value): Written
    requires HasType(t, v)
  {
    var m := Measure(t, v);
    if m.Some? && m.value < U32 then Some(LittleEndian(m.value, 4)) else None
  }

  // ---------- reading ----------

  /** A read is `Underflow` when it throws. */
  datatype Parsed<+T> = Got(value: T, rest: seq<byte>) | Underflow

  function Lookup(d: Default, done: seq<Value>): Value {
    match d
    case Fixed(v) => v
    case Earlier(k) => if k < |done| then done[k] else Number(0)
  }

  function ReadUnsigned(w: nat, s: seq<byte>): Parsed<nat> {
    if |s| < w then Underflow else Got(FromLittleEndian(s[..w]), s[w..])
  }

  /** The bytes of a frame, or of a length-prefixed blob whose prefix counts `extra` bytes of itself. */
  function ReadSized(extra: nat, s: seq<byte>): Parsed<seq<byte>> {
    match ReadUnsigned(4, s)
    case Underflow => Underflow
    case Got(n, rest) => if extra <= n <= extra + |rest| then Got(rest[..n - extra], rest[n - extra..]) else Underflow
  }

  /** `emplace`: the first entry with a key stays. */
  function Emplace(entries: seq<(Value, Value)>, key: Value, mapped: Value): seq<(Value, Value)> {
    if exists x | x in entries :: x.0 == key then entries else entries + [(key, mapped)]
  }

  function Read(t: Type, s: seq<byte>): Parsed<Value>
    decreases t, 1, 0
  {
    match t
    case Integer(w, signed) =>
      (match ReadUnsigned(w, s)
       case Underflow => Underflow
       case Got(u, rest) => Got(Number(FromUnsigned(u, w, signed)), rest))
    case Bool => (match ReadUnsigned(1, s) case Underflow => Underflow case Got(u, rest) => Got(Flag(u != 0), rest))
    case Bytes => (match ReadSized(0, s) case Underflow => Underflow case Got(b, rest) => Got(Blob(b), rest))
    case Vector(e) =>
      (match ReadUnsigned(4, s)
       case Underflow => Underflow
       case Got(n, rest) =>
         match ReadAll(e, n, rest)
         case Underflow => Underflow
         case Got(vs, after) => Got(Items(vs), after))
    case Optional(e) =>
      (match ReadUnsigned(1, s)
       case Underflow => Underflow
       case Got(u, rest) =>
         if u == 0 then Got(Maybe(None), rest)
         else match Read(e, rest) case Underflow => Underflow case Got(v, after) => Got(Maybe(Some(v)), after))
    case Map(_, _) =>
      (match ReadUnsigned(4, s)
       case Underflow => Underflow
       case Got(n, rest) =>
         match ReadEntries(t, n, rest, []) case Underflow => Underflow case Got(es, after) => Got(Table(es), after))
    case Final(ms) =>
      (match ReadMembers(ms, s, [])
       case Underflow => Underflow
       case Got(vs, rest) => Got(Record(vs), rest))
    case Framed(ms) =>
      (match ReadSized(4, s)
       case Underflow => Underflow
       case Got(b, rest) =>
         match ReadMembers(ms, b, [])
         case Underflow => Underflow
         case Got(vs, _) => Got(Record(vs), rest))
  }

  function ReadAll(t: Type, n: nat, s: seq<byte>): Parsed<seq<Value>>
    decreases t, 2, n
  {
    if n == 0 then Got([], s)
    else
      match Read(t, s)
      case Underflow => Underflow
      case Got(v, rest) =>
        match ReadAll(t, n - 1, rest) case Underflow => Underflow case Got(vs, after) => Got([v] + vs, after)
  }

  function ReadEntries(t: Type, n: nat, s: seq<byte>, done: seq<(Value, Value)>): Parsed<seq<(Value, Value)>>
    requires t.Map?
    decreases t, 0, n
  {
    if n == 0 then Got(done, s)
    else
      match Read(t.key, s)
      case Underflow => Underflow
      case Got(key, rest) =>
        match Read(t.mapped, rest)
        case Underflow => Underflow
        case Got(mapped, after) => ReadEntries(t, n - 1, after, Emplace(done, key, mapped))
  }

  /** An attributed member is absent when nothing is left of the stream. */
  function ReadMembers(ms: Members, s: seq<byte>, done: seq<Value>): Parsed<seq<Value>>
    decreases ms, 0, 0
  {
    if ms.End? then Got(done, s)
    else if ms.attribute != Plain && s == [] then ReadMembers(ms.rest, s, done + [Lookup(ms.absent, done)])
    else
      match Read(ms.kind, s)
      case Underflow => Underflow
      case Got(v, rest) => ReadMembers(ms.rest, rest, done + [v])
  }

  // ---------- skipping ----------

  /** What is left after skipping `n` bytes. */
  function Drop(n: nat, s: seq<byte>): Written {
    if n <= |s| then Some(s[n..]) else None
  }

  /** What is left after skipping a value; `None` when that throws. */
  function Skip(t: Type, s: seq<byte>): Written
    decreases t, 1, 0
  {
    match t
    case Integer(w, _) => Drop(w, s)
    case Bool => Drop(1, s)
    case Bytes => (match ReadSized(0, s) case Underflow => None case Got(_, rest) => Some(rest))
    case Vector(e) => (match ReadUnsigned(4, s) case Underflow => None case Got(n, rest) => SkipAll(e, n, rest))
    case Optional(e) =>
      (match ReadUnsigned(1, s)
       case Underflow => None
       case Got(u, rest) => if u == 0 then Some(rest) else Skip(e, rest))
    case Map(_, _) => (match ReadUnsigned(4, s) case Underflow => None case Got(n, rest) => SkipEntries(t, n, rest))
    case Final(ms) => SkipMembers(ms, s)
    case Framed(ms) => (match ReadSized(4, s) case Underflow => None case Got(_, rest) => Some(rest))
  }

  function SkipAll(t: Type, n: nat, s: seq<byte>): Written
    decreases t, 2, n
  {
    if n == 0 then Some(s) else match Skip(t, s) case None => None case Some(rest) => SkipAll(t, n - 1, rest)
  }

  function SkipEntries(t: Type, n: nat, s: seq<byte>): Written
    requires t.Map?
    decreases t, 0, n
  {
    if n == 0 then Some(s)
    else
      match Skip(t.key, s)
      case None => None
      case Some(rest) => match Skip(t.mapped, rest) case None => None case Some(after) => SkipEntries(t, n - 1, after)
  }

  function SkipMembers(ms: Members, s: seq<byte>): Written
    decreases ms, 0, 0
  {
    if ms.End? then Some(s) else match Skip(ms.kind, s) case None => None case Some(rest) => SkipMembers(ms.rest, rest)
  }
}
