/** The writers that fill in sizes afterwards: a frame or a vector starts with a placeholder that is
    set once its contents have been written.  They produce what the measuring serializers produce. */
module WireFrames {
  import opened Wrappers
  import opened Integers
  import opened Fragments
  import opened Ostream
  import opened StreamScripts
  import opened WireFormat
  import opened WireTheorems

  /** `start_frame`, which writes a zero, and `start_place_holder`, which leaves the bytes as they are. */
  method StartPlaceHolder(out: BytesOstream, frame: bool) returns (ph: PlaceHolder, ghost junk: seq<byte>)
    requires out.Valid()
    modifies out.repr
    ensures out.Valid() && fresh(out.repr - old(out.repr))
    ensures Open(ph, old(out.chain), old(out.frags), out.chain, out.frags)
    ensures ph.length == |junk| == 4 && out.Contents() == old(out.Contents()) + junk
  {
    hide Flatten, Grown, BytesOstream.Valid, Distinct, Owned, Overwrite, LittleEndian;
    ph, junk := out.WritePlaceHolder(4);
    if frame {
      StaysOpenFilled(ph, LittleEndian(0, 4), old(out.chain), old(out.frags), out.chain, out.frags);
      PlaceIsOwned(ph, out.chain, out.repr);
      OverwriteJunk(old(out.Contents()), junk, [], LittleEndian(0, 4));
      assert old(out.Contents()) + junk + [] == old(out.Contents()) + junk;
      out.Fill(ph, LittleEndian(0, 4));
      junk := LittleEndian(0, 4);
      assert junk + [] == junk;
    }
  }

  lemma StaysOpenFilled(ph: PlaceHolder, v: seq<byte>, was: seq<Chunk>, wasFrags: seq<Fragment>,
                        chain: seq<Chunk>, frags: seq<Fragment>)
    requires Open(ph, was, wasFrags, chain, frags) && |v| == ph.length
    ensures var k := IndexOf(chain, ph.chunk);
            Open(ph, was, wasFrags, chain, frags[k := Overwrite(frags[k], ph.at, v)])
  {
    hide Flatten, Grown;
    GrownOverwrite(ph, v, was, wasFrags, chain, frags);
    var k := IndexOf(chain, ph.chunk);
    assert frags[k := Overwrite(frags[k], ph.at, v)][..k] == frags[..k];
  }

  /** `place_holder::set` */
  method SetPlaceHolder(out: BytesOstream, ph: PlaceHolder, n: nat,
                        ghost was: seq<Chunk>, ghost wasFrags: seq<Fragment>,
                        ghost junk: seq<byte>, ghost body: seq<byte>)
    requires out.Valid() && Open(ph, was, wasFrags, out.chain, out.frags)
    requires ph.length == |junk| == 4 && out.Contents() == Flatten(wasFrags) + junk + body
    modifies out.repr
    ensures out.Valid() && out.repr == old(out.repr) && Grown(was, wasFrags, out.chain, out.frags)
    ensures out.Contents() == Flatten(wasFrags) + (LittleEndian(n, 4) + body)
  {
    FillPlace(out, ph, LittleEndian(n, 4), was, wasFrags, junk, body);
  }

  // ---------- what they write ----------

  /** The bytes written with placeholders: a size that does not fit into 32 bits is cut off silently.
      `None` when the plain serializer of a member throws. */
  function Placed(t: Type, v: Value): Written
    requires HasType(t, v)
    decreases t, 1, 0
  {
    match t
    case Vector(e) => Join(Some(LittleEndian(|v.items|, 4)), PlacedAll(e, v.items))
    case Optional(e) => if v.inner.None? then Some([0]) else Join(Some([1]), Placed(e, v.inner.value))
    case Final(ms) => PlacedMembers(ms, v.fields)
    case Framed(ms) => PlacedFrame(PlacedMembers(ms, v.fields))
    case _ => Write(t, v)
  }

  function PlacedFrame(body: Written): Written {
    if body.None? then None else Some(LittleEndian(4 + |body.value|, 4) + body.value)
  }

  function PlacedAll(t: Type, vs: seq<Value>): Written
    requires forall x | x in vs :: HasType(t, x)
    decreases t, 2, |vs|
  {
    if vs == [] then Some([]) else Join(Placed(t, vs[0]), PlacedAll(t, vs[1..]))
  }

  function PlacedMembers(ms: Members, vs: seq<Value>): Written
    requires HaveTypes(ms, vs)
    decreases ms, 0, 0
  {
    if ms.End? then Some([]) else Join(Placed(ms.kind, vs[0]), PlacedMembers(ms.rest, vs[1..]))
  }

  /** Wherever the measuring serializer does not throw, the same bytes are written. */
  lemma {:induction false} PlacedIsWritten(t: Type, v: Value)
    requires HasType(t, v) && Write(t, v).Some?
    ensures Placed(t, v) == Write(t, v)
    decreases t, 1, 0
  {
    match t
    case Vector(e) => PlacedAllIsWritten(e, v.items);
    case Optional(e) => if v.inner.Some? { PlacedIsWritten(e, v.inner.value); }
    case Final(ms) => PlacedMembersIsWritten(ms, v.fields);
    case Framed(ms) =>
      PlacedMembersIsWritten(ms, v.fields);
      MeasureMembersIsSize(ms, v.fields);
    case _ =>
  }

  lemma {:induction false} PlacedAllIsWritten(t: Type, vs: seq<Value>)
    requires (forall x | x in vs :: HasType(t, x)) && WriteAll(t, vs).Some?
    ensures PlacedAll(t, vs) == WriteAll(t, vs)
    decreases t, 2, |vs|
  {
    hide Write, Placed, HasType;
    if vs != [] {
      PlacedIsWritten(t, vs[0]);
      PlacedAllIsWritten(t, vs[1..]);
    }
  }

  lemma {:induction false} PlacedMembersIsWritten(ms: Members, vs: seq<Value>)
    requires HaveTypes(ms, vs) && WriteMembers(ms, vs).Some?
    ensures PlacedMembers(ms, vs) == WriteMembers(ms, vs)
    decreases ms, 0, 0
  {
    hide Write, Placed, HasType;
    if ms.Member? {
      PlacedIsWritten(ms.kind, vs[0]);
      PlacedMembersIsWritten(ms.rest, vs[1..]);
    }
  }

  /** A vector or frame too large for its placeholder is written with the low 32 bits of its size,
      where the measuring serializer throws. */
  lemma OversizeIsTruncated(t: Type, v: Value)
    requires (t.Vector? || t.Framed?) && HasType(t, v) && Placed(t, v).Some?
    ensures |Placed(t, v).value| >= 4
    ensures var n := if t.Vector? then |v.items| else |Placed(t, v).value|;
            && Placed(t, v).value[..4] == LittleEndian(n % U32, 4)
            && (n >= U32 ==> Write(t, v) == None)
  {
    Pow4();
    LowBytes(if t.Vector? then |v.items| else |Placed(t, v).value|, 4);
    if t.Framed? && Write(t, v).Some? {
      PlacedIsWritten(t, v);
      MeasureIsSize(t, v);
    }
  }

  // ---------- the writers ----------

  /** Exactly these bytes went into the stream, which has only grown; or the write threw. */
  twostate predicate Appended(out: BytesOstream, new ok: bool, new b: Written)
    reads out, out.repr
  {
    && out.Valid() && |old(out.chain)| == |old(out.frags)| && (ok <==> b.Some?)
    && (ok ==> out.Contents() == old(out.Contents()) + b.value
               && Grown(old(out.chain), old(out.frags), out.chain, out.frags))
  }

  /** Writes a value with a placeholder for every frame and every vector size. */
  method WriteValue(out: BytesOstream, t: Type, v: Value) returns (ok: bool)
    requires out.Valid() && HasType(t, v)
    modifies out.repr
    ensures fresh(out.repr - old(out.repr)) && Appended(out, ok, Placed(t, v))
    decreases t, 1, 0
  {
    hide Flatten, Grown, Open;
    match t
    case Framed(_) => ok := WriteFrame(out, t, v);
    case Vector(_) => ok := WriteVector(out, t, v);
    case Final(ms) => ok := WriteMembersOf(out, ms, v.fields);
    case Optional(_) => ok := WriteOptional(out, t, v);
    case _ => ok := WritePlainly(out, t, v);
  }

  /** A value without frames or vectors goes through the plain serializer. */
  method WritePlainly(out: BytesOstream, t: Type, v: Value) returns (ok: bool)
    requires out.Valid() && HasType(t, v)
    modifies out.repr
    ensures fresh(out.repr - old(out.repr)) && Appended(out, ok, Write(t, v))
  {
    hide Flatten, Grown, Write, HasType;
    var b := Write(t, v);
    ok := b.Some?;
    if ok {
      out.Write(b.value);
    }
  }

  method WriteOptional(out: BytesOstream, t: Type, v: Value) returns (ok: bool)
    requires t.Optional? && out.Valid() && HasType(t, v)
    modifies out.repr
    ensures fresh(out.repr - old(out.repr)) && Appended(out, ok, Placed(t, v))
    decreases t, 0, 0
  {
    hide Flatten, Grown, BytesOstream.Valid, Distinct, Owned, Write;
    out.Write([if v.inner.Some? then 1 else 0]);
    ok := true;
    if v.inner.Some? {
      ghost var mid, midFrags := out.chain, out.frags;
      ok := WriteValue(out, t.inner, v.inner.value);
      if ok {
        GrownTransitive(old(out.chain), old(out.frags), mid, midFrags, out.chain, out.frags);
      }
    }
  }

  method WriteFrame(out: BytesOstream, t: Type, v: Value) returns (ok: bool)
    requires t.Framed? && out.Valid() && HasType(t, v)
    modifies out.repr
    ensures fresh(out.repr - old(out.repr)) && Appended(out, ok, Placed(t, v))
    decreases t, 0, 0
  {
    hide Flatten, Grown, Open, BytesOstream.Valid, Distinct, Owned, LittleEndian;
    var offset := out.size;
    var ph, junk := StartPlaceHolder(out, true);
    ghost var mid, midFrags := out.chain, out.frags;
    ok := WriteMembersOf(out, t.members, v.fields);
    if ok {
      StaysOpen(ph, old(out.chain), old(out.frags), mid, midFrags, out.chain, out.frags);
      ghost var body := PlacedMembers(t.members, v.fields).value;
      SetPlaceHolder(out, ph, out.size - offset, old(out.chain), old(out.frags), junk, body);
    }
  }

  lemma JoinNext(a: seq<byte>, b: seq<byte>, c: Written)
    ensures Join(Some(a), Join(Some(b), c)) == Join(Some(a + b), c)
    ensures Join(Some(a), Some([])) == Some(a) && Join(Some([]), c) == c
  {
    if c.Some? {
      assert a + (b + c.value) == a + b + c.value;
      assert [] + c.value == c.value;
    }
    assert a + [] == a;
  }

  method WriteMembersOf(out: BytesOstream, members: Members, fields: seq<Value>) returns (ok: bool)
    requires out.Valid() && HaveTypes(members, fields)
    modifies out.repr
    ensures fresh(out.repr - old(out.repr)) && Appended(out, ok, PlacedMembers(members, fields))
    decreases members, 0, 0
  {
    hide Flatten, Grown, BytesOstream.Valid, Distinct, Owned, Placed, HasType, Join;
    GrownSelf(out.chain, out.frags);
    var ms, vs := members, fields;
    ghost var done: seq<byte> := [];
    JoinNext([], [], PlacedMembers(members, fields));
    while ms.Member?
      invariant out.Valid() && fresh(out.repr - old(out.repr)) && HaveTypes(ms, vs)
      invariant Grown(old(out.chain), old(out.frags), out.chain, out.frags)
      invariant out.Contents() == old(out.Contents()) + done
      invariant PlacedMembers(members, fields) == Join(Some(done), PlacedMembers(ms, vs))
      invariant ms == members || ms < members
      decreases ms
    {
      ghost var mid, midFrags := out.chain, out.frags;
      ok := WriteValue(out, ms.kind, vs[0]);
      if !ok {
        JoinNone(done, PlacedMembers(ms.rest, vs[1..]));
        return;
      }
      GrownTransitive(old(out.chain), old(out.frags), mid, midFrags, out.chain, out.frags);
      JoinNext(done, Placed(ms.kind, vs[0]).value, PlacedMembers(ms.rest, vs[1..]));
      done := done + Placed(ms.kind, vs[0]).value;
      ms, vs := ms.rest, vs[1..];
    }
    JoinNext(done, [], None);
    ok := true;
  }

  lemma JoinNone(a: seq<byte>, c: Written)
    ensures Join(Some(a), Join(None, c)) == None
  {}

  method WriteVector(out: BytesOstream, t: Type, v: Value) returns (ok: bool)
    requires t.Vector? && out.Valid() && HasType(t, v)
    modifies out.repr
    ensures fresh(out.repr - old(out.repr)) && Appended(out, ok, Placed(t, v))
    decreases t, 0, 1
  {
    hide Flatten, Grown, Open, BytesOstream.Valid, Distinct, Owned;
    var ph, junk := StartPlaceHolder(out, false);
    ghost var mid, midFrags := out.chain, out.frags;
    ok := WriteItems(out, t, v);
    if ok {
      StaysOpen(ph, old(out.chain), old(out.frags), mid, midFrags, out.chain, out.frags);
      SetPlaceHolder(out, ph, |v.items|, old(out.chain), old(out.frags), junk, PlacedAll(t.element, v.items).value);
    }
  }

  method WriteItems(out: BytesOstream, t: Type, v: Value) returns (ok: bool)
    requires t.Vector? && out.Valid() && HasType(t, v)
    modifies out.repr
    ensures fresh(out.repr - old(out.repr)) && Appended(out, ok, PlacedAll(t.element, v.items))
    decreases t, 0, 0
  {
    hide Flatten, Grown, BytesOstream.Valid, Distinct, Owned, Placed, Join;
    GrownSelf(out.chain, out.frags);
    ghost var done: seq<byte> := [];
    JoinNext([], [], PlacedAll(t.element, v.items));
    assert v.items[0..] == v.items;
    for k := 0 to |v.items|
      invariant out.Valid() && fresh(out.repr - old(out.repr))
      invariant Grown(old(out.chain), old(out.frags), out.chain, out.frags)
      invariant out.Contents() == old(out.Contents()) + done
      invariant PlacedAll(t.element, v.items) == Join(Some(done), PlacedAll(t.element, v.items[k..]))
    {
      assert v.items[k..][0] == v.items[k] && v.items[k..][1..] == v.items[k + 1..];
      ghost var mid, midFrags := out.chain, out.frags;
      ok := WriteValue(out, t.element, v.items[k]);
      if !ok {
        JoinNone(done, PlacedAll(t.element, v.items[k + 1..]));
        return;
      }
      GrownTransitive(old(out.chain), old(out.frags), mid, midFrags, out.chain, out.frags);
      JoinNext(done, Placed(t.element, v.items[k]).value, PlacedAll(t.element, v.items[k + 1..]));
      done := done + Placed(t.element, v.items[k]).value;
    }
    JoinNext(done, [], None);
    ok := true;
  }
}
