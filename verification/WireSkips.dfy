/** Exactly when the emitted skip ends where the emitted reader ends, on any bytes at all. */
module WireSkips {
  import opened Wrappers
  import opened Integers
  import opened WireFormat
  import opened WireTheorems

  /** On every input that can be read, skipping ends where reading ends. */
  ghost predicate SkipsAsRead(t: Type) {
    forall s | Read(t, s).Got? :: Skip(t, s) == Some(Read(t, s).rest)
  }

  // ---------- at the end of the input ----------

  /** The type can be read from an empty stream: an unframed class whose members are attributed or
      can themselves be read from an empty stream. */
  predicate ReadsNothing(t: Type) {
    t.Final? && AllReadNothing(t.members)
  }

  predicate AllReadNothing(ms: Members) {
    ms.Member? ==> (ms.attribute != Plain || ReadsNothing(ms.kind)) && AllReadNothing(ms.rest)
  }

  lemma {:induction false} EmptyRead(t: Type)
    ensures Read(t, []).Got? <==> ReadsNothing(t)
    ensures Read(t, []).Got? ==> Read(t, []).rest == []
    decreases t, 1
  {
    if t.Final? {
      EmptyReadMembers(t.members, []);
    }
  }

  lemma {:induction false} EmptyReadMembers(ms: Members, done: seq<Value>)
    ensures ReadMembers(ms, [], done).Got? <==> AllReadNothing(ms)
    ensures ReadMembers(ms, [], done).Got? ==> ReadMembers(ms, [], done).rest == []
    decreases ms, 0
  {
    if ms.Member? {
      EmptyRead(ms.kind);
      if ms.attribute != Plain {
        EmptyReadMembers(ms.rest, done + [Lookup(ms.absent, done)]);
      } else if Read(ms.kind, []).Got? {
        EmptyReadMembers(ms.rest, done + [Read(ms.kind, []).value]);
      }
    }
  }

  /** A type without bytes is read and skipped in place; any other cannot be skipped at the end. */
  lemma {:induction false} HollowInPlace(t: Type, s: seq<byte>)
    ensures !Solid(t) ==> Skip(t, s) == Some(s) && Read(t, s).Got? && Read(t, s).rest == s
    ensures Solid(t) ==> Skip(t, []) == None
    decreases t, 1
  {
    if t.Final? {
      HollowMembersInPlace(t.members, s, []);
    }
  }

  lemma {:induction false} HollowMembersInPlace(ms: Members, s: seq<byte>, done: seq<Value>)
    ensures !SomeSolid(ms) ==>
              && SkipMembers(ms, s) == Some(s)
              && ReadMembers(ms, s, done).Got? && ReadMembers(ms, s, done).rest == s
    ensures SomeSolid(ms) ==> SkipMembers(ms, []) == None
    decreases ms, 0
  {
    if ms.Member? {
      HollowInPlace(ms.kind, s);
      HollowInPlace(ms.kind, []);
      if ms.attribute != Plain && s == [] {
        HollowMembersInPlace(ms.rest, s, done + [Lookup(ms.absent, done)]);
      } else if Read(ms.kind, s).Got? {
        HollowMembersInPlace(ms.rest, s, done + [Read(ms.kind, s).value]);
      } else {
        HollowMembersInPlace(ms.rest, s, done);
      }
    }
  }

  // ---------- the shortest inputs ----------

  function InFrame(b: Written): Written {
    if b.Some? && |b.value| + 4 < U32 then Some(LittleEndian(|b.value| + 4, 4) + b.value) else None
  }

  /** The shortest bytes that can be read as a value whatever follows them. */
  function Sample(t: Type): Written
    decreases t, 1
  {
    match t
    case Integer(w, _) => Some(LittleEndian(0, w))
    case Bool => Some([0])
    case Optional(_) => Some([0])
    case Final(ms) => Samples(ms)
    case Framed(ms) => InFrame(Content(ms))
    case _ => Some(LittleEndian(0, 4))
  }

  function Samples(ms: Members): Written
    decreases ms, 0
  {
    if ms.End? then Some([]) else Join(Sample(ms.kind), Samples(ms.rest))
  }

  /** The shortest input that can be read as a value with nothing after it. */
  function Least(t: Type): Written
    decreases t, 2
  {
    if t.Final? then Content(t.members) else Sample(t)
  }

  /** The shortest input that the members can be read from with nothing after it. */
  function Content(ms: Members): Written
    decreases ms, 0
  {
    if AllReadNothing(ms) then Some([])
    else if AllReadNothing(ms.rest) then Least(ms.kind)
    else Join(Sample(ms.kind), Content(ms.rest))
  }

  lemma ReadNoCount(s: seq<byte>)
    ensures ReadUnsigned(4, LittleEndian(0, 4) + s) == Got(0, s)
    ensures ReadSized(0, LittleEndian(0, 4) + s) == Got([], s)
  {
    Pow4();
    ReadUnsignedWritten(0, 4, s);
  }

  /** What `Sample` gives is read and skipped to its end, whatever follows. */
  lemma {:induction false} SampleReads(t: Type, s: seq<byte>)
    requires Sample(t).Some?
    ensures var b := Sample(t).value + s;
            Read(t, b).Got? && Read(t, b).rest == s && Skip(t, b) == Some(s)
    decreases t, 1
  {
    match t
    case Final(ms) => SamplesRead(ms, s, []);
    case Framed(ms) =>
      var c := Content(ms).value;
      ContentReads(ms, []);
      ReadSizedWritten(4, c, s);
    case _ => PlainSampleReads(t, s);
  }

  lemma PlainSampleReads(t: Type, s: seq<byte>)
    requires !t.Final? && !t.Framed?
    ensures Sample(t).Some?
    ensures var b := Sample(t).value + s;
            Read(t, b).Got? && Read(t, b).rest == s && Skip(t, b) == Some(s)
  {
    var b := Sample(t).value + s;
    if t.Integer? {
      assert b[t.width..] == s;
    } else if t.Bool? || t.Optional? {
      assert b[1..] == s && b[..1] == [0] && FromLittleEndian([0]) == 0;
    } else {
      ReadNoCount(s);
    }
  }

  lemma {:induction false} SamplesRead(ms: Members, s: seq<byte>, done: seq<Value>)
    requires Samples(ms).Some?
    ensures var b := Samples(ms).value + s;
            ReadMembers(ms, b, done).Got? && ReadMembers(ms, b, done).rest == s && SkipMembers(ms, b) == Some(s)
    decreases ms, 0
  {
    hide Read, Skip, Sample;
    if ms.Member? {
      var b, next := Samples(ms).value + s, Samples(ms.rest).value + s;
      assert b == Sample(ms.kind).value + next;
      SampleReads(ms.kind, next);
      if ms.attribute != Plain && b == [] {
        assert next == [];
        SamplesRead(ms.rest, s, done + [Lookup(ms.absent, done)]);
      } else {
        SamplesRead(ms.rest, s, done + [Read(ms.kind, b).value]);
      }
    } else {
      assert [] + s == s;
    }
  }

  lemma {:induction false} LeastReads(t: Type)
    requires Least(t).Some?
    ensures Read(t, Least(t).value).Got? && Read(t, Least(t).value).rest == []
    decreases t, 2
  {
    if t.Final? {
      ContentReads(t.members, []);
    } else {
      SampleReads(t, []);
      assert Sample(t).value + [] == Sample(t).value;
    }
  }

  lemma {:induction false} ContentReads(ms: Members, done: seq<Value>)
    requires Content(ms).Some?
    ensures var b := Content(ms).value; ReadMembers(ms, b, done).Got? && ReadMembers(ms, b, done).rest == []
    decreases ms, 0
  {
    hide Read, Sample, Least;
    EmptyReadMembers(ms, done);
    if !AllReadNothing(ms) {
      var b := Content(ms).value;
      if AllReadNothing(ms.rest) {
        LeastReads(ms.kind);
        EmptyReadMembers(ms.rest, done + [Read(ms.kind, b).value]);
      } else {
        SampleReads(ms.kind, Content(ms.rest).value);
        if ms.attribute != Plain && b == [] {
          assert Content(ms.rest).value == [];
          ContentReads(ms.rest, done + [Lookup(ms.absent, done)]);
        } else {
          ContentReads(ms.rest, done + [Read(ms.kind, b).value]);
        }
      }
    }
  }

  lemma {:induction false} ReadShrinks(t: Type, s: seq<byte>)
    requires Read(t, s).Got?
    ensures |Read(t, s).rest| <= |s|
    decreases t, 1, 0
  {
    match t
    case Vector(e) =>
      var n := ReadUnsigned(4, s);
      AllShrink(e, n.value, n.rest);
    case Optional(e) =>
      var u := ReadUnsigned(1, s);
      if u.value != 0 { ReadShrinks(e, u.rest); }
    case Map(_, _) =>
      var n := ReadUnsigned(4, s);
      EntriesShrink(t, n.value, n.rest, []);
    case Final(ms) => MembersShrink(ms, s, []);
    case _ =>
  }

  lemma {:induction false} AllShrink(t: Type, n: nat, s: seq<byte>)
    requires ReadAll(t, n, s).Got?
    ensures |ReadAll(t, n, s).rest| <= |s|
    decreases t, 2, n
  {
    if n > 0 {
      ReadShrinks(t, s);
      AllShrink(t, n - 1, Read(t, s).rest);
    }
  }

  lemma {:induction false} EntriesShrink(t: Type, n: nat, s: seq<byte>, done: seq<(Value, Value)>)
    requires t.Map? && ReadEntries(t, n, s, done).Got?
    ensures |ReadEntries(t, n, s, done).rest| <= |s|
    decreases t, 0, n
  {
    hide Read, Emplace;
    if n > 0 {
      ReadShrinks(t.key, s);
      var key := Read(t.key, s);
      ReadShrinks(t.mapped, key.rest);
      var mapped := Read(t.mapped, key.rest);
      EntriesShrink(t, n - 1, mapped.rest, Emplace(done, key.value, mapped.value));
    }
  }

  lemma {:induction false} MembersShrink(ms: Members, s: seq<byte>, done: seq<Value>)
    requires ReadMembers(ms, s, done).Got?
    ensures |ReadMembers(ms, s, done).rest| <= |s|
    decreases ms, 0, 0
  {
    hide Read;
    if ms.Member? {
      if ms.attribute != Plain && s == [] {
        MembersShrink(ms.rest, s, done + [Lookup(ms.absent, done)]);
      } else {
        ReadShrinks(ms.kind, s);
        MembersShrink(ms.rest, Read(ms.kind, s).rest, done + [Read(ms.kind, s).value]);
      }
    }
  }

  /** Anything but an unframed class takes as many bytes wherever it is read. */
  lemma {:induction false} WholeIsShortest(t: Type, s: seq<byte>)
    requires !t.Final? && Read(t, s).Got?
    ensures Sample(t).Some? && |Sample(t).value| + |Read(t, s).rest| <= |s|
    decreases t, 1
  {
    match t
    case Vector(e) =>
      var n := ReadUnsigned(4, s);
      AllShrink(e, n.value, n.rest);
    case Optional(e) =>
      var u := ReadUnsigned(1, s);
      if u.value != 0 { ReadShrinks(e, u.rest); }
    case Map(_, _) =>
      var n := ReadUnsigned(4, s);
      EntriesShrink(t, n.value, n.rest, []);
    case Framed(ms) =>
      Pow4();
      FromLittleEndianRoundTrip(s[..4]);
      ContentIsShortest(ms, ReadSized(4, s).value, []);
    case _ =>
  }

  /** Nothing shorter can be read with something left over. */
  lemma {:induction false} SampleIsShortest(t: Type, s: seq<byte>)
    requires Read(t, s).Got? && Read(t, s).rest != []
    ensures Sample(t).Some? && |Sample(t).value| + |Read(t, s).rest| <= |s|
    decreases t, 2
  {
    if t.Final? {
      SamplesAreShortest(t.members, s, []);
    } else {
      WholeIsShortest(t, s);
    }
  }

  lemma {:induction false} SamplesAreShortest(ms: Members, s: seq<byte>, done: seq<Value>)
    requires ReadMembers(ms, s, done).Got? && ReadMembers(ms, s, done).rest != []
    ensures Samples(ms).Some? && |Samples(ms).value| + |ReadMembers(ms, s, done).rest| <= |s|
    decreases ms, 0
  {
    hide Read, Sample;
    if ms.Member? {
      if s == [] {
        EmptyReadMembers(ms, done);
      }
      var v := Read(ms.kind, s);
      if v.rest == [] {
        EmptyReadMembers(ms.rest, done + [v.value]);
      }
      SampleIsShortest(ms.kind, s);
      SamplesAreShortest(ms.rest, v.rest, done + [v.value]);
    }
  }

  /** Nothing shorter can be read at all. */
  lemma {:induction false} LeastIsShortest(t: Type, s: seq<byte>)
    requires Read(t, s).Got?
    ensures Least(t).Some? && |Least(t).value| <= |s|
    decreases t, 2
  {
    if t.Final? {
      ContentIsShortest(t.members, s, []);
    } else {
      WholeIsShortest(t, s);
    }
  }

  lemma {:induction false} ContentIsShortest(ms: Members, s: seq<byte>, done: seq<Value>)
    requires ReadMembers(ms, s, done).Got?
    ensures Content(ms).Some? && |Content(ms).value| <= |s|
    decreases ms, 0
  {
    hide Read, Sample, Least;
    if !AllReadNothing(ms) {
      EmptyReadMembers(ms, done);
      var v := Read(ms.kind, s);
      if AllReadNothing(ms.rest) {
        LeastIsShortest(ms.kind, s);
      } else {
        EmptyReadMembers(ms.rest, done + [v.value]);
        SampleIsShortest(ms.kind, s);
        ContentIsShortest(ms.rest, v.rest, done + [v.value]);
      }
    }
  }

  // ---------- where reading and skipping part ----------

  /** Reading and skipping can only part at the end of the input. */
  lemma {:induction false} PartAtTheEnd(t: Type, s: seq<byte>)
    requires Read(t, s).Got? && Read(t, s).rest != []
    ensures Skip(t, s) == Some(Read(t, s).rest)
    decreases t, 1, 0
  {
    match t
    case Vector(e) =>
      var n := ReadUnsigned(4, s);
      AllPartAtTheEnd(e, n.value, n.rest);
    case Optional(e) =>
      var u := ReadUnsigned(1, s);
      if u.value != 0 { PartAtTheEnd(e, u.rest); }
    case Map(_, _) =>
      var n := ReadUnsigned(4, s);
      EntriesPartAtTheEnd(t, n.value, n.rest, []);
    case Final(ms) => MembersPartAtTheEnd(ms, s, []);
    case _ =>
  }

  lemma {:induction false} AllPartAtTheEnd(t: Type, n: nat, s: seq<byte>)
    requires ReadAll(t, n, s).Got? && ReadAll(t, n, s).rest != []
    ensures SkipAll(t, n, s) == Some(ReadAll(t, n, s).rest)
    decreases t, 2, n
  {
    if n > 0 {
      AllShrink(t, n - 1, Read(t, s).rest);
      PartAtTheEnd(t, s);
      AllPartAtTheEnd(t, n - 1, Read(t, s).rest);
    }
  }

  lemma {:induction false} EntriesPartAtTheEnd(t: Type, n: nat, s: seq<byte>, done: seq<(Value, Value)>)
    requires t.Map? && ReadEntries(t, n, s, done).Got? && ReadEntries(t, n, s, done).rest != []
    ensures SkipEntries(t, n, s) == Some(ReadEntries(t, n, s, done).rest)
    decreases t, 0, n
  {
    hide Read, Skip, Emplace;
    if n > 0 {
      var key := Read(t.key, s);
      var mapped := Read(t.mapped, key.rest);
      var next := Emplace(done, key.value, mapped.value);
      EntriesShrink(t, n - 1, mapped.rest, next);
      ReadShrinks(t.mapped, key.rest);
      PartAtTheEnd(t.key, s);
      PartAtTheEnd(t.mapped, key.rest);
      EntriesPartAtTheEnd(t, n - 1, mapped.rest, next);
    }
  }

  lemma {:induction false} MembersPartAtTheEnd(ms: Members, s: seq<byte>, done: seq<Value>)
    requires ReadMembers(ms, s, done).Got? && ReadMembers(ms, s, done).rest != []
    ensures SkipMembers(ms, s) == Some(ReadMembers(ms, s, done).rest)
    decreases ms, 0, 0
  {
    hide Read, Skip;
    if ms.Member? {
      MembersShrink(ms, s, done);
      var v := Read(ms.kind, s);
      MembersShrink(ms.rest, v.rest, done + [v.value]);
      PartAtTheEnd(ms.kind, s);
      MembersPartAtTheEnd(ms.rest, v.rest, done + [v.value]);
    }
  }

  /** No attributed member that takes bytes is followed, in a class without a frame, only by members
      that can be read from an empty stream.  What cannot be reached does not matter: a member
      after one that can never be read, and a member whose own end is not the end of the input. */
  predicate SkipExact(t: Type) {
    match t
    case Vector(e) => SkipExact(e)
    case Optional(e) => SkipExact(e)
    case Map(k, e) => (ReadsNothing(e) ==> SkipExact(k)) && (Sample(k).Some? ==> SkipExact(e))
    case Final(ms) => MembersSkipExact(ms)
    case _ => true
  }

  predicate MembersSkipExact(ms: Members) {
    ms.Member? ==>
      && (AllReadNothing(ms.rest) ==> if ms.attribute != Plain then !Solid(ms.kind) else SkipExact(ms.kind))
      && (Sample(ms.kind).Some? ==> MembersSkipExact(ms.rest))
  }

  lemma {:induction false} HollowSample(t: Type)
    requires !Solid(t)
    ensures Sample(t) == Some([])
    decreases t, 1
  {
    if t.Final? {
      HollowSamples(t.members);
    }
  }

  lemma {:induction false} HollowSamples(ms: Members)
    requires !SomeSolid(ms)
    ensures Samples(ms) == Some([])
    decreases ms, 0
  {
    if ms.Member? {
      HollowSample(ms.kind);
      HollowSamples(ms.rest);
      var none: seq<byte> := [];
      assert none + none == none;
    }
  }

  /** What can be read at all can be read in front of anything, unless a member goes missing. */
  lemma {:induction false} ExactHasSample(t: Type, s: seq<byte>)
    requires SkipExact(t) && Read(t, s).Got?
    ensures Sample(t).Some?
    decreases t, 1
  {
    if t.Final? {
      ExactHaveSamples(t.members, s, []);
    } else {
      WholeIsShortest(t, s);
    }
  }

  lemma {:induction false} ExactHaveSamples(ms: Members, s: seq<byte>, done: seq<Value>)
    requires MembersSkipExact(ms) && ReadMembers(ms, s, done).Got?
    ensures Samples(ms).Some?
    decreases ms, 0
  {
    hide Read, Sample, SkipExact, Solid;
    if ms.Member? {
      MemberHasSample(ms, s, done);
      if ms.attribute != Plain && s == [] {
        ExactHaveSamples(ms.rest, s, done + [Lookup(ms.absent, done)]);
      } else {
        ExactHaveSamples(ms.rest, Read(ms.kind, s).rest, done + [Read(ms.kind, s).value]);
      }
    }
  }

  lemma {:induction false} MemberHasSample(ms: Members, s: seq<byte>, done: seq<Value>)
    requires ms.Member? && MembersSkipExact(ms) && ReadMembers(ms, s, done).Got?
    ensures Sample(ms.kind).Some?
    decreases ms.kind, 2
  {
    hide Read, Sample, SkipExact, Solid;
    if ms.attribute != Plain && s == [] {
      EmptyReadMembers(ms.rest, done + [Lookup(ms.absent, done)]);
      HollowSample(ms.kind);
    } else {
      var v := Read(ms.kind, s);
      if v.rest != [] {
        SampleIsShortest(ms.kind, s);
      } else {
        EmptyReadMembers(ms.rest, done + [v.value]);
        if ms.attribute != Plain {
          HollowSample(ms.kind);
        } else {
          ExactHasSample(ms.kind, s);
        }
      }
    }
  }

  /** Under this condition skipping ends where reading ends. */
  lemma {:induction false} SkipFollowsRead(t: Type, s: seq<byte>)
    requires SkipExact(t) && Read(t, s).Got?
    ensures Skip(t, s) == Some(Read(t, s).rest)
    decreases t, 1, 0
  {
    match t
    case Vector(e) =>
      var n := ReadUnsigned(4, s);
      SkipAllFollowsRead(e, n.value, n.rest);
    case Optional(e) =>
      var u := ReadUnsigned(1, s);
      if u.value != 0 { SkipFollowsRead(e, u.rest); }
    case Map(_, _) =>
      var n := ReadUnsigned(4, s);
      SkipEntriesFollowsRead(t, n.value, n.rest, []);
    case Final(ms) => SkipMembersFollowsRead(ms, s, []);
    case _ =>
  }

  lemma {:induction false} SkipAllFollowsRead(t: Type, n: nat, s: seq<byte>)
    requires SkipExact(t) && ReadAll(t, n, s).Got?
    ensures SkipAll(t, n, s) == Some(ReadAll(t, n, s).rest)
    decreases t, 2, n
  {
    if n > 0 {
      SkipFollowsRead(t, s);
      SkipAllFollowsRead(t, n - 1, Read(t, s).rest);
    }
  }

  lemma {:induction false} SkipEntriesFollowsRead(t: Type, n: nat, s: seq<byte>, done: seq<(Value, Value)>)
    requires t.Map? && SkipExact(t) && ReadEntries(t, n, s, done).Got?
    ensures SkipEntries(t, n, s) == Some(ReadEntries(t, n, s, done).rest)
    decreases t, 0, n
  {
    hide Read, Skip, Emplace, Sample, ReadsNothing;
    if n > 0 {
      var key := Read(t.key, s);
      EmptyRead(t.mapped);
      if key.rest != [] {
        PartAtTheEnd(t.key, s);
        SampleIsShortest(t.key, s);
      } else {
        SkipFollowsRead(t.key, s);
        ExactHasSample(t.key, s);
      }
      SkipFollowsRead(t.mapped, key.rest);
      var mapped := Read(t.mapped, key.rest);
      SkipEntriesFollowsRead(t, n - 1, mapped.rest, Emplace(done, key.value, mapped.value));
    }
  }

  lemma {:induction false} SkipMembersFollowsRead(ms: Members, s: seq<byte>, done: seq<Value>)
    requires MembersSkipExact(ms) && ReadMembers(ms, s, done).Got?
    ensures SkipMembers(ms, s) == Some(ReadMembers(ms, s, done).rest)
    decreases ms, 0, 0
  {
    hide Read, Skip, Sample, SkipExact, Solid;
    if ms.Member? {
      MemberHasSample(ms, s, done);
      HollowInPlace(ms.kind, s);
      if ms.attribute != Plain && s == [] {
        EmptyReadMembers(ms.rest, done + [Lookup(ms.absent, done)]);
        SkipMembersFollowsRead(ms.rest, s, done + [Lookup(ms.absent, done)]);
      } else {
        var v := Read(ms.kind, s);
        if v.rest != [] {
          PartAtTheEnd(ms.kind, s);
        } else {
          EmptyReadMembers(ms.rest, done + [v.value]);
          if ms.attribute == Plain { SkipFollowsRead(ms.kind, s); }
        }
        SkipMembersFollowsRead(ms.rest, v.rest, done + [v.value]);
      }
    }
  }

  // ---------- the condition is necessary ----------

  /** Otherwise there is an input that can be read to its end and cannot be skipped. */
  lemma {:induction false} UnskippableInput(t: Type) returns (s: seq<byte>)
    requires !SkipExact(t)
    ensures Read(t, s).Got? && Read(t, s).rest == [] && Skip(t, s) == None
    decreases t, 1
  {
    match t
    case Vector(e) =>
      var b := UnskippableInput(e);
      s := LittleEndian(1, 4) + b;
      Pow4();
      ReadUnsignedWritten(1, 4, b);
      OneElement(e, b);
    case Optional(e) =>
      var b := UnskippableInput(e);
      s := [1] + b;
      assert s[..1] == [1] && s[1..] == b && FromLittleEndian([1]) == 1;
    case Map(k, e) => s := UnskippableEntry(k, e);
    case Final(ms) => s := UnskippableMembers(ms, []);
  }

  lemma OneElement(t: Type, s: seq<byte>)
    requires Read(t, s).Got? && Skip(t, s) == None
    ensures ReadAll(t, 1, s).Got? && ReadAll(t, 1, s).rest == Read(t, s).rest && SkipAll(t, 1, s) == None
  {
    assert ReadAll(t, 0, Read(t, s).rest).Got?;
  }

  lemma {:induction false} UnskippableEntry(k: Type, e: Type) returns (s: seq<byte>)
    requires !SkipExact(Map(k, e))
    ensures Read(Map(k, e), s).Got? && Read(Map(k, e), s).rest == [] && Skip(Map(k, e), s) == None
    decreases Map(k, e), 0
  {
    hide Read, Skip;
    var b: seq<byte>;
    if ReadsNothing(e) && !SkipExact(k) {
      b := UnskippableInput(k);
      EmptyRead(e);
    } else {
      var c := UnskippableInput(e);
      SampleReads(k, c);
      b := Sample(k).value + c;
    }
    s := LittleEndian(1, 4) + b;
    OneEntry(k, e, b);
  }

  lemma OneEntry(k: Type, e: Type, b: seq<byte>)
    requires Read(k, b).Got? && Read(e, Read(k, b).rest).Got? && Read(e, Read(k, b).rest).rest == []
    requires Skip(k, b) == None || Skip(e, Skip(k, b).value) == None
    ensures var s := LittleEndian(1, 4) + b;
            Read(Map(k, e), s).Got? && Read(Map(k, e), s).rest == [] && Skip(Map(k, e), s) == None
  {
    Pow4();
    ReadUnsignedWritten(1, 4, b);
    var t := Map(k, e);
    var key := Read(k, b);
    var mapped := Read(e, key.rest);
    assert ReadEntries(t, 1, b, []) == ReadEntries(t, 0, mapped.rest, Emplace([], key.value, mapped.value));
    assert SkipEntries(t, 1, b) == None;
  }

  lemma {:induction false} UnskippableMembers(ms: Members, done: seq<Value>) returns (s: seq<byte>)
    requires !MembersSkipExact(ms)
    ensures ReadMembers(ms, s, done).Got? && ReadMembers(ms, s, done).rest == [] && SkipMembers(ms, s) == None
    decreases ms, 0
  {
    hide Read, Skip, Sample, SkipExact, Solid;
    if AllReadNothing(ms.rest) && ms.attribute != Plain && Solid(ms.kind) {
      s := [];
      HollowInPlace(ms.kind, []);
      EmptyReadMembers(ms.rest, done + [Lookup(ms.absent, done)]);
    } else if AllReadNothing(ms.rest) && ms.attribute == Plain && !SkipExact(ms.kind) {
      s := UnskippableInput(ms.kind);
      EmptyReadMembers(ms.rest, done + [Read(ms.kind, s).value]);
    } else {
      s := UnskippableLater(ms, done);
    }
  }

  lemma {:induction false} UnskippableLater(ms: Members, done: seq<Value>) returns (s: seq<byte>)
    requires ms.Member? && Sample(ms.kind).Some? && !MembersSkipExact(ms.rest)
    ensures ReadMembers(ms, s, done).Got? && ReadMembers(ms, s, done).rest == [] && SkipMembers(ms, s) == None
    decreases ms.rest, 1
  {
    hide Read, Skip, Sample;
    var b := UnskippableMembers(ms.rest, done);
    s := Sample(ms.kind).value + b;
    SampleReads(ms.kind, b);
    var d := done + [if ms.attribute != Plain && s == [] then Lookup(ms.absent, done) else Read(ms.kind, s).value];
    EarlierIrrelevant(ms.rest, b, done, d);
  }

  /** Whether the members can be read does not depend on what was read before. */
  lemma {:induction false} EarlierIrrelevant(ms: Members, s: seq<byte>, done: seq<Value>, other: seq<Value>)
    ensures ReadMembers(ms, s, done).Got? <==> ReadMembers(ms, s, other).Got?
    ensures ReadMembers(ms, s, done).Got? ==> ReadMembers(ms, s, done).rest == ReadMembers(ms, s, other).rest
  {
    hide Read;
    if ms.Member? {
      if ms.attribute != Plain && s == [] {
        EarlierIrrelevant(ms.rest, s, done + [Lookup(ms.absent, done)], other + [Lookup(ms.absent, other)]);
      } else if Read(ms.kind, s).Got? {
        var v := Read(ms.kind, s);
        EarlierIrrelevant(ms.rest, v.rest, done + [v.value], other + [v.value]);
      }
    }
  }

  /** The emitted reader treats any attribute as "may be absent", the emitted skip none: the two
      agree on all inputs exactly under the condition above. */
  lemma SkipAgreesExactly(t: Type)
    ensures SkipsAsRead(t) <==> SkipExact(t)
  {
    if SkipExact(t) {
      forall s | Read(t, s).Got? ensures Skip(t, s) == Some(Read(t, s).rest) {
        SkipFollowsRead(t, s);
      }
    } else {
      var s := UnskippableInput(t);
      assert Read(t, s).Got? && Skip(t, s) == None;
    }
  }

  /** An attributed member at the end of a class without a frame breaks skipping as soon as it takes
      bytes: the class can be read from an empty stream and cannot be skipped there. */
  lemma AttributeInFinalClassBreaksSkip(kind: Type, attribute: Attribute, absent: Default)
    requires attribute != Plain
    ensures var t := Final(Member(kind, attribute, absent, End));
            && (SkipsAsRead(t) <==> !Solid(kind))
            && Read(t, []).Got?
            && (Skip(t, []) == None <==> Solid(kind))
  {
    var t := Final(Member(kind, attribute, absent, End));
    SkipAgreesExactly(t);
    EmptyRead(t);
    HollowInPlace(t, []);
    HollowInPlace(kind, []);
    assert SomeSolid(t.members) <==> Solid(kind);
    assert MembersSkipExact(t.members) <==> !Solid(kind) by {
      assert t.members.rest == End && AllReadNothing(End) && MembersSkipExact(End);
    }
  }

  // ---------- classes the compiler accepts ----------

  /** No attributed member in a class without a frame. */
  predicate Skippable(t: Type) {
    match t
    case Vector(e) => Skippable(e)
    case Optional(e) => Skippable(e)
    case Map(k, e) => Skippable(k) && Skippable(e)
    case Final(ms) => SkippableMembers(ms)
    case _ => true
  }

  predicate SkippableMembers(ms: Members) {
    ms.Member? ==> ms.attribute == Plain && Skippable(ms.kind) && SkippableMembers(ms.rest)
  }

  lemma {:induction false} SkippableIsExact(t: Type)
    requires Skippable(t)
    ensures SkipExact(t)
  {
    match t
    case Vector(e) => SkippableIsExact(e);
    case Optional(e) => SkippableIsExact(e);
    case Map(k, e) => SkippableIsExact(k); SkippableIsExact(e);
    case Final(ms) => SkippableMembersAreExact(ms);
    case _ =>
  }

  lemma {:induction false} SkippableMembersAreExact(ms: Members)
    requires SkippableMembers(ms)
    ensures MembersSkipExact(ms)
  {
    hide Sample, Solid, AllReadNothing;
    if ms.Member? {
      SkippableIsExact(ms.kind);
      SkippableMembersAreExact(ms.rest);
    }
  }
}
