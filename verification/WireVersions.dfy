/** Versions of a class: the compiler's check of version attributes and what it buys. */
module WireVersions {
  import opened Wrappers
  import opened Integers
  import opened WireFormat
  import opened WireTheorems
  import opened WireSkips

  // ---------- version numbers ----------

  /** A version padded to three components. */
  datatype Release = Release(major: int, minor: int, patch: int) {
    predicate Before(r: Release) {
      || major < r.major
      || (major == r.major && (minor < r.minor || (minor == r.minor && patch < r.patch)))
    }
  }

  predicate Parses(numbers: seq<int>) {
    2 <= |numbers| <= 3
  }

  function ReleaseOf(numbers: seq<int>): Release
    requires Parses(numbers)
  {
    Release(numbers[0], numbers[1], if |numbers| == 3 then numbers[2] else 0)
  }

  function Pad(numbers: seq<int>, n: nat): (r: seq<int>)
    requires |numbers| <= n
    ensures |r| == n && forall k | 0 <= k < n :: r[k] == if k < |numbers| then numbers[k] else 0
  {
    numbers + seq(n - |numbers|, _ => 0)
  }

  /** The order of tuples of one length. */
  predicate TupleLess(a: seq<int>, b: seq<int>)
    requires |a| == |b|
  {
    a != [] && (a[0] < b[0] || (a[0] == b[0] && TupleLess(a[1..], b[1..])))
  }

  /** Padding both to the longer of the two orders them as releases. */
  lemma PaddedOrder(a: seq<int>, b: seq<int>)
    requires Parses(a) && Parses(b)
    ensures var n := if |a| < |b| then |b| else |a|;
            TupleLess(Pad(a, n), Pad(b, n)) <==> ReleaseOf(a).Before(ReleaseOf(b))
  {
    var n := if |a| < |b| then |b| else |a|;
    var p, q := Pad(a, n), Pad(b, n);
    TupleOrder(p, q);
  }

  lemma TupleOrder(p: seq<int>, q: seq<int>)
    requires |p| == |q| && Parses(p)
    ensures TupleLess(p, q) <==> ReleaseOf(p).Before(ReleaseOf(q))
  {
    assert p[1..][0] == p[1] && q[1..][0] == q[1];
    if |p| == 3 {
      assert p[1..][1..] == [p[2]] && q[1..][1..] == [q[2]];
      assert TupleLess([p[2]], [q[2]]) <==> p[2] < q[2];
    } else {
      assert p[1..][1..] == [] && q[1..][1..] == [];
      assert !TupleLess(p[1..][1..], q[1..][1..]);
    }
  }

  // ---------- the check ----------

  datatype Verdict = Accepted | VersionInFinal | Malformed | Decreasing | PlainAfterVersioned

  function Attributes(ms: Members): (r: seq<Attribute>)
    ensures |r| == Length(ms)
  {
    if ms.End? then [] else [ms.attribute] + Attributes(ms.rest)
  }

  /** Versioned members parse, come last and in non-decreasing order; none in a final class. */
  predicate Versioned(final: bool, attrs: seq<Attribute>) {
    && (forall k | 0 <= k < |attrs| && attrs[k].Version? :: !final && Parses(attrs[k].numbers))
    && forall a, b | 0 <= a < b < |attrs| && attrs[a].Version? ::
         attrs[b].Version? && !ReleaseOf(attrs[b].numbers).Before(ReleaseOf(attrs[a].numbers))
  }

  /** The last versioned attribute so far. */
  predicate IsPrevious(attrs: seq<Attribute>, prev: Option<seq<int>>) {
    match prev
    case None => forall k | 0 <= k < |attrs| :: !attrs[k].Version?
    case Some(numbers) => attrs != [] && attrs[|attrs| - 1] == Version(numbers)
  }

  /** The next attribute may come after the last versioned one. */
  predicate Follows(final: bool, prev: Option<seq<int>>, next: Attribute)
    requires prev.Some? ==> Parses(prev.value)
  {
    if next.Version? then
      && !final && Parses(next.numbers)
      && (prev.Some? ==> !ReleaseOf(next.numbers).Before(ReleaseOf(prev.value)))
    else prev.None?
  }

  lemma Extend(final: bool, attrs: seq<Attribute>, prev: Option<seq<int>>, next: Attribute)
    requires Versioned(final, attrs) && IsPrevious(attrs, prev)
    ensures Versioned(final, attrs + [next]) <==> Follows(final, prev, next)
    ensures Versioned(final, attrs + [next]) ==>
              IsPrevious(attrs + [next], if next.Version? then Some(next.numbers) else prev)
  {
    var all, n := attrs + [next], |attrs|;
    if prev.Some? {
      assert all[n - 1] == Version(prev.value) && all[n] == next;
      if next.Version? && !final && Parses(next.numbers) && !ReleaseOf(next.numbers).Before(ReleaseOf(prev.value)) {
        forall a, b | 0 <= a < b < |all| && all[a].Version?
          ensures all[b].Version? && !ReleaseOf(all[b].numbers).Before(ReleaseOf(all[a].numbers))
        {
          assert a < n - 1 ==> !ReleaseOf(attrs[n - 1].numbers).Before(ReleaseOf(attrs[a].numbers));
        }
      }
    }
    assert all[n] == next;
  }

  lemma {:induction false} VersionedPrefix(final: bool, attrs: seq<Attribute>, k: nat)
    requires k <= |attrs| && Versioned(final, attrs)
    ensures Versioned(final, attrs[..k])
  {}

  lemma NoneSeen(final: bool)
    ensures Versioned(final, []) && IsPrevious([], None)
  {}

  /** Member `k` is a reason for the verdict. */
  predicate Offends(r: Verdict, final: bool, attrs: seq<Attribute>, k: nat)
    requires k < |attrs|
  {
    match r
    case Accepted => false
    case VersionInFinal => final && attrs[k].Version?
    case Malformed => !final && attrs[k].Version? && !Parses(attrs[k].numbers)
    case Decreasing =>
      && k > 0 && attrs[k - 1].Version? && attrs[k].Version?
      && Parses(attrs[k - 1].numbers) && Parses(attrs[k].numbers)
      && ReleaseOf(attrs[k].numbers).Before(ReleaseOf(attrs[k - 1].numbers))
    case PlainAfterVersioned => k > 0 && attrs[k - 1].Version? && !attrs[k].Version?
  }

  /** The check of one member against the last versioned one. */
  method ValidateNext(final: bool, prev: Option<seq<int>>, next: Attribute) returns (r: Verdict)
    requires prev.Some? ==> Parses(prev.value)
    ensures r == Accepted <==> Follows(final, prev, next)
    ensures r != Accepted ==> Offends(r, final, if prev.Some? then [Version(prev.value), next] else [next],
                                      if prev.Some? then 1 else 0)
  {
    hide ReleaseOf, TupleLess, Release.Before;
    if next.Version? {
      var version := next.numbers;
      if final {
        return VersionInFinal;
      }
      if !Parses(version) {
        return Malformed;
      }
      if prev.Some? {
        var n := if |version| < |prev.value| then |prev.value| else |version|;
        PaddedOrder(version, prev.value);
        if TupleLess(Pad(version, n), Pad(prev.value, n)) {
          return Decreasing;
        }
      }
    } else if prev.Some? {
      return PlainAfterVersioned;
    }
    return Accepted;
  }

  /** `validate_member_versioning` */
  method ValidateMemberVersioning(final: bool, members: Members) returns (r: Verdict)
    ensures r == Accepted <==> Versioned(final, Attributes(members))
    ensures r != Accepted ==>
              exists k | 0 <= k < Length(members) ::
                Offends(r, final, Attributes(members), k) && Versioned(final, Attributes(members)[..k])
  {
    hide Versioned, IsPrevious, Follows, Offends, Attributes;
    var ms := members;
    var prev: Option<seq<int>> := None;
    NoneSeen(final);
    ghost var seen: seq<Attribute> := [];
    ghost var all := Attributes(members);
    assert all == [] + all;
    while ms.Member?
      invariant all == seen + Attributes(ms)
      invariant Versioned(final, seen) && IsPrevious(seen, prev) && (prev.Some? ==> Parses(prev.value))
      decreases ms
    {
      Extend(final, seen, prev, ms.attribute);
      NextSeen(all, seen, ms);
      if Versioned(final, all) { VersionedPrefix(final, all, |seen| + 1); }
      r := ValidateNext(final, prev, ms.attribute);
      if r != Accepted {
        OffendsThere(r, final, seen, prev, all);
        return;
      }
      FollowsParses(final, prev, ms.attribute);
      if ms.attribute.Version? {
        prev := Some(ms.attribute.numbers);
      }
      seen := seen + [ms.attribute];
      ms := ms.rest;
    }
    NoAttributes(ms);
    assert all == seen;
    return Accepted;
  }

  lemma NextSeen(all: seq<Attribute>, seen: seq<Attribute>, ms: Members)
    requires ms.Member? && all == seen + Attributes(ms)
    ensures |seen| < |all| && all[..|seen|] == seen && all[|seen|] == ms.attribute
    ensures all[..|seen| + 1] == seen + [ms.attribute] && all == seen + [ms.attribute] + Attributes(ms.rest)
  {
    Rejoined(seen, ms.attribute, Attributes(ms.rest));
  }

  lemma Rejoined<T>(seen: seq<T>, next: T, rest: seq<T>)
    ensures var all := seen + ([next] + rest);
            && all[..|seen|] == seen && all[|seen|] == next
            && all[..|seen| + 1] == seen + [next] && all == seen + [next] + rest
  {}

  lemma NoAttributes(ms: Members)
    requires ms.End?
    ensures Attributes(ms) == []
  {}

  lemma FollowsParses(final: bool, prev: Option<seq<int>>, next: Attribute)
    requires (prev.Some? ==> Parses(prev.value)) && Follows(final, prev, next)
    ensures next.Version? ==> Parses(next.numbers)
  {}

  lemma OffendsThere(r: Verdict, final: bool, seen: seq<Attribute>, prev: Option<seq<int>>, all: seq<Attribute>)
    requires |seen| < |all| && all[..|seen|] == seen && IsPrevious(seen, prev)
    requires Offends(r, final, if prev.Some? then [Version(prev.value), all[|seen|]] else [all[|seen|]],
                     if prev.Some? then 1 else 0)
    ensures Offends(r, final, all, |seen|)
  {
    if prev.Some? {
      assert all[|seen| - 1] == seen[|seen| - 1];
    }
  }

  // ---------- skipping accepted classes ----------

  /** Every class that is met without entering a frame passes the check, and its attributes are
      versions. */
  predicate AcceptedThroughout(t: Type) {
    match t
    case Vector(e) => AcceptedThroughout(e)
    case Optional(e) => AcceptedThroughout(e)
    case Map(k, e) => AcceptedThroughout(k) && AcceptedThroughout(e)
    case Final(ms) => Versioned(true, Attributes(ms)) && MembersAccepted(ms)
    case _ => true
  }

  predicate MembersAccepted(ms: Members) {
    ms.Member? ==> ms.attribute != Other && AcceptedThroughout(ms.kind) && MembersAccepted(ms.rest)
  }

  /** Types accepted throughout are skipped to where they are read to. */
  lemma AcceptedSkipsAsRead(t: Type)
    requires AcceptedThroughout(t)
    ensures SkipsAsRead(t)
  {
    AcceptedIsSkippable(t);
    SkippableIsExact(t);
    SkipAgreesExactly(t);
  }

  lemma {:induction false} AcceptedIsSkippable(t: Type)
    requires AcceptedThroughout(t)
    ensures Skippable(t)
    decreases t
  {
    match t
    case Vector(e) => AcceptedIsSkippable(e);
    case Optional(e) => AcceptedIsSkippable(e);
    case Map(k, e) => AcceptedIsSkippable(k); AcceptedIsSkippable(e);
    case Final(ms) => AcceptedMembersAreSkippable(ms);
    case _ =>
  }

  lemma {:induction false} AcceptedMembersAreSkippable(ms: Members)
    requires MembersAccepted(ms) && Versioned(true, Attributes(ms))
    ensures SkippableMembers(ms)
    decreases ms
  {
    hide Skippable, AcceptedThroughout;
    if ms.Member? {
      var attrs := Attributes(ms);
      assert attrs[0] == ms.attribute && attrs[1..] == Attributes(ms.rest);
      assert forall k | 0 <= k < |attrs| - 1 :: attrs[1..][k] == attrs[k + 1];
      AcceptedIsSkippable(ms.kind);
      AcceptedMembersAreSkippable(ms.rest);
    }
  }

  // ---------- what it buys ----------

  /** The first `k` members: the class as an older release knew it. */
  function Cut(ms: Members, k: nat): (r: Members)
    requires k <= Length(ms)
    ensures Length(r) == k
  {
    if k == 0 then End else Member(ms.kind, ms.attribute, ms.absent, Cut(ms.rest, k - 1))
  }

  function Defaults(ms: Members): (r: seq<Default>)
    ensures |r| == Length(ms)
  {
    if ms.End? then [] else [ms.absent] + Defaults(ms.rest)
  }

  /** `fields` starts with what was written and continues with the defaults of the later members: a
      fixed value, or that of the earlier member named. */
  predicate Completed(ms: Members, written: seq<Value>, fields: seq<Value>) {
    && |written| <= |fields| <= Length(ms)
    && fields[..|written|] == written
    && forall k | |written| <= k < |fields| ::
         match Defaults(ms)[k]
         case Fixed(v) => fields[k] == v
         case Earlier(j) => fields[k] == if j < k then fields[j] else Number(0)
  }

  function PlainMembers(attrs: seq<Attribute>): (r: nat)
    ensures r <= |attrs|
  {
    if attrs == [] || attrs[0].Version? then 0 else 1 + PlainMembers(attrs[1..])
  }

  /** A reader that knows only a prefix of the members gets those, and ends past the whole object. */
  lemma OldReader(ms: Members, i: nat, j: nat, vs: seq<Value>, rest: seq<byte>)
    requires WellTypedMembers(ms) && j <= i <= Length(ms)
    requires HaveTypes(Cut(ms, i), vs)
    requires var t := Framed(Cut(ms, i)); Write(t, Record(vs)).Some? && BlobsFit(t, Record(vs))
    ensures Read(Framed(Cut(ms, j)), Write(Framed(Cut(ms, i)), Record(vs)).value + rest) == Got(Record(vs[..j]), rest)
  {
    CutsCompatible(ms, i, j);
    ReadWritten(Framed(Cut(ms, i)), Framed(Cut(ms, j)), Record(vs), rest);
    ShorterConverts(ms, i, j, vs, []);
    assert [] + vs[..j] == vs[..j];
  }

  lemma {:induction false} ShorterConverts(ms: Members, i: nat, j: nat, vs: seq<Value>, done: seq<Value>)
    requires WellTypedMembers(ms) && j <= i <= Length(ms) && HaveTypes(Cut(ms, i), vs)
    requires CompatibleMembers(Cut(ms, i), Cut(ms, j))
    ensures ConvertMembers(Cut(ms, i), Cut(ms, j), vs, done) == done + vs[..j]
  {
    if j > 0 {
      CompatibleSelf(ms.kind);
      ConvertSelf(ms.kind, vs[0]);
      ShorterConverts(ms.rest, i - 1, j - 1, vs[1..], done + [vs[0]]);
      assert (done + [vs[0]]) + vs[1..][..j - 1] == done + vs[..j];
    }
  }

  lemma {:induction false} CutsCompatible(ms: Members, i: nat, j: nat)
    requires WellTypedMembers(ms) && i <= Length(ms) && j <= Length(ms)
    requires forall k | i <= k < j :: Attributes(ms)[k] != Plain
    ensures CompatibleMembers(Cut(ms, i), Cut(ms, j))
  {
    if j > 0 {
      if i == 0 {
        AllAttributedCut(ms, j);
      } else {
        CompatibleSelf(ms.kind);
        forall k | i - 1 <= k < j - 1 ensures Attributes(ms.rest)[k] != Plain {
          assert Attributes(ms)[k + 1] != Plain;
        }
        CutsCompatible(ms.rest, i - 1, j - 1);
      }
    }
  }

  lemma {:induction false} AllAttributedCut(ms: Members, j: nat)
    requires j <= Length(ms) && forall k | 0 <= k < j :: Attributes(ms)[k] != Plain
    ensures AllAttributed(Cut(ms, j))
  {
    if j > 0 {
      assert Attributes(ms)[0] != Plain;
      forall k | 0 <= k < j - 1 ensures Attributes(ms.rest)[k] != Plain {
        assert Attributes(ms)[k + 1] != Plain;
      }
      AllAttributedCut(ms.rest, j - 1);
    }
  }

  /** A newer reader gets what was written, and the defaults for the versioned members not yet known
      to the writer. */
  lemma NewReader(ms: Members, i: nat, j: nat, vs: seq<Value>, rest: seq<byte>) returns (fields: seq<Value>)
    requires WellTypedMembers(ms) && Versioned(false, Attributes(ms))
    requires PlainMembers(Attributes(ms)) <= i <= j <= Length(ms)
    requires HaveTypes(Cut(ms, i), vs)
    requires var t := Framed(Cut(ms, i)); Write(t, Record(vs)).Some? && BlobsFit(t, Record(vs))
    ensures Read(Framed(Cut(ms, j)), Write(Framed(Cut(ms, i)), Record(vs)).value + rest) == Got(Record(fields), rest)
    ensures |fields| == j && Completed(ms, vs, fields)
  {
    hide Versioned, PlainMembers, Completed, WellTypedMembers, CompatibleMembers, BlobsFit, Fill, Tail, Cut;
    VersionedTail(Attributes(ms));
    CutsCompatible(ms, i, j);
    ReadWritten(Framed(Cut(ms, i)), Framed(Cut(ms, j)), Record(vs), rest);
    fields := Fill(Tail(ms, i), j - i, vs);
    LongerConverts(ms, i, j, vs, []);
    assert [] + vs == vs;
    FilledIsCompleted(ms, i, j, vs);
  }

  lemma FilledIsCompleted(ms: Members, i: nat, j: nat, vs: seq<Value>)
    requires |vs| == i <= j <= Length(ms)
    ensures Completed(ms, vs, Fill(Tail(ms, i), j - i, vs))
  {
    var fields := Fill(Tail(ms, i), j - i, vs);
    FillCompletes(Tail(ms, i), j - i, vs);
    TailDefaults(ms, i);
    forall k | i <= k < j
      ensures match Defaults(ms)[k]
              case Fixed(v) => fields[k] == v
              case Earlier(e) => fields[k] == if e < k then fields[e] else Number(0)
    {
      assert fields[i + (k - i)] == Lookup(Defaults(Tail(ms, i))[k - i], fields[..i + (k - i)]);
    }
  }

  lemma {:induction false} VersionedTail(attrs: seq<Attribute>)
    requires Versioned(false, attrs)
    ensures forall k | PlainMembers(attrs) <= k < |attrs| :: attrs[k].Version?
  {
    if attrs != [] && !attrs[0].Version? {
      forall a, b | 0 <= a < b < |attrs[1..]| && attrs[1..][a].Version?
        ensures attrs[1..][b].Version?
             && !ReleaseOf(attrs[1..][b].numbers).Before(ReleaseOf(attrs[1..][a].numbers))
      {
        assert attrs[a + 1].Version?;
        assert attrs[b + 1].Version?;
      }
      VersionedTail(attrs[1..]);
      forall k | PlainMembers(attrs) <= k < |attrs| ensures attrs[k].Version? {
        assert attrs[1..][k - 1].Version?;
      }
    }
  }

  function Tail(ms: Members, k: nat): (r: Members)
    requires k <= Length(ms)
    ensures Length(r) == Length(ms) - k
  {
    if k == 0 then ms else Tail(ms.rest, k - 1)
  }

  function Fill(ms: Members, n: nat, done: seq<Value>): (r: seq<Value>)
    requires n <= Length(ms)
    ensures |r| == |done| + n
  {
    if n == 0 then done else Fill(ms.rest, n - 1, done + [Lookup(ms.absent, done)])
  }

  lemma {:induction false} LongerConverts(ms: Members, i: nat, j: nat, vs: seq<Value>, done: seq<Value>)
    requires WellTypedMembers(ms) && i <= j <= Length(ms) && HaveTypes(Cut(ms, i), vs)
    requires CompatibleMembers(Cut(ms, i), Cut(ms, j))
    ensures ConvertMembers(Cut(ms, i), Cut(ms, j), vs, done) == Fill(Tail(ms, i), j - i, done + vs)
  {
    if i > 0 {
      CompatibleSelf(ms.kind);
      ConvertSelf(ms.kind, vs[0]);
      LongerConverts(ms.rest, i - 1, j - 1, vs[1..], done + [vs[0]]);
      assert (done + [vs[0]]) + vs[1..] == done + vs;
    } else {
      assert done + vs == done;
      if j > 0 {
        var next := done + [Lookup(ms.absent, done)];
        LongerConverts(ms.rest, 0, j - 1, vs, next);
        assert next + vs == next;
      }
    }
  }

  lemma {:induction false} FillCompletes(ms: Members, n: nat, done: seq<Value>)
    requires n <= Length(ms)
    ensures var r := Fill(ms, n, done);
            && r[..|done|] == done
            && forall k | 0 <= k < n :: r[|done| + k] == Lookup(Defaults(ms)[k], r[..|done| + k])
  {
    if n > 0 {
      var r, next := Fill(ms, n, done), done + [Lookup(ms.absent, done)];
      FillCompletes(ms.rest, n - 1, next);
      assert r[..|done|] == next[..|done|] == done;
      forall k | 0 <= k < n ensures r[|done| + k] == Lookup(Defaults(ms)[k], r[..|done| + k]) {
        if k == 0 {
          assert r[..|next|][|done|] == next[|done|];
        } else {
          assert r[|next| + (k - 1)] == Lookup(Defaults(ms.rest)[k - 1], r[..|next| + (k - 1)]);
        }
      }
    }
  }

  lemma {:induction false} TailDefaults(ms: Members, i: nat)
    requires i <= Length(ms)
    ensures Defaults(Tail(ms, i)) == Defaults(ms)[i..]
  {
    if i > 0 {
      TailDefaults(ms.rest, i - 1);
    }
  }

  /** The members a release knows are a prefix, so any two releases read each other's objects. */
  lemma {:induction false} ReleasesAreCuts(attrs: seq<Attribute>, release: Release, k: nat)
    requires Versioned(false, attrs) && k < |attrs|
    requires attrs[k].Version? ==> !release.Before(ReleaseOf(attrs[k].numbers))
    ensures forall a | 0 <= a < k && attrs[a].Version? :: !release.Before(ReleaseOf(attrs[a].numbers))
  {
    forall a | 0 <= a < k && attrs[a].Version? ensures !release.Before(ReleaseOf(attrs[a].numbers)) {
      assert attrs[k].Version? && !ReleaseOf(attrs[k].numbers).Before(ReleaseOf(attrs[a].numbers));
    }
  }
}
