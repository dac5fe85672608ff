/** Writing, reserving room, appending and saving a position, nested in any way: what a stream holds
    afterwards. */
module StreamScripts {
  import opened Integers
  import opened Fragments
  import opened Ostream

  // ---------- filling in a placeholder afterwards ----------

  /** A placeholder was reserved in a stream that then held `was`, and the stream has only grown since. */
  ghost predicate Open(ph: PlaceHolder, was: seq<Chunk>, wasFrags: seq<Fragment>,
                       chain: seq<Chunk>, frags: seq<Fragment>)
  {
    && |was| == |wasFrags| && |chain| == |frags|
    && Grown(was, wasFrags, chain, frags)
    && Reserved(ph, chain, frags) && PlaceOf(ph, chain, frags) == |Flatten(wasFrags)|
    && Beyond(ph, was, wasFrags, chain)
  }

  lemma StaysOpen(ph: PlaceHolder, was: seq<Chunk>, wasFrags: seq<Fragment>,
                  mid: seq<Chunk>, midFrags: seq<Fragment>, chain: seq<Chunk>, frags: seq<Fragment>)
    requires Open(ph, was, wasFrags, mid, midFrags)
    requires |chain| == |frags| && Distinct(chain) && Grown(mid, midFrags, chain, frags)
    ensures Open(ph, was, wasFrags, chain, frags)
  {
    GrownTransitive(was, wasFrags, mid, midFrags, chain, frags);
    ReservedKept(ph, mid, midFrags, chain, frags);
    var k := IndexOf(mid, ph.chunk);
    assert chain[k] == mid[k];
  }

  /** `place_holder::set`, after `body` was written. */
  method FillPlace(out: BytesOstream, ph: PlaceHolder, v: seq<byte>,
                   ghost was: seq<Chunk>, ghost wasFrags: seq<Fragment>, ghost junk: seq<byte>, ghost body: seq<byte>)
    requires out.Valid() && Open(ph, was, wasFrags, out.chain, out.frags)
    requires |junk| == |v| == ph.length && out.Contents() == Flatten(wasFrags) + junk + body
    modifies out.repr
    ensures out.Valid() && out.repr == old(out.repr) && Grown(was, wasFrags, out.chain, out.frags)
    ensures out.Contents() == Flatten(wasFrags) + (v + body)
    ensures Filled(old(out.frags)) ==> Filled(out.frags)
  {
    hide Flatten, Grown, Overwrite, Filled;
    GrownOverwrite(ph, v, was, wasFrags, out.chain, out.frags);
    if Filled(out.frags) {
      ghost var k := IndexOf(out.chain, ph.chunk);
      FilledUpdate(out.frags, k, Overwrite(out.frags[k], ph.at, v));
    }
    PlaceIsOwned(ph, out.chain, out.repr);
    out.Fill(ph, v);
    OverwriteJunk(Flatten(wasFrags), junk, body, v);
  }

  lemma PlaceIsOwned(ph: PlaceHolder, chain: seq<Chunk>, repr: set<object>)
    requires ph.chunk in chain && Owned(chain, repr)
    ensures ph.chunk.data in repr
  {}

  lemma OverwriteJunk(a: seq<byte>, junk: seq<byte>, body: seq<byte>, v: seq<byte>)
    requires |junk| == |v|
    ensures Overwrite(a + junk + body, |a|, v) == a + (v + body)
  {
    assert (a + junk + body)[..|a|] == a && (a + junk + body)[|a| + |v|..] == body;
  }

  // ---------- going back ----------

  /** Going back to where a stream ended undoes all that was written since, chunk by chunk. */
  lemma RetractUndoes(p: Position, was: seq<Chunk>, wasFrags: seq<Fragment>, chain: seq<Chunk>, frags: seq<Fragment>)
    requires |was| == |wasFrags| && |chain| == |frags| && Distinct(chain) && Grown(was, wasFrags, chain, frags)
    requires p == if was == [] then Position(null, 0) else Position(was[|was| - 1], |wasFrags[|was| - 1]|)
    ensures Marks(p, was, wasFrags) && Marks(p, chain, frags)
    ensures was != [] ==>
              var k := IndexOf(chain, p.chunk); was == chain[..k + 1] && wasFrags == CutFrags(frags, k, p.offset)
  {
    if was != [] {
      var k := |was| - 1;
      assert forall j | 0 <= j < |was| :: was[j] == chain[..|was|][j] == chain[j];
      assert IndexOf(chain, p.chunk) == k;
      var j := IndexOf(was, p.chunk);
      assert chain[j] == chain[k];
      assert frags[k][..p.offset] == wasFrags[k] && frags[..k] == wasFrags[..k];
      assert wasFrags == CutFrags(frags, k, p.offset);
    }
  }

  // ---------- truncating ----------

  /** A truncation that keeps at least what was there leaves a stream that has only grown. */
  lemma GrownCut(was: seq<Chunk>, wasFrags: seq<Fragment>, chain: seq<Chunk>, frags: seq<Fragment>, k: nat, m: nat)
    requires |was| == |wasFrags| && |chain| == |frags| && Grown(was, wasFrags, chain, frags) && Filled(wasFrags)
    requires k < |chain| && m <= |frags[k]| && |Flatten(wasFrags)| <= |Flatten(frags[..k])| + m
    ensures Grown(was, wasFrags, chain[..k + 1], CutFrags(frags, k, m))
  {
    if was != [] {
      var n := |was| - 1;
      if k < n {
        assert frags[..k + 1] == wasFrags[..k + 1];
        CutLosesBytes(wasFrags, frags, k, m);
        assert false;
      }
      assert frags[..n] == wasFrags[..n];
      FlattenStep(wasFrags, n);
      assert wasFrags[..n + 1] == wasFrags;
      assert k == n ==> wasFrags[n] <= frags[n][..m];
    }
  }

  lemma CutLosesBytes(wasFrags: seq<Fragment>, frags: seq<Fragment>, k: nat, m: nat)
    requires k + 1 < |wasFrags| && k < |frags| && Filled(wasFrags) && m <= |frags[k]|
    requires frags[..k + 1] == wasFrags[..k + 1]
    ensures |Flatten(frags[..k])| + m < |Flatten(wasFrags)|
  {
    FlattenStep(frags, k);
    FlattenSplit(wasFrags, k + 1);
  }

  lemma FilledUpdate(frags: seq<Fragment>, k: nat, f: Fragment)
    requires k < |frags| && Filled(frags) && |f| == |frags[k]|
    ensures Filled(frags[k := f])
  {}

  // ---------- scripts ----------

  /** What a client does with a stream: write bytes; reserve room, go on, and fill the room in;
      write into a stream of its own and append it; save the position, go on, and retract;
      remove a suffix. */
  datatype Step =
    | Put(v: seq<byte>)
    | Hold(v: seq<byte>, body: seq<Step>)
    | Append(body: seq<Step>)
    | Saved(body: seq<Step>)
    | Trim(n: nat)

  /** The bytes that remain: nothing of what was retracted or removed. */
  function Effect(script: seq<Step>): seq<byte>
    decreases script, 1
  {
    if script == [] then []
    else
      var n := |script| - 1;
      var done := Effect(script[..n]);
      if script[n].Trim? then if script[n].n <= |done| then done[..|done| - script[n].n] else []
      else done + Added(script)
  }

  /** What the last step adds. */
  function Added(script: seq<Step>): seq<byte>
    requires script != [] && !script[|script| - 1].Trim?
    decreases script, 0
  {
    match script[|script| - 1]
    case Put(v) => v
    case Hold(v, body) => v + Effect(body)
    case Append(body) => Effect(body)
    case Saved(_) => []
  }

  /** Room is reserved for at least one byte, and nothing is removed that the same script did not
      write: not what was there before, and not beyond a saved position or a placeholder. */
  predicate Proper(script: seq<Step>) {
    script != [] ==>
      var n := |script| - 1;
      && Proper(script[..n])
      && match script[n]
         case Put(_) => true
         case Hold(v, body) => v != [] && Proper(body)
         case Append(body) => Proper(body)
         case Saved(body) => Proper(body)
         case Trim(k) => k <= |Effect(script[..n])|
  }

  /** The stream that held `wasFrags` now also holds `b`, and nothing that was there has changed. */
  ghost predicate Holds(out: BytesOstream, was: seq<Chunk>, wasFrags: seq<Fragment>, b: seq<byte>)
    reads out, out.repr
  {
    && out.Valid() && Filled(out.frags)
    && |was| == |wasFrags| && Filled(wasFrags)
    && out.Contents() == Flatten(wasFrags) + b
    && Grown(was, wasFrags, out.chain, out.frags)
  }

  lemma HoldsSelf(out: BytesOstream)
    requires out.Valid() && Filled(out.frags)
    ensures Holds(out, out.chain, out.frags, [])
  {
    GrownSelf(out.chain, out.frags);
  }

  /** However saves, placeholders, appends and truncations are nested, the stream gains exactly the
      bytes that were not retracted or removed. */
  method Perform(out: BytesOstream, script: seq<Step>)
    requires out.Valid() && Filled(out.frags) && Proper(script)
    modifies out.repr
    ensures fresh(out.repr - old(out.repr)) && Holds(out, old(out.chain), old(out.frags), Effect(script))
    decreases script, 2
  {
    hide Holds, Filled, Effect;
    if script == [] {
      NoEffect();
      HoldsSelf(out);
    } else {
      Perform(out, script[..|script| - 1]);
      PerformLast(out, script, old(out.chain), old(out.frags));
    }
  }

  lemma NoEffect()
    ensures Effect([]) == []
  {}

  method PerformLast(out: BytesOstream, script: seq<Step>, ghost was: seq<Chunk>, ghost wasFrags: seq<Fragment>)
    requires Proper(script) && script != [] && Holds(out, was, wasFrags, Effect(script[..|script| - 1]))
    modifies out.repr
    ensures fresh(out.repr - old(out.repr)) && Holds(out, was, wasFrags, Effect(script))
    decreases script, 1
  {
    hide Grown, Filled, Flatten, Added, BytesOstream.Valid, Distinct, Owned;
    ghost var done := Effect(script[..|script| - 1]);
    if script[|script| - 1].Trim? {
      Truncate(out, script[|script| - 1].n, was, wasFrags, done);
    } else {
      ghost var mid, midFrags := out.chain, out.frags;
      AddLast(out, script);
      GrownTransitive(was, wasFrags, mid, midFrags, out.chain, out.frags);
    }
  }

  method AddLast(out: BytesOstream, script: seq<Step>)
    requires out.Valid() && Filled(out.frags) && Proper(script) && script != [] && !script[|script| - 1].Trim?
    modifies out.repr
    ensures fresh(out.repr - old(out.repr)) && Holds(out, old(out.chain), old(out.frags), Added(script))
    decreases script, 0
  {
    hide Grown, Filled, Flatten, Effect, BytesOstream.Valid, Distinct, Owned;
    match script[|script| - 1]
    case Put(v) => out.Write(v);
    case Hold(v, body) => Reserve(out, v, body);
    case Append(body) => AppendStream(out, body);
    case Saved(body) => SaveAndRetract(out, body);
  }

  method Truncate(out: BytesOstream, n: nat,
                  ghost was: seq<Chunk>, ghost wasFrags: seq<Fragment>, ghost b: seq<byte>)
    requires Holds(out, was, wasFrags, b) && n <= |b|
    modifies out.repr
    ensures out.repr == old(out.repr) && Holds(out, was, wasFrags, b[..|b| - n])
  {
    hide Grown, Filled, Flatten, Distinct, Owned;
    ghost var all := out.Contents();
    ghost var k, m;
    k, m := out.RemoveSuffix(n);
    if old(out.chain) != [] {
      GrownCut(was, wasFrags, old(out.chain), old(out.frags), k, m);
    }
    assert all[..|all| - n] == Flatten(wasFrags) + b[..|b| - n];
  }

  method Reserve(out: BytesOstream, v: seq<byte>, body: seq<Step>)
    requires out.Valid() && Filled(out.frags) && v != [] && Proper(body)
    modifies out.repr
    ensures fresh(out.repr - old(out.repr)) && Holds(out, old(out.chain), old(out.frags), v + Effect(body))
    decreases body, 3
  {
    hide Flatten, Grown, Filled, Effect, Proper;
    var ph, junk := out.WritePlaceHolder(|v|);
    ghost var mid, midFrags := out.chain, out.frags;
    Perform(out, body);
    StaysOpen(ph, old(out.chain), old(out.frags), mid, midFrags, out.chain, out.frags);
    FillPlace(out, ph, v, old(out.chain), old(out.frags), junk, Effect(body));
  }

  method AppendStream(out: BytesOstream, body: seq<Step>)
    requires out.Valid() && Filled(out.frags) && Proper(body)
    modifies out.repr
    ensures fresh(out.repr - old(out.repr)) && Holds(out, old(out.chain), old(out.frags), Effect(body))
    decreases body, 3
  {
    hide Flatten, Grown, Effect, Proper, Distinct, Owned;
    var o := new BytesOstream();
    Perform(o, body);
    FlattenNone();
    out.Append(o);
  }

  lemma FlattenNone()
    ensures Flatten([]) == []
  {}

  /** Going back to the saved position gives back the chunks as they were. */
  method SaveAndRetract(out: BytesOstream, body: seq<Step>)
    requires out.Valid() && Filled(out.frags) && Proper(body)
    modifies out.repr
    ensures fresh(out.repr - old(out.repr)) && Holds(out, old(out.chain), old(out.frags), [])
    ensures out.chain == old(out.chain) && out.frags == old(out.frags)
    decreases body, 3
  {
    hide Flatten, Grown, Filled, Effect, Proper, CutFrags, Marks, OffsetOf;
    var p := out.Pos();
    Perform(out, body);
    RetractUndoes(p, old(out.chain), old(out.frags), out.chain, out.frags);
    MarkOwned(p, out.chain, out.frags, out.repr);
    out.Retract(p);
    HoldsSelf(out);
  }

  // ---------- cleared streams ----------

  /** A cleared stream keeps its first chunk.  Room that does not fit into it goes to the next one,
      and the first fragment stays empty. */
  method ClearAndReserve(out: BytesOstream, v: seq<byte>)
    requires out.Valid() && out.begin != null && |v| > out.begin.data.Length
    modifies out.repr
    ensures out.Valid() && fresh(out.repr - old(out.repr)) && out.chain != []
    ensures out.frags == [[], v] && out.Contents() == v
  {
    hide Linked, Owned, Overwrite, Flatten, Distinct, Grown, Holding;
    out.Clear();
    LastHolds(out.chain, out.frags);
    assert out.frags == [out.frags[0]];
    FlattenEmpty(out.frags[0]);
    var ph, junk := out.WritePlaceHolder(|v|);
    PlaceIsOwned(ph, out.chain, out.repr);
    SecondFilled(junk, IndexOf(out.chain, ph.chunk), ph.at, v);
    out.Fill(ph, v);
  }

  lemma FlattenEmpty(f: Fragment)
    requires Flatten([f]) == []
    ensures f == []
  {
    assert Flatten([f]) == f;
  }

  lemma SecondFilled(junk: Fragment, k: nat, at: nat, v: seq<byte>)
    requires v != [] && |junk| == |v| && k < 2 && at + |v| <= |[[], junk][k]|
    ensures [[], junk][k := Overwrite([[], junk][k], at, v)] == [[], v] && Flatten([[], v]) == v
  {
    assert k == 1 && at == 0;
    assert Overwrite(junk, 0, v) == v;
    assert [[], v][..1] == [[]] && Flatten([[]]) == [];
  }

  /** Two streams used in this way compare equal whatever they hold. */
  method ClearedStreamsCompareEqual(s: BytesOstream, o: BytesOstream, v: seq<byte>, w: seq<byte>) returns (r: bool)
    requires s.Valid() && o.Valid() && s.repr !! o.repr && s.begin != null && o.begin != null
    requires |v| > s.begin.data.Length && |w| > o.begin.data.Length
    modifies s.repr, o.repr
    ensures s.Valid() && o.Valid() && s.Contents() == v && o.Contents() == w
    ensures r
  {
    ClearAndReserve(s, v);
    ClearAndReserve(o, w);
    EmptyFragmentsHideTheRest([[], v], [[], w]);
    r := s.Equals(o);
  }
}
