/** Removed tuples: what a reader that does not see the removal gets from the chain. */
module RemovedTuples {
  import opened Wrappers
  import opened Diff
  import opened Versions
  import opened FatTupleGc
  import opened Chain

  /** insertVersion of a RemoveVersion; then the head is shortened, marked and has a new writer. */
  function ChainedRemove(t: Tuple, key: seq<byte>, writer: Id): (r: Tuple) {
    Tuple(writer, if |t.value| > 1 then [] else t.value, true, t.history[writer := Removal(t.id, key, t.value)])
  }

  /** The bytes that a walk takes for the removed value: the payload begins with the key. */
  function TakenFor(key: seq<byte>, value: seq<byte>): (r: seq<byte>)
    ensures |r| == |value|
  {
    (key + value)[..|value|]
  }

  // ----- when they are the value

  /** The key over and over: byte i. */
  function Repeated(key: seq<byte>, i: nat): (r: byte)
    requires key != []
  {
    if i < |key| then key[i] else Repeated(key, i - |key|)
  }

  predicate KeyRepeats(key: seq<byte>, value: seq<byte>) {
    key == [] || forall i | 0 <= i < |value| :: value[i] == Repeated(key, i)
  }

  lemma TakenAt(key: seq<byte>, value: seq<byte>, i: nat)
    requires i < |value|
    ensures TakenFor(key, value)[i] == if i < |key| then key[i] else value[i - |key|]
  {
  }

  lemma {:induction false} RepeatsAt(key: seq<byte>, value: seq<byte>, i: nat)
    requires key != [] && i < |value| && TakenFor(key, value) == value
    ensures value[i] == Repeated(key, i)
    decreases i
  {
    TakenAt(key, value, i);
    if |key| <= i {
      RepeatsAt(key, value, i - |key|);
    }
  }

  /** The exact condition on the value. */
  lemma TakenIff(key: seq<byte>, value: seq<byte>)
    ensures TakenFor(key, value) == value <==> KeyRepeats(key, value)
  {
    if key == [] {
      assert key + value == value;
    } else if TakenFor(key, value) == value {
      forall i | 0 <= i < |value|
        ensures value[i] == Repeated(key, i)
      {
        RepeatsAt(key, value, i);
      }
    } else if KeyRepeats(key, value) {
      forall i | 0 <= i < |value|
        ensures TakenFor(key, value)[i] == value[i]
      {
        TakenAt(key, value, i);
      }
    }
  }

  // ----- the walk

  ghost predicate NewWriter(vs: seq<Version>, writer: Id) {
    forall i | 0 <= i < |vs| :: vs[i].id != writer
  }

  lemma LinkedStill(h: History, id: Id, ds: seq<Delta>, vs: seq<Version>, writer: Id, l: Link)
    requires Linked(h, id, ds) && |vs| == |ds| + 1 && vs[|ds|].id == id && NewWriter(vs, writer)
    requires forall i | 0 <= i < |ds| :: vs[i].id == ds[i].id
    ensures Linked(h[writer := l], id, ds)
  {
    forall i | 0 <= i < |ds|
      ensures KeyOf(id, ds, i) == vs[i + 1].id
    {
    }
  }

  /** Who sees the removal finds nothing; the others go back from the bytes taken for the value. */
  lemma RemovedReads(t: Tuple, ds: seq<Delta>, vs: seq<Version>, key: seq<byte>, writer: Id, vis: Id -> bool,
                     limit: nat)
    requires Holds(t, ds, vs) && NewWriter(vs, writer) && |ds| < limit
    ensures var (t', w) := (ChainedRemove(t, key, writer), TakenFor(key, t.value));
      && WalkOk(t'.history, t'.id, t'.value, |w|)
      && (vis(writer) ==> ReadChained(t', |w|, vis, limit) == NotFound)
      && (!vis(writer) && Reads(t.id, w, ds, vis).Some? ==>
            ReadChained(t', |w|, vis, limit) == Ok(Reads(t.id, w, ds, vis).value))
  {
    var (t', w) := (ChainedRemove(t, key, writer), TakenFor(key, t.value));
    LinkedStill(t.history, t.id, ds, vs, writer, Removal(t.id, key, t.value));
    if vis(t.id) {
      ReadsHead(t.id, w, ds, vis);
    } else {
      WalkReadsNext(t'.history, t.id, w, ds, vis, 1, limit);
      if 2 <= limit {
        WalkReads(t'.history, t.id, w, ds, vis, 2, limit);
      }
    }
  }

  // ----- older versions

  /** One of the deltas writes this byte. */
  ghost predicate Rewritten(ds: seq<Delta>, p: nat) {
    exists i :: 0 <= i < |ds| && p in Positions(ds[i].slots)
  }

  lemma {:induction false} RewrittenIff(ds: seq<Delta>, p: nat)
    requires LengthsOk(ds)
    ensures p in ZonePos(ds) <==> Rewritten(ds, p)
    decreases |ds|
  {
    if ds != [] {
      var rest := ds[1..];
      RewrittenIff(rest, p);
      assert forall i | 0 <= i < |rest| :: rest[i] == ds[i + 1];
      if Rewritten(ds, p) && p !in Positions(ds[0].slots) {
        var i :| 0 <= i < |ds| && p in Positions(ds[i].slots);
        assert p in Positions(rest[i - 1].slots);
      }
    }
  }

  /** Version j is what is left when the newer deltas are undone. */
  lemma VersionAt(id: Id, v: seq<byte>, ds: seq<Delta>, j: nat, from: seq<Delta>)
    requires DeltasOk(ds, |v|) && j <= |ds| && from == ds[j..] && DeltasOk(from, |v|)
    ensures VersionsOf(id, v, ds)[j].value == UndoAll(from, v)
  {
    VersionsFrom(id, v, ds, j, from);
    VersionsSplit(id, v, [], from, from);
    assert VersionsOf(id, v, from)[0].value == UndoAll(from, v);
  }

  lemma UndoAllSameIff(ds: seq<Delta>, v: seq<byte>, w: seq<byte>)
    requires DeltasOk(ds, |v|) && |w| == |v|
    ensures UndoAll(ds, w) == UndoAll(ds, v) <==> forall p | 0 <= p < |v| && !Rewritten(ds, p) :: w[p] == v[p]
  {
    UndoAllIsOverlay(ds, v);
    UndoAllIsOverlay(ds, w);
    forall p: nat
      ensures p in ZonePos(ds) <==> Rewritten(ds, p)
    {
      RewrittenIff(ds, p);
    }
    OverlaySameIff(v, w, ZonePos(ds));
  }

  lemma OverlaySameIff(v: seq<byte>, w: seq<byte>, m: map<nat, byte>)
    requires |w| == |v|
    ensures Overlay(w, m) == Overlay(v, m) <==> forall p | 0 <= p < |v| && p !in m :: w[p] == v[p]
  {
    if Overlay(w, m) == Overlay(v, m) {
      forall p | 0 <= p < |v| && p !in m
        ensures w[p] == v[p]
      {
        assert Overlay(w, m)[p] == Overlay(v, m)[p];
      }
    }
  }

  lemma ReadsNewest(id: Id, v: seq<byte>, ds: seq<Delta>, vis: Id -> bool, j: nat, from: seq<Delta>)
    requires DeltasOk(ds, |v|) && j <= |ds| && from == ds[j..] && DeltasOk(from, |v|)
    requires Newest(VersionsOf(id, v, ds), vis, j)
    ensures Reads(id, v, ds, vis) == Some(UndoAll(from, v))
  {
    AsOfNewest(VersionsOf(id, v, ds), vis, j);
    VersionAt(id, v, ds, j, from);
  }

  lemma SameNewest(vs: seq<Version>, ws: seq<Version>, vis: Id -> bool, j: nat)
    requires Newest(vs, vis, j) && |ws| == |vs| && forall i | 0 <= i < |vs| :: ws[i].id == vs[i].id
    ensures Newest(ws, vis, j)
  {
  }

  /**
    A reader that does not see the removal, and would read version j, reads it exactly when the bytes that no newer
    delta rewrites are the same in the value and in the bytes taken for it.
   */
  lemma RemovedReadsIff(t: Tuple, ds: seq<Delta>, vs: seq<Version>, key: seq<byte>, writer: Id, vis: Id -> bool,
                        limit: nat, j: nat)
    requires Holds(t, ds, vs) && NewWriter(vs, writer) && |ds| < limit && !vis(writer) && Newest(vs, vis, j)
    ensures var t' := ChainedRemove(t, key, writer);
      && WalkOk(t'.history, t'.id, t'.value, |t.value|)
      && (ReadChained(t', |t.value|, vis, limit) == Ok(vs[j].value) <==>
            forall p | 0 <= p < |t.value| && !Rewritten(ds[j..], p) :: TakenFor(key, t.value)[p] == t.value[p])
  {
    var w := TakenFor(key, t.value);
    var from := ds[j..];
    RemovedReads(t, ds, vs, key, writer, vis, limit);
    DeltasOkFrom(ds, |w|, j);
    VersionAt(t.id, t.value, ds, j, from);
    SameNewest(vs, VersionsOf(t.id, w, ds), vis, j);
    ReadsNewest(t.id, w, ds, vis, j, from);
    UndoAllSameIff(from, t.value, w);
  }

  /** The reader of the last value gets it exactly when it repeats the key. */
  lemma LastValueIff(t: Tuple, ds: seq<Delta>, vs: seq<Version>, key: seq<byte>, writer: Id, vis: Id -> bool,
                     limit: nat)
    requires Holds(t, ds, vs) && NewWriter(vs, writer) && |ds| < limit && !vis(writer) && vis(t.id)
    ensures var t' := ChainedRemove(t, key, writer);
      && WalkOk(t'.history, t'.id, t'.value, |t.value|)
      && (ReadChained(t', |t.value|, vis, limit) == Ok(t.value) <==> KeyRepeats(key, t.value))
  {
    RemovedReads(t, ds, vs, key, writer, vis, limit);
    ReadsHead(t.id, TakenFor(key, t.value), ds, vis);
    TakenIff(key, t.value);
  }

  // ----- all tuples and readers

  datatype Reading = Reading(t: Tuple, ds: seq<Delta>, vs: seq<Version>, writer: Id, vis: Id -> bool, limit: nat,
    j: nat)

  /** A reader that does not see the removal and has version j. */
  ghost predicate Earlier(x: Reading, n: nat) {
    && Holds(x.t, x.ds, x.vs) && |x.t.value| == n && NewWriter(x.vs, x.writer) && |x.ds| < x.limit
    && !x.vis(x.writer) && Newest(x.vs, x.vis, x.j)
  }

  ghost predicate ReadsRight(x: Reading, key: seq<byte>) {
    var t' := ChainedRemove(x.t, key, x.writer);
    && WalkOk(t'.history, t'.id, t'.value, |x.t.value|) && x.j < |x.vs|
    && ReadChained(t', |x.t.value|, x.vis, x.limit) == Ok(x.vs[x.j].value)
  }

  /** Removing tuples of n bytes under this key is invisible to all earlier snapshots. */
  ghost predicate RemovesRight(key: seq<byte>, n: nat) {
    forall x: Reading | Earlier(x, n) :: ReadsRight(x, key)
  }

  /** A tuple that was only inserted, with a first byte other than the key's. */
  function OtherByte(key: seq<byte>, n: nat): (v: seq<byte>)
    requires key != [] && n > 0
    ensures |v| == n && v[0] != key[0]
  {
    XorOneDiffers(key[0]);
    seq(n, i => XorByte(key[0], 1))
  }

  lemma RemovedWrong(key: seq<byte>, n: nat)
    requires key != [] && n > 0
    ensures !RemovesRight(key, n)
  {
    var (id, writer, v) := (Id(0, 1, 0), Id(1, 2, 0), OtherByte(key, n));
    var vis := (x: Id) => x == id;
    var t := Tuple(id, v, false, map[]);
    var vs := [Version(id, v)];
    assert Holds(t, [], vs);
    LastValueIff(t, [], vs, key, writer, vis, 1);
    assert v[0] != Repeated(key, 0);
    var x := Reading(t, [], vs, writer, vis, 1, 0);
    assert Earlier(x, n) && !ReadsRight(x, key);
  }

  /** Right for every tuple and every earlier snapshot exactly when the key has no bytes, or the values have none. */
  lemma RemovalIff(key: seq<byte>, n: nat)
    ensures RemovesRight(key, n) <==> key == [] || n == 0
  {
    if key == [] || n == 0 {
      forall x: Reading | Earlier(x, n)
        ensures ReadsRight(x, key)
      {
        RemovedReadsIff(x.t, x.ds, x.vs, key, x.writer, x.vis, x.limit, x.j);
        TakenIff(key, x.t.value);
      }
    } else {
      RemovedWrong(key, n);
    }
  }
}
