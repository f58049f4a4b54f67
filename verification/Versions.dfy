/** The version history of a tuple: a newest value and deltas that lead back from it, and what a snapshot reads. */
module Versions {
  import opened Wrappers
  import opened Diff

  /** The writer of a version: worker_id, tx_ts (a start timestamp) and command_id. */
  datatype Id = Id(worker: nat, tx: nat, command: nat)

  /** An older version: who wrote it, and the diff that turns the next newer value into it. */
  datatype Delta = Delta(id: Id, slots: seq<Slot>, diff: seq<byte>)

  datatype Version = Version(id: Id, value: seq<byte>)

  predicate DeltaOk(d: Delta, n: nat) {
    Fits(d.slots, n) && |d.diff| == DiffLength(d.slots)
  }

  predicate DeltasOk(ds: seq<Delta>, n: nat) {
    forall i | 0 <= i < |ds| :: DeltaOk(ds[i], n)
  }

  predicate LengthsOk(ds: seq<Delta>) {
    forall i | 0 <= i < |ds| :: |ds[i].diff| == DiffLength(ds[i].slots)
  }

  /** The older value behind one delta. */
  function Undo(d: Delta, v: seq<byte>): (r: seq<byte>)
    requires DeltaOk(d, |v|)
    ensures |r| == |v|
  {
    FitsWithin(d.slots, |v|);
    Scatter(Positions(d.slots), v, d.diff)
  }

  /** The delta an update leaves behind: generateDiff on the value before it. */
  function Before(id: Id, slots: seq<Slot>, v: seq<byte>): (d: Delta)
    requires Fits(slots, |v|)
    ensures DeltaOk(d, |v|) && d.id == id && d.slots == slots
  {
    FitsWithin(slots, |v|);
    Delta(id, slots, Gather(Positions(slots), v))
  }

  lemma UndoBefore(id: Id, slots: seq<Slot>, before: seq<byte>, after: seq<byte>)
    requires Fits(slots, |before|) && AgreeOutside(Positions(slots), before, after)
    ensures Undo(Before(id, slots, before), after) == before
  {
    FitsWithin(slots, |before|);
    DiffRestores(Positions(slots), before, after);
  }

  /** All versions, oldest first; the deltas are oldest first as well. */
  function VersionsOf(id: Id, v: seq<byte>, ds: seq<Delta>): (r: seq<Version>)
    requires DeltasOk(ds, |v|)
    ensures |r| == |ds| + 1 && r[|ds|] == Version(id, v)
    ensures forall i | 0 <= i < |ds| :: r[i].id == ds[i].id
    decreases |ds|
  {
    if ds == [] then [Version(id, v)]
    else
      var n := |ds| - 1;
      VersionsOf(ds[n].id, Undo(ds[n], v), ds[..n]) + [Version(id, v)]
  }

  /** What a snapshot reads: the newest version visible to it. */
  function AsOf(vs: seq<Version>, vis: Id -> bool): (r: Option<seq<byte>>)
    decreases |vs|
  {
    if vs == [] then None
    else if vis(vs[|vs| - 1].id) then Some(vs[|vs| - 1].value)
    else AsOf(vs[..|vs| - 1], vis)
  }

  /** What a snapshot reads from a newest version and its deltas. */
  function Reads(id: Id, v: seq<byte>, ds: seq<Delta>, vis: Id -> bool): (r: Option<seq<byte>>)
    requires DeltasOk(ds, |v|)
  {
    AsOf(VersionsOf(id, v, ds), vis)
  }

  method UndoInPlace(d: Delta, value: array<byte>)
    requires DeltaOk(d, value.Length)
    modifies value
    ensures value[..] == Undo(d, old(value[..]))
  {
    ApplyDiff(d.slots, value, d.diff);
  }

  /** reconstructTuple: walks back through the deltas until a version is visible. */
  method ReconstructTuple(id: Id, v: seq<byte>, ds: seq<Delta>, vis: Id -> bool) returns (r: Option<seq<byte>>)
    requires DeltasOk(ds, |v|)
    ensures r == Reads(id, v, ds, vis)
  {
    if vis(id) {
      return Some(v);
    }
    var value := new byte[|v|](k requires 0 <= k < |v| => v[k]);
    assert value[..] == v;
    var i := |ds|;
    ghost var cur := id;
    assert ds[..i] == ds;
    while i > 0
      invariant 0 <= i <= |ds| && value.Length == |v| && !vis(cur)
      invariant Reads(id, v, ds, vis) == ReadsUpTo(cur, value[..], ds, i, vis)
    {
      i := i - 1;
      WalkUpTo(cur, value[..], ds, i, vis);
      UndoInPlace(ds[i], value);
      cur := ds[i].id;
      if vis(ds[i].id) {
        return Some(value[..]);
      }
    }
    WalkEnds(cur, value[..], vis);
    r := None;
  }

  /** What is read when only the i oldest deltas are left. */
  ghost function ReadsUpTo(id: Id, v: seq<byte>, ds: seq<Delta>, i: nat, vis: Id -> bool): (r: Option<seq<byte>>)
    requires DeltasOk(ds, |v|) && i <= |ds|
  {
    Reads(id, v, ds[..i], vis)
  }

  lemma WalkUpTo(id: Id, v: seq<byte>, ds: seq<Delta>, i: nat, vis: Id -> bool)
    requires DeltasOk(ds, |v|) && i < |ds| && !vis(id)
    ensures ReadsUpTo(id, v, ds, i + 1, vis) == ReadsUpTo(ds[i].id, Undo(ds[i], v), ds, i, vis)
    ensures vis(ds[i].id) ==> ReadsUpTo(id, v, ds, i + 1, vis) == Some(Undo(ds[i], v))
  {
    WalkBack(id, v, ds[i], ds[..i], vis);
    assert ds[..i + 1] == ds[..i] + [ds[i]];
  }

  lemma WalkEnds(id: Id, v: seq<byte>, vis: Id -> bool)
    ensures Reads(id, v, [], vis) == if vis(id) then Some(v) else None
  {
    AsOfLast([], Version(id, v), vis);
  }

  lemma AsOfLast(vs: seq<Version>, x: Version, vis: Id -> bool)
    ensures AsOf(vs + [x], vis) == if vis(x.id) then Some(x.value) else AsOf(vs, vis)
  {
    assert (vs + [x])[..|vs|] == vs;
  }

  lemma ReadsHead(id: Id, v: seq<byte>, ds: seq<Delta>, vis: Id -> bool)
    requires DeltasOk(ds, |v|) && vis(id)
    ensures Reads(id, v, ds, vis) == Some(v)
  {
  }

  lemma WalkBack(id: Id, v: seq<byte>, d: Delta, ds: seq<Delta>, vis: Id -> bool)
    requires DeltasOk(ds, |v|) && DeltaOk(d, |v|) && !vis(id)
    ensures DeltasOk(ds + [d], |v|)
    ensures Reads(id, v, ds + [d], vis) == Reads(d.id, Undo(d, v), ds, vis)
    ensures vis(d.id) ==> Reads(id, v, ds + [d], vis) == Some(Undo(d, v))
  {
    assert (ds + [d])[..|ds|] == ds;
    AsOfLast(VersionsOf(d.id, Undo(d, v), ds), Version(id, v), vis);
    if vis(d.id) {
      ReadsHead(d.id, Undo(d, v), ds, vis);
    }
  }

  lemma {:induction false} AsOfSplit(a: seq<Version>, b: seq<Version>, vis: Id -> bool)
    ensures AsOf(a + b, vis) == if AsOf(b, vis).Some? then AsOf(b, vis) else AsOf(a, vis)
    decreases |b|
  {
    if b == [] {
      assert a + b == a;
    } else {
      var n := |b| - 1;
      AsOfSplit(a, b[..n], vis);
      assert (a + b)[..|a| + n] == a + b[..n];
    }
  }

  lemma {:induction false} AsOfSome(vs: seq<Version>, vis: Id -> bool, i: nat)
    requires i < |vs| && vis(vs[i].id)
    ensures AsOf(vs, vis).Some?
    decreases |vs|
  {
    if !vis(vs[|vs| - 1].id) {
      AsOfSome(vs[..|vs| - 1], vis, i);
    }
  }

  /** Version j is the newest one that the reader sees. */
  ghost predicate Newest(vs: seq<Version>, vis: Id -> bool, j: nat) {
    j < |vs| && vis(vs[j].id) && forall i | j < i < |vs| :: !vis(vs[i].id)
  }

  lemma {:induction false} AsOfNewest(vs: seq<Version>, vis: Id -> bool, j: nat)
    requires Newest(vs, vis, j)
    ensures AsOf(vs, vis) == Some(vs[j].value)
    decreases |vs|
  {
    var n := |vs| - 1;
    if j < n {
      assert !vis(vs[n].id);
      AsOfNewest(vs[..n], vis, j);
    }
  }

  lemma {:induction false} AsOfNone(vs: seq<Version>, vis: Id -> bool)
    requires forall i | 0 <= i < |vs| :: !vis(vs[i].id)
    ensures AsOf(vs, vis).None?
    decreases |vs|
  {
    if vs != [] {
      AsOfNone(vs[..|vs| - 1], vis);
    }
  }

  lemma VersionsLast(id: Id, v: seq<byte>, ds: seq<Delta>, d: Delta)
    requires DeltasOk(ds, |v|) && DeltaOk(d, |v|)
    ensures DeltasOk(ds + [d], |v|)
    ensures VersionsOf(id, v, ds + [d]) == VersionsOf(d.id, Undo(d, v), ds) + [Version(id, v)]
  {
    assert (ds + [d])[..|ds|] == ds;
  }

  lemma DropFirst(vs: seq<Version>, x: Version, c: nat)
    requires c <= |vs|
    ensures (vs + [x])[c..] == vs[c..] + [x]
  {
  }

  lemma SuffixParts(ds: seq<Delta>, c: nat, from: seq<Delta>)
    requires c < |ds| && from == ds[c..]
    ensures from != [] && from[|from| - 1] == ds[|ds| - 1] && from[..|from| - 1] == ds[..|ds| - 1][c..]
  {
  }

  /** Dropping the oldest deltas drops the oldest versions. */
  lemma {:induction false} VersionsSuffix(id: Id, v: seq<byte>, ds: seq<Delta>, c: nat, from: seq<Delta>)
    requires DeltasOk(ds, |v|) && c <= |ds| && from == ds[c..] && DeltasOk(from, |v|)
    ensures VersionsOf(id, v, from) == VersionsOf(id, v, ds)[c..]
    decreases |ds|
  {
    if c < |ds| {
      var (rest, d) := (ds[..|ds| - 1], ds[|ds| - 1]);
      SuffixParts(ds, c, from);
      VersionsSuffix(d.id, Undo(d, v), rest, c, from[..|from| - 1]);
      DropFirst(VersionsOf(d.id, Undo(d, v), rest), Version(id, v), c);
    }
  }

  // ----- merging deltas

  /** Deltas applied newest first. */
  function UndoAll(zone: seq<Delta>, v: seq<byte>): (r: seq<byte>)
    requires DeltasOk(zone, |v|)
    ensures |r| == |v|
  {
    if zone == [] then v else Undo(zone[0], UndoAll(zone[1..], v))
  }

  /** The slots of one delta with their bytes. */
  function DeltaMap(slots: seq<Slot>, diff: seq<byte>): (m: map<Slot, seq<byte>>)
    requires |diff| == DiffLength(slots)
    ensures forall s :: s in m <==> s in slots
    ensures forall s | s in m :: |m[s]| == s.length
  {
    if slots == [] then map[]
    else
      var n := |slots| - 1;
      assert slots == slots[..n] + [slots[n]];
      DeltaMap(slots[..n], diff[..DiffLength(slots[..n])])[slots[n] := diff[DiffLength(slots[..n])..]]
  }

  /** slots_map: newest to oldest, so that the oldest bytes of a slot win. */
  function ZoneMap(zone: seq<Delta>): (m: map<Slot, seq<byte>>)
    requires LengthsOk(zone)
    ensures forall s | s in m :: |m[s]| == s.length
  {
    if zone == [] then map[] else ZoneMap(zone[1..]) + DeltaMap(zone[0].slots, zone[0].diff)
  }

  /** The bytes of the slots, in the order given. */
  function Concat(slots: seq<Slot>, m: map<Slot, seq<byte>>): (r: seq<byte>)
    requires forall s | s in slots :: s in m && |m[s]| == s.length
    ensures |r| == DiffLength(slots)
  {
    if slots == [] then [] else Concat(slots[..|slots| - 1], m) + m[slots[|slots| - 1]]
  }

  predicate NoRepeats(slots: seq<Slot>) {
    forall i, j | 0 <= i < j < |slots| :: slots[i] != slots[j]
  }

  /** The keys of the map, in whatever order it iterates. */
  ghost predicate Lists(listed: seq<Slot>, m: map<Slot, seq<byte>>) {
    NoRepeats(listed) && forall s :: s in listed <==> s in m
  }

  /**
    One delta for a zone: the writer of its oldest, and the slots of the map with their bytes. The descriptor counts
    its slots in a byte: when that wraps, only the first ones count, and slots have been written over the bytes.
   */
  ghost predicate MergedFrom(zone: seq<Delta>, m: Delta, listed: seq<Slot>)
    requires zone != [] && LengthsOk(zone)
  {
    && m.id == zone[0].id && Lists(listed, ZoneMap(zone))
    && m.slots == listed[..Wrapped(|listed|)] && |m.diff| == DiffLength(m.slots)
    && (|listed| <= 255 ==> m.diff == Concat(listed, ZoneMap(zone)))
  }

  ghost predicate IsMerge(zone: seq<Delta>, m: Delta)
    requires zone != [] && LengthsOk(zone)
  {
    exists listed :: MergedFrom(zone, m, listed)
  }

  /** Two slots are the same or share no byte. */
  predicate Apart(a: Slot, b: Slot) {
    a == b || a.length == 0 || b.length == 0 || a.offset + a.length <= b.offset || b.offset + b.length <= a.offset
  }

  ghost predicate AllApart(s: set<Slot>) {
    forall a, b | a in s && b in s :: Apart(a, b)
  }

  predicate Covers(s: Slot, p: nat) {
    s.offset <= p < s.offset + s.length
  }

  predicate Sized(sm: map<Slot, seq<byte>>) {
    forall s | s in sm :: |sm[s]| == s.length
  }

  /** The byte of slot s at position p. */
  function ByteAt(sm: map<Slot, seq<byte>>, s: Slot, p: nat): (b: byte)
    requires Sized(sm) && s in sm && Covers(s, p)
  {
    sm[s][p - s.offset]
  }

  /** Slots that share a byte have the same byte there. */
  ghost predicate Agreeing(sm: map<Slot, seq<byte>>)
    requires Sized(sm)
  {
    forall a, b, p: nat | a in sm && b in sm && Covers(a, p) && Covers(b, p) :: ByteAt(sm, a, p) == ByteAt(sm, b, p)
  }

  /** Slots that are the same or disjoint agree. */
  lemma ApartAgree(sm: map<Slot, seq<byte>>)
    requires Sized(sm) && AllApart(sm.Keys)
    ensures Agreeing(sm)
  {
    forall a, b, p: nat | a in sm && b in sm && Covers(a, p) && Covers(b, p)
      ensures ByteAt(sm, a, p) == ByteAt(sm, b, p)
    {
      assert Apart(a, b);
    }
  }

  /** pm has a byte for exactly the positions that slots of sm cover, and takes each from one of them. */
  ghost predicate Reflects(pm: map<nat, byte>, sm: map<Slot, seq<byte>>) {
    && Sized(sm)
    && (forall s, p: nat | s in sm && Covers(s, p) :: p in pm)
    && (forall p | p in pm :: exists s :: s in sm && Covers(s, p) && pm[p] == ByteAt(sm, s, p))
  }

  lemma ReflectsSame(a: map<nat, byte>, b: map<nat, byte>, sm: map<Slot, seq<byte>>)
    requires Reflects(a, sm) && Reflects(b, sm) && Agreeing(sm)
    ensures forall p | p in a :: p in b && a[p] == b[p]
  {
    forall p | p in a
      ensures p in b && a[p] == b[p]
    {
      var s :| s in sm && Covers(s, p) && a[p] == ByteAt(sm, s, p);
      var r :| r in sm && Covers(r, p) && b[p] == ByteAt(sm, r, p);
    }
  }

  lemma ReflectsUnique(a: map<nat, byte>, b: map<nat, byte>, sm: map<Slot, seq<byte>>)
    requires Reflects(a, sm) && Reflects(b, sm) && Agreeing(sm)
    ensures a == b
  {
    ReflectsSame(a, b, sm);
    ReflectsSame(b, a, sm);
  }

  lemma ReflectsSum(a: map<nat, byte>, sa: map<Slot, seq<byte>>, b: map<nat, byte>, sb: map<Slot, seq<byte>>)
    requires Reflects(a, sa) && Reflects(b, sb)
    ensures Reflects(a + b, sa + sb)
  {
    var (pm, sm) := (a + b, sa + sb);
    forall p | p in pm
      ensures exists s :: s in sm && Covers(s, p) && pm[p] == ByteAt(sm, s, p)
    {
      if p in b {
        var s :| s in sb && Covers(s, p) && b[p] == ByteAt(sb, s, p);
        assert s in sm;
      } else {
        var s :| s in sa && Covers(s, p) && a[p] == ByteAt(sa, s, p);
        assert s in sm && s !in sb;
      }
    }
  }

  lemma PosMapOne(pos: seq<nat>, p: nat, d: seq<byte>, x: byte)
    requires |d| == |pos|
    ensures PosMap(pos + [p], d + [x]) == PosMap(pos, d)[p := x]
  {
    assert (pos + [p])[..|pos|] == pos && (d + [x])[..|pos|] == d;
  }

  lemma PutSum(a: map<nat, byte>, b: map<nat, byte>, p: nat, x: byte)
    ensures (a + b)[p := x] == a + b[p := x]
  {
  }

  lemma {:induction false} PosMapAppend(a: seq<nat>, b: seq<nat>, d: seq<byte>, e: seq<byte>)
    requires |d| == |a| && |e| == |b|
    ensures PosMap(a + b, d + e) == PosMap(a, d) + PosMap(b, e)
    decreases |b|
  {
    if b == [] {
      assert a + b == a && d + e == d;
    } else {
      var n := |b| - 1;
      PosMapAppend(a, b[..n], d, e[..n]);
      PosMapAppendOne(a, b[..n], b[n], d, e[..n], e[n], b, e);
    }
  }

  lemma PosMapAppendOne(a: seq<nat>, b': seq<nat>, p: nat, d: seq<byte>, e': seq<byte>, x: byte, b: seq<nat>,
                        e: seq<byte>)
    requires |d| == |a| && |e'| == |b'| && b == b' + [p] && e == e' + [x]
    requires PosMap(a + b', d + e') == PosMap(a, d) + PosMap(b', e')
    ensures PosMap(a + b, d + e) == PosMap(a, d) + PosMap(b, e)
  {
    PosMapOne(a + b', p, d + e', x);
    PosMapOne(b', p, e', x);
    PutSum(PosMap(a, d), PosMap(b', e'), p, x);
    assert a + b == (a + b') + [p] && d + e == (d + e') + [x];
  }

  lemma {:induction false} PosMapRange(offset: nat, d: seq<byte>, p: nat)
    requires offset <= p < offset + |d|
    ensures p in Range(offset, |d|) && PosMap(Range(offset, |d|), d)[p] == d[p - offset]
    decreases |d|
  {
    var n := |d| - 1;
    assert Range(offset, |d|)[p - offset] == p;
    assert Range(offset, |d|)[..n] == Range(offset, n);
    if p < offset + n {
      PosMapRange(offset, d[..n], p);
    }
  }

  lemma SlotReflects(s: Slot, d: seq<byte>)
    requires |d| == s.length
    ensures Reflects(PosMap(Range(s.offset, s.length), d), map[s := d])
  {
    var (pm, sm) := (PosMap(Range(s.offset, s.length), d), map[s := d]);
    forall t, p: nat | t in sm && Covers(t, p)
      ensures p in pm
    {
      PosMapRange(s.offset, d, p);
    }
    forall p | p in pm
      ensures exists t :: t in sm && Covers(t, p) && pm[p] == ByteAt(sm, t, p)
    {
      RangeCovers(s, p);
      PosMapRange(s.offset, d, p);
      assert s in sm;
    }
  }

  lemma RangeCovers(s: Slot, p: nat)
    requires p in Range(s.offset, s.length)
    ensures Covers(s, p)
  {
  }

  lemma DeltaMapSplit(slots: seq<Slot>, diff: seq<byte>)
    requires |diff| == DiffLength(slots) && slots != []
    ensures var (n, k) := (|slots| - 1, DiffLength(slots[..|slots| - 1]));
            && k <= |diff| && |diff[k..]| == slots[n].length
            && DeltaMap(slots, diff) == DeltaMap(slots[..n], diff[..k]) + map[slots[n] := diff[k..]]
  {
  }

  lemma PosMapSplit(slots: seq<Slot>, diff: seq<byte>)
    requires |diff| == DiffLength(slots) && slots != []
    ensures var (n, k) := (|slots| - 1, DiffLength(slots[..|slots| - 1]));
            var s := slots[n];
            && k <= |diff| && |diff[k..]| == s.length
            && PosMap(Positions(slots), diff)
               == PosMap(Positions(slots[..n]), diff[..k]) + PosMap(Range(s.offset, s.length), diff[k..])
  {
    var (n, k) := (|slots| - 1, DiffLength(slots[..|slots| - 1]));
    var s := slots[n];
    TakeDrop(diff, k);
    PosMapParts(Positions(slots[..n]), Range(s.offset, s.length), diff[..k], diff[k..], Positions(slots), diff);
  }

  lemma TakeDrop(s: seq<byte>, k: nat)
    requires k <= |s|
    ensures s == s[..k] + s[k..]
  {
  }

  lemma PosMapParts(a: seq<nat>, b: seq<nat>, d: seq<byte>, e: seq<byte>, pos: seq<nat>, diff: seq<byte>)
    requires |d| == |a| && |e| == |b| && pos == a + b && diff == d + e
    ensures PosMap(pos, diff) == PosMap(a, d) + PosMap(b, e)
  {
    PosMapAppend(a, b, d, e);
  }

  lemma {:induction false} DeltaReflects(slots: seq<Slot>, diff: seq<byte>)
    requires |diff| == DiffLength(slots)
    ensures Reflects(PosMap(Positions(slots), diff), DeltaMap(slots, diff))
    decreases |slots|
  {
    if slots != [] {
      var n := |slots| - 1;
      DeltaReflects(slots[..n], diff[..DiffLength(slots[..n])]);
      DeltaReflectsLast(slots, diff, slots[..n], slots[n], DiffLength(slots[..n]));
    }
  }

  lemma DeltaReflectsLast(slots: seq<Slot>, diff: seq<byte>, rest: seq<Slot>, s: Slot, k: nat)
    requires |diff| == DiffLength(slots)
    requires slots != [] && rest == slots[..|slots| - 1] && s == slots[|slots| - 1] && k == DiffLength(rest)
    requires Reflects(PosMap(Positions(rest), diff[..k]), DeltaMap(rest, diff[..k]))
    ensures Reflects(PosMap(Positions(slots), diff), DeltaMap(slots, diff))
  {
    DeltaMapSplit(slots, diff);
    PosMapSplit(slots, diff);
    SlotReflects(s, diff[k..]);
    var (sa, sb) := (DeltaMap(rest, diff[..k]), map[s := diff[k..]]);
    ReflectsSum(PosMap(Positions(rest), diff[..k]), sa, PosMap(Range(s.offset, s.length), diff[k..]), sb);
  }

  function ZonePos(zone: seq<Delta>): (m: map<nat, byte>)
    requires LengthsOk(zone)
  {
    if zone == [] then map[] else ZonePos(zone[1..]) + PosMap(Positions(zone[0].slots), zone[0].diff)
  }

  lemma {:induction false} UndoAllIsOverlay(zone: seq<Delta>, v: seq<byte>)
    requires DeltasOk(zone, |v|)
    ensures UndoAll(zone, v) == Overlay(v, ZonePos(zone))
    decreases |zone|
  {
    if zone != [] {
      var (d, rest) := (zone[0], zone[1..]);
      UndoAllIsOverlay(rest, v);
      FitsWithin(d.slots, |v|);
      ScatterIsOverlay(Positions(d.slots), UndoAll(rest, v), d.diff);
      OverlayTwice(v, ZonePos(rest), PosMap(Positions(d.slots), d.diff));
    }
  }

  function ZoneSlots(zone: seq<Delta>): (r: seq<Slot>) {
    if zone == [] then [] else ZoneSlots(zone[1..]) + zone[0].slots
  }

  lemma {:induction false} ZoneReflects(zone: seq<Delta>)
    requires LengthsOk(zone)
    ensures Reflects(ZonePos(zone), ZoneMap(zone)) && forall s :: s in ZoneMap(zone) <==> s in ZoneSlots(zone)
    decreases |zone|
  {
    if zone != [] {
      var (d, rest) := (zone[0], zone[1..]);
      ZoneReflects(rest);
      DeltaReflects(d.slots, d.diff);
      ReflectsSum(ZonePos(rest), ZoneMap(rest), PosMap(Positions(d.slots), d.diff), DeltaMap(d.slots, d.diff));
    }
  }

  lemma {:induction false} DeltaMapOfConcat(slots: seq<Slot>, m: map<Slot, seq<byte>>)
    requires NoRepeats(slots) && forall s | s in slots :: s in m && |m[s]| == s.length
    ensures forall s | s in slots :: DeltaMap(slots, Concat(slots, m))[s] == m[s]
    decreases |slots|
  {
    if slots != [] {
      var n := |slots| - 1;
      DeltaMapOfConcat(slots[..n], m);
      assert Concat(slots, m)[..DiffLength(slots[..n])] == Concat(slots[..n], m);
      assert Concat(slots, m)[DiffLength(slots[..n])..] == m[slots[n]];
    }
  }

  /** The slots of a zone. */
  function SlotSet(zone: seq<Delta>): (r: set<Slot>) {
    set s | s in ZoneSlots(zone)
  }

  /** The slots of the map are the slots of the zone. */
  lemma {:induction false} ZoneMapKeys(zone: seq<Delta>)
    requires LengthsOk(zone)
    ensures forall s :: s in ZoneMap(zone) <==> s in ZoneSlots(zone)
    decreases |zone|
  {
    if zone != [] {
      ZoneMapKeys(zone[1..]);
    }
  }

  lemma {:induction false} ListLength(listed: seq<Slot>, all: set<Slot>)
    requires NoRepeats(listed) && forall s :: s in listed <==> s in all
    ensures |listed| == |all|
    decreases |listed|
  {
    if listed == [] {
      assert all == {};
    } else {
      var (n, x) := (|listed| - 1, listed[|listed| - 1]);
      assert listed == listed[..n] + [x];
      forall s
        ensures s in listed[..n] <==> s in all - {x}
      {
      }
      ListLength(listed[..n], all - {x});
    }
  }

  lemma MergeLength(zone: seq<Delta>, m: Delta, listed: seq<Slot>)
    requires zone != [] && LengthsOk(zone) && MergedFrom(zone, m, listed)
    ensures |listed| == |SlotSet(zone)| && forall s :: s in listed <==> s in SlotSet(zone)
  {
    ZoneMapKeys(zone);
    ListLength(listed, SlotSet(zone));
  }

  /** With up to 255 slots, the merged delta has the zone's slots, with the zone's bytes. */
  lemma MergeMap(zone: seq<Delta>, m: Delta)
    requires zone != [] && LengthsOk(zone) && IsMerge(zone, m) && |SlotSet(zone)| <= 255
    ensures |m.diff| == DiffLength(m.slots) && DeltaMap(m.slots, m.diff) == ZoneMap(zone)
  {
    var listed :| MergedFrom(zone, m, listed);
    MergeLength(zone, m, listed);
    TakeAll(listed, |listed|);
    ListedMap(m.slots, ZoneMap(zone));
  }

  lemma TakeAll(s: seq<Slot>, n: nat)
    requires n == |s|
    ensures s[..n] == s
  {
  }

  /** A delta with every slot of a map has the map's bytes. */
  lemma ListedMap(slots: seq<Slot>, m: map<Slot, seq<byte>>)
    requires Lists(slots, m) && forall s | s in m :: |m[s]| == s.length
    ensures DeltaMap(slots, Concat(slots, m)) == m
  {
    DeltaMapOfConcat(slots, m);
  }

  lemma MergePos(zone: seq<Delta>, m: Delta)
    requires zone != [] && LengthsOk(zone) && IsMerge(zone, m) && |SlotSet(zone)| <= 255 && Agreeing(ZoneMap(zone))
    ensures |m.diff| == DiffLength(m.slots) && PosMap(Positions(m.slots), m.diff) == ZonePos(zone)
  {
    MergeMap(zone, m);
    ZoneReflects(zone);
    DeltaReflects(m.slots, m.diff);
    ReflectsUnique(PosMap(Positions(m.slots), m.diff), ZonePos(zone), ZoneMap(zone));
  }

  /**
    A merged delta of up to 255 slots that agree undoes exactly what the deltas of its zone undo one after the other.
   */
  lemma MergeUndoesAll(zone: seq<Delta>, m: Delta, v: seq<byte>)
    requires zone != [] && DeltasOk(zone, |v|) && IsMerge(zone, m)
    requires |SlotSet(zone)| <= 255 && Agreeing(ZoneMap(zone))
    ensures DeltaOk(m, |v|) && Undo(m, v) == UndoAll(zone, v)
  {
    MergeFits(zone, m, |v|);
    MergePos(zone, m);
    UndoAllIsOverlay(zone, v);
    FitsWithin(m.slots, |v|);
    ScatterIsOverlay(Positions(m.slots), v, m.diff);
  }

  lemma MergeFits(zone: seq<Delta>, m: Delta, n: nat)
    requires zone != [] && DeltasOk(zone, n) && IsMerge(zone, m)
    ensures DeltaOk(m, n)
  {
    ZoneMapKeys(zone);
    ZoneSlotsFit(zone, n);
    var listed :| MergedFrom(zone, m, listed);
    forall i | 0 <= i < |m.slots|
      ensures m.slots[i].offset + m.slots[i].length <= n
    {
      assert m.slots[i] == listed[i] && listed[i] in ZoneSlots(zone);
    }
  }

  lemma {:induction false} ZoneSlotsFit(zone: seq<Delta>, n: nat)
    requires DeltasOk(zone, n)
    ensures forall s | s in ZoneSlots(zone) :: s.offset + s.length <= n
    decreases |zone|
  {
    if zone != [] {
      ZoneSlotsFit(zone[1..], n);
      forall s | s in zone[0].slots
        ensures s.offset + s.length <= n
      {
        var i :| 0 <= i < |zone[0].slots| && zone[0].slots[i] == s;
      }
    }
  }

  // ----- exactly when merging is right

  /** Merging undoes what the zone undoes, on every value of n bytes and in every order of the slots. */
  ghost predicate MergesRight(zone: seq<Delta>, n: nat)
    requires zone != [] && DeltasOk(zone, n)
  {
    forall m, v: seq<byte> | IsMerge(zone, m) && |v| == n :: UndoesSame(zone, m, v)
  }

  ghost predicate UndoesSame(zone: seq<Delta>, m: Delta, v: seq<byte>)
    requires zone != [] && DeltasOk(zone, |v|) && IsMerge(zone, m)
  {
    MergeFits(zone, m, |v|);
    Undo(m, v) == UndoAll(zone, v)
  }

  ghost predicate AllEmpty(slots: set<Slot>) {
    forall s | s in slots :: s.length == 0
  }

  lemma {:induction false} EmptyUndo(slots: seq<Slot>)
    requires forall i | 0 <= i < |slots| :: slots[i].length == 0
    ensures Positions(slots) == []
    decreases |slots|
  {
    if slots != [] {
      EmptyUndo(slots[..|slots| - 1]);
    }
  }

  lemma {:induction false} EmptyUndoAll(zone: seq<Delta>, v: seq<byte>)
    requires DeltasOk(zone, |v|) && AllEmpty(SlotSet(zone))
    ensures UndoAll(zone, v) == v
    decreases |zone|
  {
    if zone != [] {
      assert forall s | s in SlotSet(zone[1..]) :: s in SlotSet(zone);
      EmptyUndoAll(zone[1..], v);
      forall i | 0 <= i < |zone[0].slots|
        ensures zone[0].slots[i].length == 0
      {
        assert zone[0].slots[i] in SlotSet(zone);
      }
      EmptyUndo(zone[0].slots);
    }
  }

  lemma EmptyMerges(zone: seq<Delta>, m: Delta, v: seq<byte>)
    requires zone != [] && DeltasOk(zone, |v|) && IsMerge(zone, m) && AllEmpty(SlotSet(zone))
    ensures UndoesSame(zone, m, v)
  {
    MergeFits(zone, m, |v|);
    EmptyUndoAll(zone, v);
    var listed :| MergedFrom(zone, m, listed);
    MergeLength(zone, m, listed);
    forall i | 0 <= i < |m.slots|
      ensures m.slots[i].length == 0
    {
      assert m.slots[i] == listed[i];
    }
    EmptyUndo(m.slots);
  }

  /** An order of the slots. */
  lemma {:induction false} SomeOrder(all: set<Slot>) returns (listed: seq<Slot>)
    ensures NoRepeats(listed) && forall s :: s in listed <==> s in all
    decreases |all|
  {
    listed := [];
    if all != {} {
      var x :| x in all;
      listed := SomeOrder(all - {x});
      listed := listed + [x];
    }
  }

  /** Any slot can come last in the order. */
  lemma OrderWithLast(all: set<Slot>, x: Slot) returns (front: seq<Slot>)
    requires x in all
    ensures NoRepeats(front + [x]) && forall s :: s in front + [x] <==> s in all
  {
    front := SomeOrder(all - {x});
  }

  /** And first. */
  lemma OrderWithFirst(all: set<Slot>, x: Slot) returns (rest: seq<Slot>)
    requires x in all
    ensures NoRepeats([x] + rest) && forall s :: s in [x] + rest <==> s in all
  {
    rest := SomeOrder(all - {x});
  }

  // ----- slots that disagree: the last one in the order wins

  lemma LastPos(front: seq<Slot>, x: Slot, m: map<Slot, seq<byte>>, p: nat)
    requires Sized(m) && (forall s | s in front :: s in m) && x in m && Covers(x, p)
    ensures Concat(front + [x], m) == Concat(front, m) + m[x]
    ensures p in Positions(front + [x])
    ensures PosMap(Positions(front + [x]), Concat(front + [x], m))[p] == ByteAt(m, x, p)
  {
    assert (front + [x])[..|front|] == front;
    PosMapAppend(Positions(front), Range(x.offset, x.length), Concat(front, m), m[x]);
    PosMapRange(x.offset, m[x], p);
  }

  /** A merge of up to 255 slots in this order. */
  lemma MergeInOrder(zone: seq<Delta>, n: nat, listed: seq<Slot>, m: Delta)
    requires zone != [] && DeltasOk(zone, n) && |SlotSet(zone)| <= 255 && Lists(listed, ZoneMap(zone))
    requires m == Delta(zone[0].id, listed, Concat(listed, ZoneMap(zone)))
    ensures IsMerge(zone, m) && DeltaOk(m, n)
  {
    ZoneMapKeys(zone);
    ListLength(listed, SlotSet(zone));
    TakeAll(listed, |listed|);
    assert MergedFrom(zone, m, listed);
    MergeFits(zone, m, n);
  }

  /** The merge with this slot last, on any value. */
  lemma MergeWithLast(zone: seq<Delta>, v: seq<byte>, x: Slot, p: nat) returns (m: Delta)
    requires zone != [] && DeltasOk(zone, |v|) && |SlotSet(zone)| <= 255 && x in ZoneMap(zone) && Covers(x, p)
    ensures IsMerge(zone, m) && DeltaOk(m, |v|) && p < |v| && Undo(m, v)[p] == ByteAt(ZoneMap(zone), x, p)
  {
    ZoneMapKeys(zone);
    ZoneSlotsFit(zone, |v|);
    var front := OrderWithLast(SlotSet(zone), x);
    var listed := front + [x];
    assert forall s | s in front :: s in listed;
    m := Delta(zone[0].id, listed, Concat(listed, ZoneMap(zone)));
    MergeInOrder(zone, |v|, listed, m);
    LastPos(front, x, ZoneMap(zone), p);
    FitsWithin(m.slots, |v|);
    ScatterIsOverlay(Positions(m.slots), v, m.diff);
  }

  /** Two slots with different bytes at p: one of the two orders is wrong. */
  lemma ClashMerges(zone: seq<Delta>, v: seq<byte>, a: Slot, b: Slot, p: nat) returns (m: Delta)
    requires zone != [] && DeltasOk(zone, |v|) && |SlotSet(zone)| <= 255
    requires a in ZoneMap(zone) && b in ZoneMap(zone) && Covers(a, p) && Covers(b, p)
    requires ByteAt(ZoneMap(zone), a, p) != ByteAt(ZoneMap(zone), b, p)
    ensures IsMerge(zone, m) && !UndoesSame(zone, m, v)
  {
    m := MergeWithLast(zone, v, a, p);
    if UndoesSame(zone, m, v) {
      m := MergeWithLast(zone, v, b, p);
    }
  }

  // ----- more slots than a byte can count

  lemma {:induction false} PosMapBytes(pos: seq<nat>, d: seq<byte>, c: byte, p: nat)
    requires |d| == |pos| && p in pos && forall k | 0 <= k < |d| :: d[k] == c
    ensures PosMap(pos, d)[p] == c
    decreases |pos|
  {
    var n := |pos| - 1;
    if pos[n] != p {
      PosMapBytes(pos[..n], d[..n], c, p);
    }
  }

  lemma {:induction false} CoveredPosition(slots: seq<Slot>, i: nat, p: nat)
    requires i < |slots| && Covers(slots[i], p)
    ensures p in Positions(slots)
    decreases |slots|
  {
    var n := |slots| - 1;
    if i == n {
      assert Range(slots[n].offset, slots[n].length)[p - slots[n].offset] == p;
    } else {
      CoveredPosition(slots[..n], i, p);
    }
  }

  /** A delta of equal bytes puts that byte wherever one of its slots is. */
  lemma EqualBytes(m: Delta, v: seq<byte>, i: nat, p: nat, c: byte)
    requires DeltaOk(m, |v|) && i < |m.slots| && Covers(m.slots[i], p)
    requires forall k | 0 <= k < |m.diff| :: m.diff[k] == c
    ensures p < |v| && Undo(m, v)[p] == c
  {
    CoveredPosition(m.slots, i, p);
    FitsWithin(m.slots, |v|);
    PosMapBytes(Positions(m.slots), m.diff, c, p);
    ScatterIsOverlay(Positions(m.slots), v, m.diff);
  }

  /** The byte that a zone puts at a position that it covers does not depend on the value. */
  lemma ZonePuts(zone: seq<Delta>, x: Slot, p: nat, v: seq<byte>)
    requires DeltasOk(zone, |v|) && x in SlotSet(zone) && Covers(x, p)
    ensures p < |v| && p in ZonePos(zone) && UndoAll(zone, v)[p] == ZonePos(zone)[p]
  {
    ZoneReflects(zone);
    ZoneSlotsFit(zone, |v|);
    UndoAllIsOverlay(zone, v);
  }

  /**
    More than 255 slots, x among them and not empty. If the count wraps to 0, nothing is undone; otherwise the first
    slots count, and nothing is known about their bytes.
   */
  lemma WrappedCountMerges(zone: seq<Delta>, n: nat, x: Slot) returns (m: Delta, v: seq<byte>)
    requires zone != [] && DeltasOk(zone, n) && |SlotSet(zone)| > 255 && x in SlotSet(zone) && x.length > 0
    ensures IsMerge(zone, m) && |v| == n && !UndoesSame(zone, m, v)
  {
    ZoneMapKeys(zone);
    var rest := OrderWithFirst(SlotSet(zone), x);
    var listed := [x] + rest;
    ListLength(listed, SlotSet(zone));
    ZonePuts(zone, x, x.offset, seq(n, _ => 0));
    var c := XorByte(ZonePos(zone)[x.offset], 1);
    v := seq(n, _ => c);
    m := WrappedMerge(zone, n, listed, c);
    WrappedUndo(zone, m, v, x, c);
  }

  /** A merge whose count has wrapped, with one byte all over. */
  lemma WrappedMerge(zone: seq<Delta>, n: nat, listed: seq<Slot>, c: byte) returns (m: Delta)
    requires zone != [] && DeltasOk(zone, n) && Lists(listed, ZoneMap(zone)) && |listed| > 255
    ensures IsMerge(zone, m) && DeltaOk(m, n) && m.slots == listed[..Wrapped(|listed|)]
    ensures forall k | 0 <= k < |m.diff| :: m.diff[k] == c
  {
    var slots := listed[..Wrapped(|listed|)];
    m := Delta(zone[0].id, slots, seq(DiffLength(slots), _ => c));
    assert MergedFrom(zone, m, listed);
    MergeFits(zone, m, n);
  }

  lemma WrappedUndo(zone: seq<Delta>, m: Delta, v: seq<byte>, x: Slot, c: byte)
    requires zone != [] && DeltasOk(zone, |v|) && IsMerge(zone, m) && DeltaOk(m, |v|)
    requires x in SlotSet(zone) && x.length > 0 && x.offset in ZonePos(zone) && c == XorByte(ZonePos(zone)[x.offset], 1)
    requires (forall k | 0 <= k < |v| :: v[k] == c) && (forall k | 0 <= k < |m.diff| :: m.diff[k] == c)
    requires m.slots == [] || m.slots[0] == x
    ensures !UndoesSame(zone, m, v)
  {
    ZonePuts(zone, x, x.offset, v);
    XorOneDiffers(ZonePos(zone)[x.offset]);
    if m.slots != [] {
      EqualBytes(m, v, 0, x.offset, c);
    }
  }

  /**
    Merging is right on all values and in all orders exactly when no slot of the zone holds a byte, or there are at
    most 255 and those that share a byte agree on it.
   */
  lemma MergeIff(zone: seq<Delta>, n: nat)
    requires zone != [] && DeltasOk(zone, n)
    ensures MergesRight(zone, n)
       <==> AllEmpty(SlotSet(zone)) || (|SlotSet(zone)| <= 255 && Agreeing(ZoneMap(zone)))
  {
    if AllEmpty(SlotSet(zone)) || (|SlotSet(zone)| <= 255 && Agreeing(ZoneMap(zone))) {
      forall m, v: seq<byte> | IsMerge(zone, m) && |v| == n
        ensures UndoesSame(zone, m, v)
      {
        if AllEmpty(SlotSet(zone)) {
          EmptyMerges(zone, m, v);
        } else {
          MergeUndoesAll(zone, m, v);
        }
      }
    } else {
      var m, v := SomeMergesWrong(zone, n);
      assert !UndoesSame(zone, m, v);
    }
  }

  lemma SomeMergesWrong(zone: seq<Delta>, n: nat) returns (m: Delta, v: seq<byte>)
    requires zone != [] && DeltasOk(zone, n) && !AllEmpty(SlotSet(zone))
    requires |SlotSet(zone)| > 255 || !Agreeing(ZoneMap(zone))
    ensures IsMerge(zone, m) && |v| == n && !UndoesSame(zone, m, v)
  {
    if |SlotSet(zone)| > 255 {
      var x :| x in SlotSet(zone) && x.length != 0;
      m, v := WrappedCountMerges(zone, n, x);
    } else {
      var sm := ZoneMap(zone);
      var a, b, p: nat :| a in sm && b in sm && Covers(a, p) && Covers(b, p) && ByteAt(sm, a, p) != ByteAt(sm, b, p);
      v := seq(n, _ => 0);
      m := ClashMerges(zone, v, a, b, p);
    }
  }

  /** An older delta on two bytes and a newer one on the first of them: one order of the map undoes the wrong byte. */
  lemma PartialOverlap(older: Id, newer: Id, a: byte, b: byte, c: byte, n: nat)
    requires a != c && n >= 2
    ensures var zone := [Delta(older, [Slot(0, 2)], [a, b]), Delta(newer, [Slot(0, 1)], [c])];
            DeltasOk(zone, n) && !MergesRight(zone, n)
  {
    var zone := [Delta(older, [Slot(0, 2)], [a, b]), Delta(newer, [Slot(0, 1)], [c])];
    OneSlotMap(Slot(0, 2), [a, b]);
    OneSlotMap(Slot(0, 1), [c]);
    assert zone[1..] == [zone[1]] && zone[1..][1..] == [];
    assert ZoneMap(zone[1..]) == map[Slot(0, 1) := [c]];
    var sm := ZoneMap(zone);
    assert sm == map[Slot(0, 1) := [c], Slot(0, 2) := [a, b]];
    ZoneMapKeys(zone);
    assert ByteAt(sm, Slot(0, 1), 0) == c && ByteAt(sm, Slot(0, 2), 0) == a;
    assert Slot(0, 2) in SlotSet(zone);
    MergeIff(zone, n);
  }

  lemma OneSlotMap(s: Slot, d: seq<byte>)
    requires |d| == s.length
    ensures DiffLength([s]) == s.length && DeltaMap([s], d) == map[s := d]
  {
    assert [s][..0] == [] && d[..0] == [] && d[0..] == d;
    assert DiffLength([s][..0]) == 0;
  }
}
