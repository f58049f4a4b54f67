/**
  Exactly when a running reader notices a garbage collection: tuples that are collected in a trap, and the condition.
 */
module GcNoticed {
  import opened Wrappers
  import opened CommitTree
  import opened Snapshot
  import opened SnapshotProof
  import opened SnapshotTheorems
  import opened SnapshotOlap
  import opened SnapshotRuns
  import opened SnapshotTraps
  import opened Diff
  import opened Versions
  import FatTupleGc
  import opened GcInRuns

  // ----- bytes of small tuples

  const FIRST := Slot(0, 1)
  const SECOND := Slot(1, 1)
  const BOTH := Slot(0, 2)

  lemma SlotPositions()
    ensures Positions([FIRST]) == [0] && DiffLength([FIRST]) == 1
    ensures Positions([SECOND]) == [1] && DiffLength([SECOND]) == 1
    ensures Positions([BOTH]) == [0, 1] && DiffLength([BOTH]) == 2
    ensures Positions([BOTH, FIRST]) == [0, 1, 0] && DiffLength([BOTH, FIRST]) == 3
  {
    OneSlotLength(FIRST);
    OneSlotLength(SECOND);
    OneSlotLength(BOTH);
    assert Range(0, 1) == [0] && Range(1, 1) == [1] && Range(0, 2) == [0, 1];
    assert [BOTH, FIRST][..1] == [BOTH];
  }

  lemma ScatterOneByte(p: nat, v: seq<byte>, b: byte)
    requires p < |v|
    ensures Scatter([p], v, [b]) == v[p := b]
  {
    assert [p][..0] == [] && [b][..0] == [];
  }

  lemma ScatterTwoBytes(v: seq<byte>, a: byte, b: byte)
    requires |v| == 2
    ensures Scatter([0, 1], v, [a, b]) == [a, b]
  {
    assert [0, 1][..1] == [0] && [a, b][..1] == [a];
    ScatterOneByte(0, v, a);
  }

  lemma ScatterThreeBytes(v: seq<byte>, a: byte, b: byte, c: byte)
    requires |v| == 2
    ensures Scatter([0, 1, 0], v, [a, b, c]) == [c, b]
  {
    assert [0, 1, 0][..2] == [0, 1] && [a, b, c][..2] == [a, b];
    ScatterTwoBytes(v, a, b);
  }

  /** Past an older version. */
  ghost predicate LeadsTo(d: Delta, v: seq<byte>, w: seq<byte>) {
    DeltaOk(d, |v|) && Undo(d, v) == w
  }

  lemma OneByteLeads(id: Id, slot: Slot, b: byte, v: seq<byte>)
    requires slot in {FIRST, SECOND} && slot.offset < |v|
    ensures LeadsTo(Delta(id, [slot], [b]), v, v[slot.offset := b])
  {
    SlotPositions();
    ScatterOneByte(slot.offset, v, b);
  }

  // ----- four versions: the second one is lost

  /** An older version of a one-byte tuple. */
  function Older(worker: nat, tx: nat, command: nat, b: byte): (d: Delta) {
    Delta(Id(worker, tx, command), [FIRST], [b])
  }

  lemma OlderLeads(worker: nat, tx: nat, command: nat, b: byte, v: seq<byte>)
    requires |v| == 1
    ensures LeadsTo(Older(worker, tx, command, b), v, [b])
  {
    OneByteLeads(Id(worker, tx, command), FIRST, b, v);
  }

  /** In a trap: worker 1 collects a tuple with two versions of worker 0 and two of its own. */
  function Lost(t: Times): (r: Collection) {
    Collection(1, Id(1, t.t5, 0), [4],
               [Older(0, t.t1, 0, 0), Older(0, t.t2, 0, 1), Older(1, t.t3, 0, 2), Older(1, t.t4, 1, 3)],
               [t.c1, t.c2, t.c3, t.c4], (id: Id) => false, Some((0, 2)),
               [Older(0, t.t1, 0, 0), Older(1, t.t3, 0, 2), Older(1, t.t4, 1, 3)])
  }

  lemma LostOk(t: Times)
    ensures DeltasOk(Lost(t).ds, 1) && DeltasOk(Lost(t).ds', 1)
  {
    OlderLeads(0, t.t1, 0, 0, [0]);
    OlderLeads(0, t.t2, 0, 1, [0]);
    OlderLeads(1, t.t3, 0, 2, [0]);
    OlderLeads(1, t.t4, 1, 3, [0]);
  }

  /** The zone of the two older versions merges to the oldest one. */
  lemma LostMerge(t1: nat, t2: nat)
    ensures var zone := [Older(0, t1, 0, 0), Older(0, t2, 0, 1)];
            LengthsOk(zone) && IsMerge(zone, Older(0, t1, 0, 0)) && FatTupleGc.Mergeable(zone)
  {
    var (a, b) := (Older(0, t1, 0, 0), Older(0, t2, 0, 1));
    var zone := [a, b];
    OneSlotMap(FIRST, [0]);
    OneSlotMap(FIRST, [1]);
    assert zone[1..] == [b] && [b][1..] == [];
    assert ZoneMap([b]) == ZoneMap([]) + DeltaMap([FIRST], [1]) == map[FIRST := [1]];
    assert ZoneMap(zone) == map[FIRST := [0]];
    OneSlotList(ZoneMap(zone), FIRST, [0]);
    assert MergedFrom(zone, a, [FIRST]);
    ZoneMapKeys(zone);
    assert SlotSet(zone) == {FIRST};
    ApartAgree(ZoneMap(zone));
  }

  lemma OneSlotList(m: map<Slot, seq<byte>>, s: Slot, d: seq<byte>)
    requires m == map[s := d] && |d| == s.length
    ensures Lists([s], m) && DiffLength([s]) == s.length && Concat([s], m) == d
  {
    OneSlotMap(s, d);
    assert [s][..0] == [];
    assert Concat([s][..0], m) == [];
  }

  /** The four deltas lie between the two timestamps, and the two oldest are merged. */
  lemma LostZone(t: Times, olap: nat, oltp: nat)
    requires olap < t.t1 < t.t2 < t.t3 <= t.t4 < oltp
    ensures FatTupleGc.IsZone(Lost(t).ds, 0, olap, oltp, Some((0, 2)))
    ensures FatTupleGc.Whole(Lost(t).ds, 2) <==> t.t3 != t.t4
  {
    var ds := Lost(t).ds;
    assert FatTupleGc.IsBound(ds, 0, olap, 0) && FatTupleGc.IsBound(ds, 0, oltp, 4);
  }

  lemma LostKept(t: Times)
    ensures LengthsOk(Lost(t).ds) && FatTupleGc.Kept(Lost(t).ds, 0, Some((0, 2)), Lost(t).ds') && !Clashes(Lost(t))
  {
    var r := Lost(t);
    LostOk(t);
    LostMerge(t.t1, t.t2);
    assert r.ds[0..2] == [Older(0, t.t1, 0, 0), Older(0, t.t2, 0, 1)];
    assert r.ds' == r.ds[0..0] + [r.ds'[0]] + r.ds[2..];
  }

  lemma LostCollected(t: Times, olap: nat, oltp: nat)
    requires olap < t.t1 < t.t2 < t.t3 <= t.t4 < oltp
    ensures var r := Lost(t);
            && LengthsOk(r.ds) && FatTupleGc.Collected(r.id, r.ds, r.all, olap, oltp, r.zone, r.ds')
            && !Clashes(r) && (Cuts(r) <==> t.t3 == t.t4)
  {
    LostZone(t, olap, oltp);
    LostKept(t);
    FatTupleGc.NothingDropped(Lost(t).ds, Lost(t).all, 4);
  }

  lemma LostTuple(v: World, t: Times)
    requires Shape(v.sys, v.hist) && Trap(v, t)
    ensures TupleOf(v, Lost(t).id, Lost(t).ds, Lost(t).commits) && Sees(v.sys, 1, Lost(t).id)
  {
    var r := Lost(t);
    LostSerial(t);
    forall i | 0 <= i < |r.ds|
      ensures WrittenBy(v.hist, r.ds[i].id, r.commits[i])
    {
      assert i == 0 || i == 1 || i == 2 || i == 3;
    }
  }

  lemma LostSerial(t: Times)
    requires t.t1 < t.c1 < t.t2 < t.c2 < t.t3 < t.c3 && t.t4 < t.c4 < t.t5
    requires t.c3 < t.t4 || (t.t3 == t.t4 && t.c3 == t.c4)
    ensures FatTupleGc.Serial(Lost(t).id, Lost(t).ds, Lost(t).commits)
  {
    var r := Lost(t);
    forall i | 0 <= i < |r.ds|
      ensures FatTupleGc.SerialAt(r.id, r.ds, r.commits, i)
    {
      assert i == 0 || i == 1 || i == 2 || i == 3;
    }
  }

  /** The values of the versions, oldest first, down to the newest one that the reader sees. */
  ghost predicate Path(id: Id, ds: seq<Delta>, vals: seq<seq<byte>>, k: nat, n: nat, vis: Id -> bool) {
    && |vals| == |ds| + 1 && k < |ds| && DeltasOk(ds, n) && |vals[|ds|]| == n && !vis(id) && vis(ds[k].id)
    && (forall i | k <= i < |ds| :: |vals[i]| == n && LeadsTo(ds[i], vals[i + 1], vals[i]))
    && (forall i | k < i < |ds| :: !vis(ds[i].id))
  }

  ghost predicate ReadsTo(id: Id, v: seq<byte>, ds: seq<Delta>, vis: Id -> bool, w: seq<byte>) {
    DeltasOk(ds, |v|) && Reads(id, v, ds, vis) == Some(w)
  }

  lemma {:induction false} ReadsAlong(id: Id, ds: seq<Delta>, vals: seq<seq<byte>>, k: nat, n: nat, vis: Id -> bool)
    requires Path(id, ds, vals, k, n, vis)
    ensures ReadsTo(id, vals[|ds|], ds, vis, vals[k])
    decreases |ds|
  {
    var m := |ds| - 1;
    var (d, rest) := (ds[m], ds[..m]);
    assert ds == rest + [d];
    WalkBack(id, vals[|ds|], d, rest, vis);
    if k < m {
      assert Path(d.id, rest, vals[..m + 1], k, n, vis);
      ReadsAlong(d.id, rest, vals[..m + 1], k, n, vis);
    }
  }

  /** A reader of the second version gets the first one after the collection. */
  lemma LostReads(t: Times, vis: Id -> bool)
    requires vis(Id(0, t.t1, 0)) && vis(Id(0, t.t2, 0))
    requires !vis(Id(1, t.t3, 0)) && !vis(Id(1, t.t4, 1)) && !vis(Id(1, t.t5, 0))
    ensures ReadsTo(Lost(t).id, [4], Lost(t).ds, vis, [1])
    ensures ReadsTo(Lost(t).id, [4], Lost(t).ds', vis, [0])
  {
    var r := Lost(t);
    LostOk(t);
    LostLeads(t);
    SecondOfFour(r.id, r.ds, vis);
    FirstOfThree(r.id, r.ds', vis);
  }

  lemma SecondOfFour(id: Id, ds: seq<Delta>, vis: Id -> bool)
    requires |ds| == 4 && DeltasOk(ds, 1) && vis(ds[1].id) && !vis(id) && !vis(ds[2].id) && !vis(ds[3].id)
    requires LeadsTo(ds[3], [4], [3]) && LeadsTo(ds[2], [3], [2]) && LeadsTo(ds[1], [2], [1])
    ensures ReadsTo(id, [4], ds, vis, [1])
  {
    var vals: seq<seq<byte>> := [[0], [1], [2], [3], [4]];
    forall i | 1 <= i < 4
      ensures LeadsTo(ds[i], vals[i + 1], vals[i]) && |vals[i]| == 1
    {
      assert i == 1 || i == 2 || i == 3;
    }
    ReadsAlong(id, ds, vals, 1, 1, vis);
  }

  lemma FirstOfThree(id: Id, ds: seq<Delta>, vis: Id -> bool)
    requires |ds| == 3 && DeltasOk(ds, 1) && vis(ds[0].id) && !vis(id) && !vis(ds[1].id) && !vis(ds[2].id)
    requires LeadsTo(ds[2], [4], [3]) && LeadsTo(ds[1], [3], [2]) && LeadsTo(ds[0], [2], [0])
    ensures ReadsTo(id, [4], ds, vis, [0])
  {
    var vals: seq<seq<byte>> := [[0], [2], [3], [4]];
    forall i | 0 <= i < 3
      ensures LeadsTo(ds[i], vals[i + 1], vals[i]) && |vals[i]| == 1
    {
      assert i == 0 || i == 1 || i == 2;
    }
    ReadsAlong(id, ds, vals, 0, 1, vis);
  }

  lemma LostLeads(t: Times)
    ensures var r := Lost(t);
            && LeadsTo(r.ds[3], [4], [3]) && LeadsTo(r.ds[2], [3], [2]) && LeadsTo(r.ds[1], [2], [1])
            && LeadsTo(r.ds[0], [2], [0])
  {
    OlderLeads(1, t.t4, 1, 3, [4]);
    OlderLeads(1, t.t3, 0, 2, [3]);
    OlderLeads(0, t.t2, 0, 1, [2]);
    OlderLeads(0, t.t1, 0, 0, [2]);
  }

  /** Worker 0 sees its own two versions and none of the later ones. */
  lemma TrapSees(v: World, t: Times)
    requires Reachable(v) && Inv(v.sys, v.hist) && Trap(v, t)
    ensures Sees(v.sys, 0, Id(0, t.t1, 0)) && Sees(v.sys, 0, Id(0, t.t2, 0))
    ensures !Sees(v.sys, 0, Id(1, t.t3, 0)) && !Sees(v.sys, 0, Id(1, t.t4, 1)) && !Sees(v.sys, 0, Id(1, t.t5, 0))
  {
    SeenIffCommitted(v, 0, Id(0, t.t1, 0), t.c1);
    SeenIffCommitted(v, 0, Id(0, t.t2, 0), t.c2);
    SeenIffCommitted(v, 0, Id(1, t.t3, 0), t.c3);
    SeenIffCommitted(v, 0, Id(1, t.t4, 1), t.c4);
    RunningIsUnseen(v, 0, Id(1, t.t5, 0));
  }

  /** The reader loses the version it needs and reads the one before. */
  lemma TrapReads(v: World, t: Times)
    requires Reachable(v) && Inv(v.sys, v.hist) && Trap(v, t)
    ensures !ReadsSame(v.sys, 0, Lost(t))
  {
    TrapSees(v, t);
    LostReads(t, Vision(v.sys, 0));
  }

  // ----- five versions: the oldest one is built from the wrong byte

  /** Behind an OLAP reader: worker 1 has written three times in transaction c + 3, then once in c + 5, and runs. */
  function Clashing(c: nat, z: nat): (r: Collection) {
    var (d0, d1) := (Delta(Id(0, c, 0), [SECOND], [5]), Delta(Id(1, c + 3, 0), [BOTH], [1, 6]));
    var (d2, d3) := (Delta(Id(1, c + 3, 1), [FIRST], [2]), Delta(Id(1, c + 3, 2), [SECOND], [7]));
    var d4 := Delta(Id(1, c + 5, 0), [SECOND], [8]);
    Collection(1, Id(1, z, 0), [3, 9], [d0, d1, d2, d3, d4], [c + 1, c + 4, c + 4, c + 4, c + 6],
               (id: Id) => false, Some((1, 3)), [d0, Delta(Id(1, c + 3, 0), [BOTH, FIRST], [1, 6, 2]), d3, d4])
  }

  lemma ClashingOk(c: nat, z: nat)
    ensures DeltasOk(Clashing(c, z).ds, 2) && DeltasOk(Clashing(c, z).ds', 2)
  {
    SlotPositions();
  }

  lemma ClashingMap(c: nat)
    ensures var zone := [Delta(Id(1, c + 3, 0), [BOTH], [1, 6]), Delta(Id(1, c + 3, 1), [FIRST], [2])];
            LengthsOk(zone) && ZoneMap(zone) == map[FIRST := [2], BOTH := [1, 6]]
  {
    var zone := [Delta(Id(1, c + 3, 0), [BOTH], [1, 6]), Delta(Id(1, c + 3, 1), [FIRST], [2])];
    OneSlotMap(BOTH, [1, 6]);
    OneSlotMap(FIRST, [2]);
    assert zone[1..] == [zone[1]] && zone[1..][1..] == [];
    assert ZoneMap(zone[1..]) == map[FIRST := [2]];
  }

  /** The map iterates over both bytes first. */
  lemma ClashingMerge(c: nat)
    ensures var zone := [Delta(Id(1, c + 3, 0), [BOTH], [1, 6]), Delta(Id(1, c + 3, 1), [FIRST], [2])];
            LengthsOk(zone) && IsMerge(zone, Delta(Id(1, c + 3, 0), [BOTH, FIRST], [1, 6, 2]))
  {
    var zone := [Delta(Id(1, c + 3, 0), [BOTH], [1, 6]), Delta(Id(1, c + 3, 1), [FIRST], [2])];
    ClashingMap(c);
    SlotPositions();
    var m := map[FIRST := [2], BOTH := [1, 6]];
    assert [BOTH, FIRST][..1] == [BOTH] && [BOTH][..0] == [];
    assert Concat([BOTH], m) == [] + [1, 6] == [1, 6];
    assert Concat([BOTH, FIRST], m) == [1, 6, 2];
    assert MergedFrom(zone, Delta(Id(1, c + 3, 0), [BOTH, FIRST], [1, 6, 2]), [BOTH, FIRST]);
  }

  lemma ClashingKept(c: nat, z: nat)
    ensures LengthsOk(Clashing(c, z).ds) && FatTupleGc.Kept(Clashing(c, z).ds, 0, Some((1, 3)), Clashing(c, z).ds')
  {
    var r := Clashing(c, z);
    ClashingOk(c, z);
    ClashingMerge(c);
    assert r.ds[1..3] == [r.ds[1], r.ds[2]];
    assert r.ds' == r.ds[0..1] + [r.ds'[1]] + r.ds[3..];
  }

  lemma ClashingCollected(c: nat, z: nat, oltp: nat)
    requires c + 5 < oltp
    ensures var r := Clashing(c, z);
            && LengthsOk(r.ds) && FatTupleGc.Collected(r.id, r.ds, r.all, c + 2, oltp, r.zone, r.ds') && !Cuts(r)
  {
    var ds := Clashing(c, z).ds;
    assert FatTupleGc.IsBound(ds, 0, c + 2, 1) && FatTupleGc.IsBound(ds, 0, oltp, 5);
    ClashingKept(c, z);
    FatTupleGc.NothingDropped(ds, Clashing(c, z).all, 5);
  }

  lemma ClashingTuple(v: World, c: nat, z: nat)
    requires Shape(v.sys, v.hist) && Behind(v, c, z)
    ensures TupleOf(v, Clashing(c, z).id, Clashing(c, z).ds, Clashing(c, z).commits)
    ensures Sees(v.sys, 1, Clashing(c, z).id)
  {
    var r := Clashing(c, z);
    assert v.hist[0][0] == Entry(c + 1, c) && v.hist[1][0] == Entry(c + 4, c + 3)
           && v.hist[1][1] == Entry(c + 6, c + 5);
    forall i | 0 <= i < |r.ds|
      ensures WrittenBy(v.hist, r.ds[i].id, r.commits[i]) && FatTupleGc.SerialAt(r.id, r.ds, r.commits, i)
    {
      assert i == 0 || i == 1 || i == 2 || i == 3 || i == 4;
    }
  }

  /** The last two versions are as before, the merged one has the newer of two bytes. */
  lemma ClashingLeads(c: nat, z: nat)
    ensures var r := Clashing(c, z);
            && LeadsTo(r.ds[4], [3, 9], [3, 8]) && LeadsTo(r.ds[3], [3, 8], [3, 7]) && LeadsTo(r.ds[2], [3, 7], [2, 7])
            && LeadsTo(r.ds[1], [2, 7], [1, 6]) && LeadsTo(r.ds[0], [1, 6], [1, 5])
            && LeadsTo(r.ds'[1], [3, 7], [2, 6]) && LeadsTo(r.ds[0], [2, 6], [2, 5])
  {
    SlotPositions();
    OneByteLeads(Id(1, c + 5, 0), SECOND, 8, [3, 9]);
    OneByteLeads(Id(1, c + 3, 2), SECOND, 7, [3, 8]);
    OneByteLeads(Id(1, c + 3, 1), FIRST, 2, [3, 7]);
    OneByteLeads(Id(0, c, 0), SECOND, 5, [1, 6]);
    OneByteLeads(Id(0, c, 0), SECOND, 5, [2, 6]);
    ScatterTwoBytes([2, 7], 1, 6);
    ScatterThreeBytes([3, 7], 1, 6, 2);
  }

  /** A reader of the oldest version alone. */
  ghost predicate SeesOldest(c: nat, z: nat, vis: Id -> bool) {
    && vis(Id(0, c, 0)) && !vis(Id(1, z, 0)) && !vis(Id(1, c + 5, 0))
    && !vis(Id(1, c + 3, 0)) && !vis(Id(1, c + 3, 1)) && !vis(Id(1, c + 3, 2))
  }

  lemma ClashingReads(c: nat, z: nat, vis: Id -> bool)
    requires SeesOldest(c, z, vis)
    ensures ReadsTo(Id(1, z, 0), [3, 9], Clashing(c, z).ds, vis, [1, 5])
    ensures ReadsTo(Id(1, z, 0), [3, 9], Clashing(c, z).ds', vis, [2, 5])
  {
    var r := Clashing(c, z);
    ClashingOk(c, z);
    ClashingLeads(c, z);
    OldestOfFive(r.id, r.ds, vis);
    OldestOfFour(r.id, r.ds', vis);
  }

  lemma OldestOfFive(id: Id, ds: seq<Delta>, vis: Id -> bool)
    requires |ds| == 5 && DeltasOk(ds, 2) && vis(ds[0].id) && !vis(id)
    requires !vis(ds[1].id) && !vis(ds[2].id) && !vis(ds[3].id) && !vis(ds[4].id)
    requires LeadsTo(ds[4], [3, 9], [3, 8]) && LeadsTo(ds[3], [3, 8], [3, 7]) && LeadsTo(ds[2], [3, 7], [2, 7])
    requires LeadsTo(ds[1], [2, 7], [1, 6]) && LeadsTo(ds[0], [1, 6], [1, 5])
    ensures ReadsTo(id, [3, 9], ds, vis, [1, 5])
  {
    var vals: seq<seq<byte>> := [[1, 5], [1, 6], [2, 7], [3, 7], [3, 8], [3, 9]];
    forall i | 0 <= i < 5
      ensures LeadsTo(ds[i], vals[i + 1], vals[i]) && |vals[i]| == 2
    {
      assert i == 0 || i == 1 || i == 2 || i == 3 || i == 4;
    }
    ReadsAlong(id, ds, vals, 0, 2, vis);
  }

  lemma OldestOfFour(id: Id, ds: seq<Delta>, vis: Id -> bool)
    requires |ds| == 4 && DeltasOk(ds, 2) && vis(ds[0].id) && !vis(id)
    requires !vis(ds[1].id) && !vis(ds[2].id) && !vis(ds[3].id)
    requires LeadsTo(ds[3], [3, 9], [3, 8]) && LeadsTo(ds[2], [3, 8], [3, 7]) && LeadsTo(ds[1], [3, 7], [2, 6])
    requires LeadsTo(ds[0], [2, 6], [2, 5])
    ensures ReadsTo(id, [3, 9], ds, vis, [2, 5])
  {
    var vals: seq<seq<byte>> := [[2, 5], [2, 6], [3, 7], [3, 8], [3, 9]];
    forall i | 0 <= i < 4
      ensures LeadsTo(ds[i], vals[i + 1], vals[i]) && |vals[i]| == 2
    {
      assert i == 0 || i == 1 || i == 2 || i == 3;
    }
    ReadsAlong(id, ds, vals, 0, 2, vis);
  }

  lemma BehindSees(v: World, c: nat, z: nat)
    requires Reachable(v) && Inv(v.sys, v.hist) && Behind(v, c, z)
    ensures SeesOldest(c, z, Vision(v.sys, 0))
  {
    assert v.hist[0][0] == Entry(c + 1, c) && v.hist[1][0] == Entry(c + 4, c + 3)
           && v.hist[1][1] == Entry(c + 6, c + 5);
    SeenIffCommitted(v, 0, Id(0, c, 0), c + 1);
    SeenIffCommitted(v, 0, Id(1, c + 3, 0), c + 4);
    SeenIffCommitted(v, 0, Id(1, c + 3, 1), c + 4);
    SeenIffCommitted(v, 0, Id(1, c + 3, 2), c + 4);
    SeenIffCommitted(v, 0, Id(1, c + 5, 0), c + 6);
    RunningIsUnseen(v, 0, Id(1, z, 0));
  }

  /** The reader of the oldest version gets the newer of two bytes. */
  lemma ClashReads(v: World, c: nat, z: nat)
    requires Reachable(v) && Inv(v.sys, v.hist) && Behind(v, c, z)
    ensures !ReadsSame(v.sys, 0, Clashing(c, z))
  {
    BehindSees(v, c, z);
    ClashingReads(c, z, Vision(v.sys, 0));
  }

  // ----- the exact condition

  /** A collection by one worker and a reader, in a run. */
  datatype Case = Case(worlds: seq<World>, actions: seq<Action>, h: nat, i: nat, j: nat, k: nat, me: nat, c: Collection)

  /**
    Which collections are looked at. torn: also those whose loads are both between two stores of a refresh; cuts: also
    those whose zone ends between two updates of one transaction; clashes: also those whose slots disagree or outnumber
    a byte.
   */
  datatype Scope = Scope(torn: bool, cuts: bool, clashes: bool)

  ghost predicate Occurs(n: nat, kinds: set<Class>, scope: Scope, x: Case) {
    && RunOf(n, kinds, x.worlds, x.actions) && x.k <= |x.actions| && Collects(x.worlds, x.h, x.i, x.j, x.k, x.c)
    && (scope.torn || !Torn(x.worlds, x.i, x.j)) && (scope.cuts || !Cuts(x.c)) && (scope.clashes || !Clashes(x.c))
    && x.me < |x.worlds[x.k].sys.workers| && x.worlds[x.k].sys.workers[x.me].phase.Active?
  }

  ghost predicate Same(x: Case) {
    x.k < |x.worlds| && ReadsSame(x.worlds[x.k].sys, x.me, x.c)
  }

  /** No running reader notices any collection, in runs of n workers with such refreshers. */
  ghost predicate Unnoticed(n: nat, kinds: set<Class>, scope: Scope) {
    forall x: Case | Occurs(n, kinds, scope, x) :: Same(x)
  }

  /** When worker 1 collects at the end of a run, with nothing visible for all. */
  lemma CollectsHere(n: nat, worlds: seq<World>, actions: seq<Action>, c: Collection)
    requires n >= 2 && Run(n, worlds, actions)
    requires var v := worlds[|actions|];
             && c.collector == 1 && 2 <= |v.sys.workers| && v.sys.workers[1].phase.Active? && v.sys.allLwm == 0
             && (forall id :: !c.all(id)) && DeltasOk(c.ds, |c.value|) && TupleOf(v, c.id, c.ds, c.commits)
             && Sees(v.sys, 1, c.id)
             && FatTupleGc.Collected(c.id, c.ds, c.all, v.sys.newestOlap, Loaded(v.sys.oldestOltp), c.zone, c.ds')
    ensures Collects(worlds, |actions|, |actions|, |actions|, |actions|, c)
  {
    var k := |actions|;
    forall id
      ensures AnswersFor(worlds, k, k, c.all, id)
    {
      assert c.all(id) <==> id.tx < worlds[k].sys.allLwm;
    }
  }

  lemma NotTornHere(worlds: seq<World>, k: nat)
    requires k < |worlds| && !Between(worlds[k].sys)
    ensures !Torn(worlds, k, k)
  {
    if Torn(worlds, k, k) {
      var w := TornAt(worlds, k, k);
    }
  }

  /** A collection at the end of a run that worker 0 notices. */
  lemma NoticedHere(n: nat, kinds: set<Class>, scope: Scope, worlds: seq<World>, actions: seq<Action>, c: Collection)
    requires RunOf(n, kinds, worlds, actions)
    requires var k := |actions|;
             && Collects(worlds, k, k, k, k, c) && (scope.torn || !Between(worlds[k].sys)) && (scope.cuts || !Cuts(c))
             && (scope.clashes || !Clashes(c)) && 0 < |worlds[k].sys.workers| && worlds[k].sys.workers[0].phase.Active?
             && !ReadsSame(worlds[k].sys, 0, c)
    ensures !Unnoticed(n, kinds, scope)
  {
    var k := |actions|;
    if !scope.torn {
      NotTornHere(worlds, k);
    }
    var x := Case(worlds, actions, k, k, k, k, 0, c);
    assert Occurs(n, kinds, scope, x) && !Same(x);
  }

  lemma TrapCollects(n: nat, worlds: seq<World>, actions: seq<Action>, v: World, t: Times)
    requires n >= 2 && Run(n, worlds, actions) && v == worlds[|actions|] && Inv(v.sys, v.hist) && Trap(v, t)
    ensures Collects(worlds, |actions|, |actions|, |actions|, |actions|, Lost(t))
    ensures !Clashes(Lost(t)) && (Cuts(Lost(t)) <==> t.t3 == t.t4)
  {
    LostOk(t);
    LostTuple(v, t);
    LostCollected(t, v.sys.newestOlap, Loaded(v.sys.oldestOltp));
    CollectsHere(n, worlds, actions, Lost(t));
  }

  lemma TrapIsNoticed(n: nat, kinds: set<Class>, scope: Scope, v: World, t: Times)
    requires n >= 2 && Reaches(n, kinds, v) && Trap(v, t)
    requires (scope.torn || !Between(v.sys)) && (scope.cuts || t.t3 != t.t4)
    ensures !Unnoticed(n, kinds, scope)
  {
    var worlds: seq<World>, actions: seq<Action> :| RunOf(n, kinds, worlds, actions) && v == worlds[|actions|];
    PrefixReachable(n, worlds, actions, |actions|);
    RunKeeps(n, worlds, actions, |actions|);
    TrapCollects(n, worlds, actions, v, t);
    TrapReads(v, t);
    NoticedHere(n, kinds, scope, worlds, actions, Lost(t));
  }

  lemma ClashCollects(n: nat, worlds: seq<World>, actions: seq<Action>, v: World, c: nat, z: nat)
    requires n >= 2 && Run(n, worlds, actions) && v == worlds[|actions|] && Inv(v.sys, v.hist) && Behind(v, c, z)
    ensures Collects(worlds, |actions|, |actions|, |actions|, |actions|, Clashing(c, z)) && !Cuts(Clashing(c, z))
  {
    ClashingOk(c, z);
    ClashingTuple(v, c, z);
    ClashingCollected(c, z, Loaded(v.sys.oldestOltp));
    CollectsHere(n, worlds, actions, Clashing(c, z));
  }

  lemma ClashIsNoticed(n: nat, kinds: set<Class>, scope: Scope, v: World, c: nat, z: nat)
    requires n >= 2 && Reaches(n, kinds, v) && Behind(v, c, z) && !Between(v.sys) && scope.clashes
    ensures !Unnoticed(n, kinds, scope)
  {
    var worlds: seq<World>, actions: seq<Action> :| RunOf(n, kinds, worlds, actions) && v == worlds[|actions|];
    PrefixReachable(n, worlds, actions, |actions|);
    RunKeeps(n, worlds, actions, |actions|);
    ClashCollects(n, worlds, actions, v, c, z);
    ClashReads(v, c, z);
    NoticedHere(n, kinds, scope, worlds, actions, Clashing(c, z));
  }

  /** No refresh is by an OLAP transaction; if there are refreshes, the scope leaves out what they make noticeable. */
  predicate Harmless(n: nat, kinds: set<Class>, scope: Scope) {
    Olap !in kinds && (Oltp in kinds ==> !scope.cuts && !scope.clashes && (scope.torn ==> n == 2))
  }

  lemma NoticedWhen(n: nat, kinds: set<Class>, scope: Scope)
    requires n >= 2 && !Harmless(n, kinds, scope)
    ensures !Unnoticed(n, kinds, scope)
  {
    if Olap in kinds {
      var v, t := OlapTrap(n, kinds);
      TrapIsNoticed(n, kinds, scope, v, t);
    } else if scope.cuts {
      var v, t := CutTrap(n, kinds);
      TrapIsNoticed(n, kinds, scope, v, t);
    } else if scope.clashes {
      var v, c, z := ClashTrap(n, kinds);
      ClashIsNoticed(n, kinds, scope, v, c, z);
    } else {
      var v, t := TornTrap(n, kinds);
      TrapIsNoticed(n, kinds, scope, v, t);
    }
  }

  lemma UnnoticedAt(n: nat, kinds: set<Class>, scope: Scope, x: Case)
    requires n >= 2 && Harmless(n, kinds, scope) && Occurs(n, kinds, scope, x)
    ensures Same(x)
  {
    if Oltp !in kinds {
      NothingTorn(n, x.worlds, x.actions, kinds, x.i, x.j);
      NothingMerged(n, x.worlds, x.actions, kinds, x.h, x.i, x.j, x.k, x.c);
    }
    if Torn(x.worlds, x.i, x.j) {
      TornOfTwo(kinds, x.worlds, x.actions, x.h, x.i, x.j, x.k, x.me, x.c);
    } else {
      CollectionInRuns(n, kinds, x.worlds, x.actions, x.h, x.i, x.j, x.k, x.me, x.c);
    }
  }

  /**
    The exact condition: no refresh is by an OLAP transaction and, if there are refreshes at all, no collection cuts a
    transaction apart, none has slots that clash, and with more than two workers none loads both timestamps between the
    two stores of one refresh.
   */
  lemma UnnoticedIff(n: nat, kinds: set<Class>, scope: Scope)
    requires n >= 2
    ensures Unnoticed(n, kinds, scope)
       <==> Olap !in kinds && (Oltp in kinds ==> !scope.cuts && !scope.clashes && (scope.torn ==> n == 2))
  {
    if Harmless(n, kinds, scope) {
      forall x: Case | Occurs(n, kinds, scope, x)
        ensures Same(x)
      {
        UnnoticedAt(n, kinds, scope, x);
      }
    } else {
      NoticedWhen(n, kinds, scope);
    }
  }
}
