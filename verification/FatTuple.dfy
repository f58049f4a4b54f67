/** The fat tuple in place: value, offset array growing up, deltas growing down, and the operations on them. */
module FatTuple {
  import opened Wrappers
  import opened Diff
  import opened Versions
  import opened FatTupleGc

  /** sizeof(Delta), sizeof of a descriptor without slots, of a slot, of an entry of the offset array. */
  const DELTA_HEADER: nat := 14
  const DESCRIPTOR_HEADER: nat := 2
  const SLOT_SIZE: nat := 4
  const OFFSET_SIZE: nat := 2

  /** UpdateSameSizeInPlaceDescriptor::totalLength plus the delta's header. */
  function SizeFor(slots: seq<Slot>): (r: nat) {
    DELTA_HEADER + DESCRIPTOR_HEADER + SLOT_SIZE * |slots| + DiffLength(slots)
  }

  function Sizes(ds: seq<Delta>): (r: nat) {
    if ds == [] then 0 else Sizes(ds[..|ds| - 1]) + SizeFor(ds[|ds| - 1].slots)
  }

  lemma SizesLast(ds: seq<Delta>, d: Delta)
    ensures Sizes(ds + [d]) == Sizes(ds) + SizeFor(d.slots)
  {
    assert (ds + [d])[..|ds|] == ds;
  }

  lemma {:induction false} SizesSplit(a: seq<Delta>, b: seq<Delta>)
    ensures Sizes(a + b) == Sizes(a) + Sizes(b)
    decreases |b|
  {
    if b == [] {
      assert a + b == a;
    } else {
      var n := |b| - 1;
      SizesSplit(a, b[..n]);
      assert (a + b)[..|a| + n] == a + b[..n];
    }
  }

  lemma SizesFrom(ds: seq<Delta>, c: nat, i: nat)
    requires c <= i <= |ds|
    ensures Sizes(ds[c..]) == Sizes(ds[c..i]) + Sizes(ds[i..])
  {
    SizesSplit(ds[c..i], ds[i..]);
    assert ds[c..] == ds[c..i] + ds[i..];
  }

  lemma SizesPrefix(ds: seq<Delta>, i: nat)
    requires i < |ds|
    ensures Sizes(ds[..i + 1]) == Sizes(ds[..i]) + SizeFor(ds[i].slots) <= Sizes(ds)
  {
    assert ds[..i + 1][..i] == ds[..i];
    SizesSplit(ds[..i + 1], ds[i + 1..]);
    assert ds == ds[..i + 1] + ds[i + 1..];
  }

  lemma SizesSlices(ds: seq<Delta>, c: nat, i: nat, j: nat)
    requires c <= i <= j <= |ds|
    ensures Sizes(ds) == Sizes(ds[..c]) + Sizes(ds[c..i]) + Sizes(ds[i..j]) + Sizes(ds[j..])
    ensures Sizes(ds) == Sizes(ds[..c]) + Sizes(ds[c..])
  {
    SizesFrom(ds, 0, c);
    assert ds[0..] == ds && ds[0..c] == ds[..c];
    SizesFrom(ds, c, i);
    SizesFrom(ds, i, j);
  }

  // ----- a merged delta is no larger than its zone

  function SlotCost(slots: seq<Slot>): (r: nat) {
    if slots == [] then 0 else SlotCost(slots[..|slots| - 1]) + SLOT_SIZE + slots[|slots| - 1].length
  }

  lemma {:induction false} SlotCostIs(slots: seq<Slot>)
    ensures SlotCost(slots) == SLOT_SIZE * |slots| + DiffLength(slots)
    decreases |slots|
  {
    if slots != [] {
      SlotCostIs(slots[..|slots| - 1]);
    }
  }

  lemma {:induction false} SlotCostSplit(a: seq<Slot>, b: seq<Slot>)
    ensures SlotCost(a + b) == SlotCost(a) + SlotCost(b)
    decreases |b|
  {
    if b == [] {
      assert a + b == a;
    } else {
      var n := |b| - 1;
      SlotCostSplit(a, b[..n]);
      assert (a + b)[..|a| + n] == a + b[..n];
    }
  }

  lemma SlotCostLast(l: seq<Slot>, front: seq<Slot>, x: Slot)
    requires l == front + [x]
    ensures SlotCost(l) == SlotCost(front) + SLOT_SIZE + x.length
  {
    assert l[..|front|] == front;
  }

  lemma SlotParts(l: seq<Slot>, k: nat)
    requires k < |l|
    ensures l == l[..k + 1] + l[k + 1..] && l[..k + 1] == l[..k] + [l[k]]
  {
  }

  lemma SlotCostAt(l: seq<Slot>, k: nat)
    requires k < |l|
    ensures SlotCost(l) == SlotCost(l[..k] + l[k + 1..]) + SLOT_SIZE + l[k].length
  {
    SlotParts(l, k);
    SlotCostSplit(l[..k], l[k + 1..]);
    SlotCostSplit(l[..k + 1], l[k + 1..]);
    SlotCostLast(l[..k + 1], l[..k], l[k]);
  }

  /** Slots without repeats, all of them in l, cost at most what l costs. */
  lemma {:induction false} SubCost(slots: seq<Slot>, l: seq<Slot>)
    requires NoRepeats(slots) && forall s | s in slots :: s in l
    ensures SlotCost(slots) <= SlotCost(l)
    decreases |slots|
  {
    if slots != [] {
      var n := |slots| - 1;
      assert slots[n] in l;
      var k :| 0 <= k < |l| && l[k] == slots[n];
      var l' := l[..k] + l[k + 1..];
      forall s | s in slots[..n]
        ensures s in l'
      {
        var i :| 0 <= i < n && slots[i] == s;
        assert s in slots;
        var j :| 0 <= j < |l| && l[j] == s;
        assert j < k ==> l'[j] == s;
        assert j > k ==> l'[j - 1] == s;
      }
      SubCost(slots[..n], l');
      SlotCostAt(l, k);
    }
  }

  lemma {:induction false} ZoneCost(zone: seq<Delta>)
    ensures Sizes(zone) == SlotCost(ZoneSlots(zone)) + (DELTA_HEADER + DESCRIPTOR_HEADER) * |zone|
    decreases |zone|
  {
    if zone != [] {
      ZoneCost(zone[1..]);
      SizesSplit(zone[..1], zone[1..]);
      assert zone == zone[..1] + zone[1..];
      assert Sizes(zone[..1]) == SizeFor(zone[0].slots);
      SlotCostIs(zone[0].slots);
      SlotCostSplit(ZoneSlots(zone[1..]), zone[0].slots);
    }
  }

  /** Space for all slots of a zone's map is no more than the zone takes. */
  lemma ListIsSmaller(zone: seq<Delta>, listed: seq<Slot>)
    requires zone != [] && LengthsOk(zone) && Lists(listed, ZoneMap(zone))
    ensures SizeFor(listed) <= Sizes(zone)
  {
    ZoneMapKeys(zone);
    SubCost(listed, ZoneSlots(zone));
    ZoneCost(zone);
    SlotCostIs(listed);
  }

  lemma PrefixIsSmaller(listed: seq<Slot>, k: nat)
    requires k <= |listed|
    ensures SizeFor(listed[..k]) <= SizeFor(listed) && (k < |listed| ==> SizeFor(listed[..k]) < SizeFor(listed))
  {
    SlotCostSplit(listed[..k], listed[k..]);
    assert listed == listed[..k] + listed[k..];
    SlotCostIs(listed);
    SlotCostIs(listed[..k]);
    SlotCostIs(listed[k..]);
  }

  /** A merged delta needs no more space than its zone. */
  lemma MergeIsSmaller(zone: seq<Delta>, m: Delta)
    requires zone != [] && LengthsOk(zone) && IsMerge(zone, m)
    ensures SizeFor(m.slots) <= Sizes(zone)
  {
    var listed :| MergedFrom(zone, m, listed);
    ListIsSmaller(zone, listed);
    PrefixIsSmaller(listed, Wrapped(|listed|));
  }

  // ----- merging, as the source does it

  /** slots_map of the zone: newest delta first, so older bytes overwrite newer ones. */
  method CollectSlots(zone: seq<Delta>) returns (m: map<Slot, seq<byte>>)
    requires LengthsOk(zone)
    ensures m == ZoneMap(zone)
  {
    m := map[];
    var i := |zone|;
    while i > 0
      invariant 0 <= i <= |zone|
      invariant m == ZoneMap(zone[i..])
    {
      i := i - 1;
      assert zone[i..][1..] == zone[i + 1..] && zone[i..][0] == zone[i];
      var d := CollectDelta(zone[i].slots, zone[i].diff);
      m := m + d;
    }
  }

  method CollectDelta(slots: seq<Slot>, diff: seq<byte>) returns (m: map<Slot, seq<byte>>)
    requires |diff| == DiffLength(slots)
    ensures m == DeltaMap(slots, diff)
  {
    m := map[];
    var at, i := 0, 0;
    while i < |slots|
      invariant 0 <= i <= |slots| && at == DiffLength(slots[..i]) <= |diff|
      invariant m == DeltaMap(slots[..i], diff[..at])
    {
      PositionsStep(slots, i);
      LengthMonotone(slots, i + 1);
      var next := at + slots[i].length;
      DeltaMapStep(slots, diff, i, at, next);
      m := m[slots[i] := diff[at..next]];
      at := next;
      i := i + 1;
    }
    assert slots[..i] == slots && diff[..at] == diff;
  }

  lemma DeltaMapStep(slots: seq<Slot>, diff: seq<byte>, i: nat, at: nat, next: nat)
    requires i < |slots| && at == DiffLength(slots[..i]) && next == at + slots[i].length <= |diff|
    requires DiffLength(slots[..i + 1]) == next
    ensures DeltaMap(slots[..i + 1], diff[..next]) == DeltaMap(slots[..i], diff[..at])[slots[i] := diff[at..next]]
  {
    assert slots[..i + 1][..i] == slots[..i];
    assert diff[..next][..at] == diff[..at] && diff[..next][at..] == diff[at..next];
  }

  /**
    The merged delta, and the space allocated for it: room for every slot of the map, although the descriptor's count is
    a byte. Its diff starts behind the slots that this byte counts, so when it wraps later slots are written over it.
   */
  method MergeZone(zone: seq<Delta>) returns (r: Delta, length: nat)
    requires zone != [] && LengthsOk(zone)
    ensures IsMerge(zone, r) && length <= Sizes(zone)
    ensures SizeFor(r.slots) == length <==> |SlotSet(zone)| <= 255
  {
    var m := CollectSlots(zone);
    var listed, diff := ListSlots(m);
    length := SizeFor(listed);
    var slots := listed[..Wrapped(|listed|)];
    if |listed| > 255 {
      diff := SomeBytes(DiffLength(slots));
    } else {
      assert slots == listed;
    }
    r := Delta(zone[0].id, slots, diff);
    assert MergedFrom(zone, r, listed);
    MergeLength(zone, r, listed);
    ListIsSmaller(zone, listed);
    PrefixIsSmaller(listed, Wrapped(|listed|));
  }

  /** Bytes about which nothing is known. */
  method SomeBytes(n: nat) returns (r: seq<byte>)
    ensures |r| == n
  {
    r := [];
    while |r| < n
      invariant |r| <= n
    {
      var b: byte := *;
      r := r + [b];
    }
  }

  /** The iteration over the map, in whatever order. */
  method ListSlots(m: map<Slot, seq<byte>>) returns (slots: seq<Slot>, diff: seq<byte>)
    requires forall s | s in m :: |m[s]| == s.length
    ensures Lists(slots, m) && diff == Concat(slots, m)
  {
    slots, diff := [], [];
    var keys := m.Keys;
    while keys != {}
      invariant NoRepeats(slots) && keys <= m.Keys
      invariant forall s :: s in slots <==> s in m && s !in keys
      invariant diff == Concat(slots, m)
      decreases |keys|
    {
      var s :| s in keys;
      ConcatLast(slots, s, m);
      slots, diff, keys := slots + [s], diff + m[s], keys - {s};
    }
  }

  lemma ConcatLast(slots: seq<Slot>, s: Slot, m: map<Slot, seq<byte>>)
    requires forall x | x in slots :: x in m && |m[x]| == x.length
    requires s in m && |m[s]| == s.length
    ensures Concat(slots + [s], m) == Concat(slots, m) + m[s]
  {
    assert (slots + [s])[..|slots|] == slots;
  }

  // ----- the tuple

  /** No delta is of an older transaction than the one before it. */
  predicate Ordered(ds: seq<Delta>) {
    forall i, j | 0 <= i < j < |ds| :: ds[i].id.tx <= ds[j].id.tx
  }

  /** bin_search over the deltas from c on. */
  method BinSearch(ds: seq<Delta>, c: nat, ts: nat) returns (r: nat)
    requires c <= |ds| && Ordered(ds)
    ensures IsBound(ds, c, ts, r)
  {
    var lo: int, hi: int := c, |ds| - 1;
    while lo <= hi
      invariant c <= lo <= hi + 1 <= |ds|
      invariant forall i | c <= i < lo :: ds[i].id.tx < ts
      invariant forall i | hi < i < |ds| :: ts < ds[i].id.tx
    {
      var m := lo + (hi - lo) / 2;
      var it := ds[m].id.tx;
      if it == ts {
        return m;
      } else if it < ts {
        lo := m + 1;
      } else {
        hi := m - 1;
      }
    }
    r := lo;
  }

  /** The loop that looks for the newest delta visible for all. */
  method CountDrops(ds: seq<Delta>, all: Id -> bool) returns (c: nat)
    ensures c == DropCount(ds, all, |ds|)
  {
    c := 0;
    var i := |ds|;
    while i > 1
      invariant 0 <= i <= |ds|
      invariant DropCount(ds, all, |ds|) == DropCount(ds, all, i)
    {
      if all(ds[i - 1].id) {
        return i - 2;
      }
      i := i - 1;
    }
  }

  /** Which deltas to merge. */
  method FindZone(ds: seq<Delta>, c: nat, olap: nat, oltp: nat) returns (r: Option<(nat, nat)>)
    requires c <= |ds| && Ordered(ds)
    ensures IsZone(ds, c, olap, oltp, r)
    ensures r.Some? ==> c <= r.value.0 < r.value.1 && r.value.1 + 2 <= |ds|
  {
    var begin := BinSearch(ds, c, olap);
    r := None;
    if begin < |ds| {
      var res := BinSearch(ds, c, oltp);
      if res - 2 > begin {
        r := Some((begin, res - 2));
      } else {
        assert NoZoneFrom(ds, c, oltp, begin);
      }
    }
    assert r.None? ==> IsBound(ds, c, olap, begin) && NoZoneFrom(ds, c, oltp, begin);
  }

  /** The deltas that stay when a zone is merged; the space allocated for them is no more than before. */
  method Merged(ds: seq<Delta>, c: nat, begin: nat, end: nat, n: nat) returns (kept: seq<Delta>, ok: bool)
    requires DeltasOk(ds, n) && c <= begin < end <= |ds|
    ensures Kept(ds, c, Some((begin, end)), kept) && DeltasOk(kept, n)
    ensures Sizes(kept) + OFFSET_SIZE * |kept| <= Sizes(ds) + OFFSET_SIZE * |ds|
    ensures ok <==> |SlotSet(ds[begin..end])| <= 255
  {
    DeltasOkSlice(ds, n, c, begin);
    DeltasOkSlice(ds, n, begin, end);
    DeltasOkFrom(ds, n, end);
    var m, length := MergeZone(ds[begin..end]);
    MergeFits(ds[begin..end], m, n);
    MergeIsSmaller(ds[begin..end], m);
    kept := ds[c..begin] + [m] + ds[end..];
    ok := SizeFor(m.slots) == length;
    KeptSizes(ds, m, c, begin, end);
    DeltasOkParts(ds[c..begin], [m], ds[end..], n);
    assert kept[begin - c] == m;
  }

  /**
    The deltas that garbage collection keeps, when the newest version is not visible for all. ok: the space they were
    given is the space they take, which is asserted in the end.
   */
  method Choose(id: Id, ds: seq<Delta>, all: Id -> bool, olap: nat, oltp: nat, n: nat)
    returns (changed: bool, kept: seq<Delta>, zone: Option<(nat, nat)>, ok: bool)
    requires DeltasOk(ds, n) && Ordered(ds) && ds != [] && !all(id)
    ensures LengthsOk(ds) && Collected(id, ds, all, olap, oltp, zone, kept) && DeltasOk(kept, n)
    ensures Sizes(kept) + OFFSET_SIZE * |kept| <= Sizes(ds) + OFFSET_SIZE * |ds|
    ensures !changed ==> kept == ds && ok
    ensures ok <==> CountFits(ds, zone)
  {
    changed, kept, zone, ok := false, ds, None, true;
    var c := CountDrops(ds, all);
    if c == 0 && olap > oltp {
      return;
    }
    zone := FindZone(ds, c, olap, oltp);
    if zone.Some? {
      kept, ok := Merged(ds, c, zone.value.0, zone.value.1, n);
      changed := true;
    } else if c > 0 {
      SizesSlices(ds, c, c, c);
      DeltasOkFrom(ds, n, c);
      kept := ds[c..];
      changed := true;
    } else {
      assert ds[c..] == ds;
    }
  }

  /** A byte can count the slots of the zone. */
  ghost predicate CountFits(ds: seq<Delta>, zone: Option<(nat, nat)>) {
    zone.Some? ==> zone.value.0 <= zone.value.1 <= |ds| && |SlotSet(ds[zone.value.0..zone.value.1])| <= 255
  }

  lemma KeptSizes(ds: seq<Delta>, m: Delta, c: nat, begin: nat, end: nat)
    requires c <= begin < end <= |ds| && SizeFor(m.slots) <= Sizes(ds[begin..end])
    ensures Sizes(ds[c..begin] + [m] + ds[end..]) <= Sizes(ds)
    ensures |ds[c..begin] + [m] + ds[end..]| <= |ds|
  {
    SizesSlices(ds, c, begin, end);
    SizesLast(ds[c..begin], m);
    SizesSplit(ds[c..begin] + [m], ds[end..]);
  }

  /** A delta's place: it starts at offset and does not leave the delta area. */
  ghost predicate Placed(offsets: seq<nat>, ds: seq<Delta>, low: nat, high: nat)
    requires |offsets| == |ds|
  {
    && (forall i | 0 <= i < |ds| :: low <= offsets[i] && offsets[i] + SizeFor(ds[i].slots) <= high)
    && (forall i, j | 0 <= i < |ds| && 0 <= j < |ds| && i != j ::
          offsets[i] + SizeFor(ds[i].slots) <= offsets[j] || offsets[j] + SizeFor(ds[j].slots) <= offsets[i])
  }

  /** Value, offset array and deltas never overlap, and the counters account for every byte. */
  ghost predicate Layout(valueLength: nat, total: nat, used: nat, low: nat, offsets: seq<nat>, ds: seq<Delta>) {
    && |offsets| == |ds| && DeltasOk(ds, valueLength)
    && low + Sizes(ds) == total
    && used == valueLength + OFFSET_SIZE * |ds| + Sizes(ds)
    && valueLength + OFFSET_SIZE * |ds| <= low
    && Placed(offsets, ds, low, total)
  }

  /** Every delta lies right below the one before it: the order in which they were appended. */
  ghost predicate InOrder(total: nat, offsets: seq<nat>, ds: seq<Delta>)
    decreases |ds|
  {
    var n := |ds| - 1;
    |offsets| == |ds| && (ds == [] || (offsets[n] + Sizes(ds) == total && InOrder(total, offsets[..n], ds[..n])))
  }

  lemma InOrderAppend(total: nat, low: nat, offsets: seq<nat>, ds: seq<Delta>, d: Delta)
    requires InOrder(total, offsets, ds) && low + Sizes(ds) == total && SizeFor(d.slots) <= low
    ensures InOrder(total, offsets + [low - SizeFor(d.slots)], ds + [d])
  {
    SizesLast(ds, d);
    assert (ds + [d])[..|ds|] == ds && (offsets + [low - SizeFor(d.slots)])[..|ds|] == offsets;
  }

  lemma LayoutAppend(valueLength: nat, total: nat, used: nat, low: nat, offsets: seq<nat>, ds: seq<Delta>, d: Delta)
    requires Layout(valueLength, total, used, low, offsets, ds) && DeltaOk(d, valueLength)
    requires total - used >= SizeFor(d.slots) + OFFSET_SIZE
    ensures SizeFor(d.slots) <= low
    ensures Layout(valueLength, total, used + SizeFor(d.slots) + OFFSET_SIZE, low - SizeFor(d.slots),
                   offsets + [low - SizeFor(d.slots)], ds + [d])
    ensures InOrder(total, offsets, ds) ==> InOrder(total, offsets + [low - SizeFor(d.slots)], ds + [d])
  {
    if InOrder(total, offsets, ds) {
      InOrderAppend(total, low, offsets, ds, d);
    }
    SizesLast(ds, d);
    PlacedWithNext(offsets, ds, low, total, d);
    DeltasOkLast(ds, d, valueLength);
  }

  lemma LayoutUndo(valueLength: nat, total: nat, used: nat, low: nat, offsets: seq<nat>, ds: seq<Delta>)
    requires Layout(valueLength, total, used, low, offsets, ds) && ds != []
    ensures var (n, size) := (|ds| - 1, SizeFor(ds[|ds| - 1].slots));
            && used >= size + OFFSET_SIZE && Fits(ds[n].slots, valueLength) && |ds[n].diff| == DiffLength(ds[n].slots)
            && (offsets[n] == low ==>
                  Layout(valueLength, total, used - size - OFFSET_SIZE, low + size, offsets[..n], ds[..n]))
            && (InOrder(total, offsets, ds) ==> offsets[n] == low && InOrder(total, offsets[..n], ds[..n]))
  {
    if offsets[|ds| - 1] == low {
      PlacedWithoutLast(offsets, ds, low, total);
    }
  }

  lemma LayoutRoom(valueLength: nat, total: nat, used: nat, low: nat, offsets: seq<nat>, ds: seq<Delta>)
    requires Layout(valueLength, total, used, low, offsets, ds)
    ensures used == valueLength + OFFSET_SIZE * |ds| + Sizes(ds) <= total
  {
  }

  lemma RoomForNext(ds: seq<Delta>, i: nat, used: nat, total: nat)
    requires i < |ds| && used + Sizes(ds) + OFFSET_SIZE * |ds| <= total
    ensures total - (used + Sizes(ds[..i]) + OFFSET_SIZE * i) >= SizeFor(ds[i].slots) + OFFSET_SIZE
    ensures Sizes(ds[..i + 1]) == Sizes(ds[..i]) + SizeFor(ds[i].slots)
  {
    SizesPrefix(ds, i);
  }

  lemma AppendOne(base: seq<Delta>, ds: seq<Delta>, i: nat)
    requires i < |ds|
    ensures base + ds[..i] + [ds[i]] == base + ds[..i + 1]
  {
  }

  class FatTuple {
    var id: Id
    var value: seq<byte>        // the first value_length bytes of the payload
    const valueLength: nat
    const totalSpace: nat
    var usedSpace: nat
    var dataOffset: nat
    var offsets: seq<nat>       // getDeltaOffsets()
    var deltas: seq<Delta>      // oldest first; deltas[i] lies at offsets[i]

    ghost predicate Valid()
      reads this
    {
      |value| == valueLength && Layout(valueLength, totalSpace, usedSpace, dataOffset, offsets, deltas)
    }

    /** As long as deltas are appended, collected and undone; a conversion from chained form lays them out otherwise. */
    ghost predicate Stacked()
      reads this
    {
      InOrder(totalSpace, offsets, deltas)
    }

    constructor (id: Id, value: seq<byte>, totalSpace: nat)
      requires |value| <= totalSpace
      ensures Valid() && Stacked() && this.id == id && this.value == value && deltas == []
      ensures valueLength == |value| && this.totalSpace == totalSpace
    {
      this.id, this.value, this.valueLength, this.totalSpace := id, value, |value|, totalSpace;
      usedSpace, dataOffset, offsets, deltas := |value|, totalSpace, [], [];
    }

    function NeededSpace(slots: seq<Slot>): (r: nat) {
      SizeFor(slots) + OFFSET_SIZE
    }

    /** hasSpaceFor holds exactly when the assertion of allocateDelta would. */
    method HasSpaceFor(slots: seq<Slot>) returns (r: bool)
      requires Valid()
      ensures r <==> totalSpace - usedSpace >= NeededSpace(slots)
    {
      r := dataOffset - (valueLength + |deltas| * OFFSET_SIZE) >= NeededSpace(slots);
    }

    /** allocateDelta and the copy into it. */
    method AppendDelta(d: Delta)
      requires Valid() && DeltaOk(d, valueLength) && totalSpace - usedSpace >= NeededSpace(d.slots)
      modifies this
      ensures Valid() && id == old(id) && value == old(value) && deltas == old(deltas) + [d]
      ensures offsets == old(offsets) + [dataOffset]
      ensures dataOffset == old(dataOffset) - SizeFor(d.slots) && usedSpace == old(usedSpace) + NeededSpace(d.slots)
      ensures old(Stacked()) ==> Stacked()
    {
      LayoutAppend(valueLength, totalSpace, usedSpace, dataOffset, offsets, deltas, d);
      usedSpace := usedSpace + NeededSpace(d.slots);
      dataOffset := dataOffset - SizeFor(d.slots);
      offsets := offsets + [dataOffset];
      deltas := deltas + [d];
    }

    /** append: remembers the slots' bytes under the current writer. */
    method Append(slots: seq<Slot>)
      requires Valid() && Fits(slots, valueLength) && totalSpace - usedSpace >= NeededSpace(slots)
      modifies this
      ensures Valid() && id == old(id) && value == old(value)
      ensures deltas == old(deltas) + [Before(old(id), slots, old(value))] && offsets == old(offsets) + [dataOffset]
      ensures dataOffset == old(dataOffset) - SizeFor(slots) && usedSpace == old(usedSpace) + NeededSpace(slots)
      ensures old(Stacked()) ==> Stacked()
    {
      FitsWithin(slots, valueLength);
      var buffer := new byte[DiffLength(slots)];
      GenerateDiff(slots, buffer, value);
      assert buffer[..DiffLength(slots)] == buffer[..];
      AppendDelta(Delta(id, slots, buffer[..]));
    }

    /** update with room: append, new writer, and the callback's in-place change inside the slots. */
    method Update(slots: seq<Slot>, writer: Id, after: seq<byte>)
      requires Valid() && Fits(slots, valueLength) && totalSpace - usedSpace >= NeededSpace(slots)
      requires AgreeOutside(Positions(slots), value, after)
      modifies this
      ensures Valid() && id == writer && value == after
      ensures deltas == old(deltas) + [Before(old(id), slots, old(value))] && offsets == old(offsets) + [dataOffset]
      ensures dataOffset == old(dataOffset) - SizeFor(slots) && usedSpace == old(usedSpace) + NeededSpace(slots)
      ensures old(Stacked()) ==> Stacked()
    {
      Append(slots);
      id := writer;
      value := after;
    }

    /** append_ll for a range of deltas of another tuple. */
    method AppendAll(ds: seq<Delta>)
      requires Valid() && DeltasOk(ds, valueLength)
      requires usedSpace + Sizes(ds) + OFFSET_SIZE * |ds| <= totalSpace
      modifies this
      ensures Valid() && id == old(id) && value == old(value) && deltas == old(deltas) + ds
      ensures usedSpace == old(usedSpace) + Sizes(ds) + OFFSET_SIZE * |ds|
      ensures old(Stacked()) ==> Stacked()
    {
      var i := 0;
      while i < |ds|
        invariant 0 <= i <= |ds| && Valid() && id == old(id) && value == old(value)
        invariant deltas == old(deltas) + ds[..i]
        invariant usedSpace == old(usedSpace) + Sizes(ds[..i]) + OFFSET_SIZE * i
        invariant old(Stacked()) ==> Stacked()
      {
        RoomForNext(ds, i, old(usedSpace), totalSpace);
        AppendOne(old(deltas), ds, i);
        AppendDelta(ds[i]);
        i := i + 1;
      }
      assert ds[..i] == ds;
    }

    /** A new tuple in a buffer, copied over this one: the same value and writer with these deltas. */
    method Rebuild(kept: seq<Delta>)
      requires |value| == valueLength && DeltasOk(kept, valueLength)
      requires valueLength + Sizes(kept) + OFFSET_SIZE * |kept| <= usedSpace <= totalSpace
      modifies this
      ensures Valid() && Stacked()
      ensures id == old(id) && value == old(value) && deltas == kept && usedSpace <= old(usedSpace)
    {
      var used, low, offs := Rebuilt(id, value, valueLength, totalSpace, kept);
      usedSpace, dataOffset, offsets, deltas := used, low, offs, kept;
    }

    /**
      garbageCollection. ok is false when its closing assertion fails: the merged descriptor counts its slots in a byte,
      and the delta then takes less space than it was given. What an optimized build goes on with is not modelled.
     */
    method GarbageCollection(all: Id -> bool, olap: nat, oltp: nat) returns (ok: bool, zone: Option<(nat, nat)>)
      requires Valid() && Ordered(deltas)
      modifies this
      ensures ok <==> CountFits(old(deltas), zone)
      ensures ok ==> LengthsOk(old(deltas)) && Collected(id, old(deltas), all, olap, oltp, zone, deltas)
      ensures Valid() && id == old(id) && value == old(value) && usedSpace <= old(usedSpace)
      ensures old(Stacked()) ==> Stacked()
    {
      ok, zone := true, None;
      if |deltas| == 0 {
        return;
      }
      if all(id) {
        deltas, offsets := [], [];
        dataOffset := totalSpace;
        usedSpace := valueLength;
        return;
      }
      var changed, kept;
      changed, kept, zone, ok := Choose(id, deltas, all, olap, oltp, valueLength);
      if changed && ok {
        LayoutRoom(valueLength, totalSpace, usedSpace, dataOffset, offsets, deltas);
        Rebuild(kept);
      }
    }

    /** undoLastUpdate. The layout stays right if the last delta lies lowest, as it does where deltas are appended. */
    method UndoLastUpdate()
      requires Valid() && deltas != []
      modifies this
      ensures var (n, d) := (old(|deltas| - 1), old(deltas[|deltas| - 1]));
              && id == d.id && value == Undo(d, old(value))
              && deltas == old(deltas)[..n] && offsets == old(offsets)[..n]
              && dataOffset == old(dataOffset) + SizeFor(d.slots) && usedSpace == old(usedSpace) - NeededSpace(d.slots)
      ensures old(offsets[|deltas| - 1] == dataOffset) ==> Valid()
      ensures old(Stacked()) ==> Valid() && Stacked()
    {
      var n := |deltas| - 1;
      var d := deltas[n];
      LayoutUndo(valueLength, totalSpace, usedSpace, dataOffset, offsets, deltas);
      id := d.id;
      deltas := deltas[..n];
      offsets := offsets[..n];
      dataOffset := dataOffset + SizeFor(d.slots);
      usedSpace := usedSpace - NeededSpace(d.slots);
      var buffer := new byte[valueLength](k requires 0 <= k < |value| reads this => value[k]);
      assert buffer[..] == value;
      UndoInPlace(d, buffer);
      value := buffer[..];
    }
  }

  lemma DeltasOkLast(ds: seq<Delta>, d: Delta, n: nat)
    requires DeltasOk(ds, n) && DeltaOk(d, n)
    ensures DeltasOk(ds + [d], n)
  {
  }

  lemma PlacedWithNext(offsets: seq<nat>, ds: seq<Delta>, low: nat, high: nat, d: Delta)
    requires |offsets| == |ds| && Placed(offsets, ds, low, high) && SizeFor(d.slots) <= low <= high
    ensures Placed(offsets + [low - SizeFor(d.slots)], ds + [d], low - SizeFor(d.slots), high)
  {
  }

  lemma PlacedWithoutLast(offsets: seq<nat>, ds: seq<Delta>, low: nat, high: nat)
    requires |offsets| == |ds| > 0 && Placed(offsets, ds, low, high) && offsets[|ds| - 1] == low
    ensures Placed(offsets[..|ds| - 1], ds[..|ds| - 1], low + SizeFor(ds[|ds| - 1].slots), high)
  {
    var n := |ds| - 1;
    forall i | 0 <= i < n
      ensures low + SizeFor(ds[n].slots) <= offsets[i]
    {
      assert low <= offsets[i]
             && (offsets[i] + SizeFor(ds[i].slots) <= offsets[n] || offsets[n] + SizeFor(ds[n].slots) <= offsets[i]);
    }
  }

  /** An update followed by undoLastUpdate leaves value, writer, deltas, offsets and both counters as they were. */
  method UpdateThenUndo(t: FatTuple, slots: seq<Slot>, writer: Id, after: seq<byte>)
    requires t.Valid() && Fits(slots, t.valueLength) && t.totalSpace - t.usedSpace >= t.NeededSpace(slots)
    requires AgreeOutside(Positions(slots), t.value, after)
    modifies t
    ensures t.Valid() && t.id == old(t.id) && t.value == old(t.value)
    ensures t.deltas == old(t.deltas) && t.offsets == old(t.offsets)
    ensures t.usedSpace == old(t.usedSpace) && t.dataOffset == old(t.dataOffset)
  {
    UndoBefore(t.id, slots, t.value, after);
    t.Update(slots, writer, after);
    t.UndoLastUpdate();
  }

  /** An update adds its value as the newest version and keeps every older one. */
  lemma UpdateAddsVersion(id: Id, v: seq<byte>, ds: seq<Delta>, slots: seq<Slot>, writer: Id, after: seq<byte>)
    requires DeltasOk(ds, |v|) && Fits(slots, |v|) && AgreeOutside(Positions(slots), v, after)
    ensures DeltasOk(ds + [Before(id, slots, v)], |after|)
    ensures VersionsOf(writer, after, ds + [Before(id, slots, v)]) == VersionsOf(id, v, ds) + [Version(writer, after)]
  {
    UndoBefore(id, slots, v, after);
    VersionsLast(writer, after, ds, Before(id, slots, v));
  }

  /** The counters and offsets of a new tuple with these deltas. */
  method Rebuilt(id: Id, value: seq<byte>, n: nat, total: nat, kept: seq<Delta>)
    returns (used: nat, low: nat, offsets: seq<nat>)
    requires |value| == n && n + Sizes(kept) + OFFSET_SIZE * |kept| <= total && DeltasOk(kept, n)
    ensures Layout(n, total, used, low, offsets, kept) && InOrder(total, offsets, kept)
    ensures used == n + OFFSET_SIZE * |kept| + Sizes(kept)
  {
    var buffer := new FatTuple(id, value, total);
    buffer.AppendAll(kept);
    assert buffer.deltas == kept;
    used, low, offsets := buffer.usedSpace, buffer.dataOffset, buffer.offsets;
  }
}
