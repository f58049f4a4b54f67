/** A fat tuple that fits a page, and whose merged delta has more slots than its descriptor's byte can count. */
module WideZone {
  import opened Wrappers
  import opened Diff
  import opened Versions
  import opened FatTupleGc
  import opened FatTuple

  /** maxFatTupleLength() is a page of 4096 bytes without its header, less 1000. */
  const FAT_TUPLE_SPACE: nat := 3000

  /** k one-byte slots from offset a on. */
  function OneByteSlots(a: nat, k: nat): (r: seq<Slot>)
    ensures |r| == k && forall i | 0 <= i < k :: r[i] == Slot(a + i, 1)
  {
    seq(k, i requires 0 <= i => Slot(a + i, 1))
  }

  lemma {:induction false} OneByteLength(a: nat, k: nat)
    ensures DiffLength(OneByteSlots(a, k)) == k
    decreases k
  {
    if k > 0 {
      OneByteLength(a, k - 1);
      assert OneByteSlots(a, k)[..k - 1] == OneByteSlots(a, k - 1);
    }
  }

  /** Two deltas on 128 bytes each. */
  lemma TwoHalves(zone: seq<Delta>)
    requires |zone| == 2 && zone[0].slots == OneByteSlots(0, 128) && zone[1].slots == OneByteSlots(128, 128)
    ensures |SlotSet(zone)| == 256
  {
    var listed := OneByteSlots(128, 128) + OneByteSlots(0, 128);
    assert zone[1..][1..] == [] && zone[1..][0] == zone[1];
    assert ZoneSlots(zone[1..]) == [] + zone[1].slots == zone[1].slots;
    assert ZoneSlots(zone) == listed;
    ListLength(listed, SlotSet(zone));
  }

  /** With nothing visible for all, the first two of four deltas are the zone. */
  lemma FirstTwo(id: Id, ds: seq<Delta>, all: Id -> bool, oltp: nat, zone: Option<(nat, nat)>, ds': seq<Delta>)
    requires |ds| == 4 && LengthsOk(ds) && Collected(id, ds, all, 0, oltp, zone, ds') && forall x :: !all(x)
    requires forall i | 0 <= i < 4 :: 0 < ds[i].id.tx < oltp
    ensures zone == Some((0, 2))
  {
    NothingDropped(ds, all, 4);
    if zone.Some? {
      BelowAll(ds, zone.value.0);
      AboveAll(ds, oltp, zone.value.1 + 2);
    } else {
      SomeZone(ds, oltp);
    }
  }

  lemma BelowAll(ds: seq<Delta>, r: nat)
    requires IsBound(ds, 0, 0, r) && forall i | 0 <= i < |ds| :: 0 < ds[i].id.tx
    ensures r == 0
  {
    assert ds != [] ==> 0 < ds[0].id.tx;
  }

  lemma AboveAll(ds: seq<Delta>, oltp: nat, r: nat)
    requires IsBound(ds, 0, oltp, r) && forall i | 0 <= i < |ds| :: ds[i].id.tx < oltp
    ensures r == |ds|
  {
  }

  lemma SomeZone(ds: seq<Delta>, oltp: nat)
    requires |ds| == 4 && forall i | 0 <= i < 4 :: 0 < ds[i].id.tx < oltp
    ensures !IsZone(ds, 0, 0, oltp, None)
  {
    forall begin: nat | IsBound(ds, 0, 0, begin)
      ensures !NoZoneFrom(ds, 0, oltp, begin)
    {
      BelowAll(ds, begin);
      forall res: nat | IsBound(ds, 0, oltp, res)
        ensures res - 2 > begin
      {
        AboveAll(ds, oltp, res);
      }
    }
  }

  lemma OneByteUpdate(a: nat, k: nat, v: seq<byte>)
    requires a + k <= |v|
    ensures Fits(OneByteSlots(a, k), |v|) && AgreeOutside(Positions(OneByteSlots(a, k)), v, v)
    ensures SizeFor(OneByteSlots(a, k)) == 16 + 5 * k
  {
    OneByteLength(a, k);
  }

  /** An update of k bytes that leaves the value as it is. */
  method Touch(t: FatTuple, a: nat, k: nat, writer: Id)
    requires t.Valid() && a + k <= t.valueLength && t.totalSpace - t.usedSpace >= 18 + 5 * k
    modifies t
    ensures t.Valid() && t.id == writer && t.usedSpace == old(t.usedSpace) + 18 + 5 * k
    ensures |t.deltas| == old(|t.deltas|) + 1 && t.deltas[..old(|t.deltas|)] == old(t.deltas)
    ensures t.deltas[old(|t.deltas|)].slots == OneByteSlots(a, k) && t.deltas[old(|t.deltas|)].id == old(t.id)
  {
    OneByteUpdate(a, k, t.value);
    t.Update(OneByteSlots(a, k), writer, t.value);
  }

  /** Four transactions update a tuple of 256 bytes, two of them 128 bytes each. */
  method Wide() returns (t: FatTuple)
    ensures fresh(t) && t.Valid() && t.totalSpace == FAT_TUPLE_SPACE && |t.deltas| == 4
    ensures t.deltas[0].slots == OneByteSlots(0, 128) && t.deltas[1].slots == OneByteSlots(128, 128)
    ensures forall i | 0 <= i < 4 :: t.deltas[i].id.tx == i + 1
  {
    t := new FatTuple(Id(0, 1, 0), seq(256, _ => 0), FAT_TUPLE_SPACE);
    assert t.usedSpace == 256 by { LayoutRoom(256, t.totalSpace, t.usedSpace, t.dataOffset, t.offsets, t.deltas); }
    Touch(t, 0, 128, Id(1, 2, 0));
    ghost var one := t.deltas;
    Touch(t, 128, 128, Id(0, 3, 0));
    ghost var two := t.deltas;
    assert two[0] == two[..1][0] == one[0];
    Touch(t, 0, 1, Id(1, 4, 0));
    ghost var three := t.deltas;
    assert three[0] == three[..2][0] == two[0] && three[1] == three[..2][1] == two[1];
    Touch(t, 0, 1, Id(0, 5, 0));
    ghost var four := t.deltas;
    assert four[0] == four[..3][0] && four[1] == four[..3][1] && four[2] == four[..3][2];
  }

  /**
    Collecting that tuple with an older OLAP and a younger OLTP timestamp merges the two large deltas, and the closing
    assertion fails.
   */
  method ManySlots() returns (ok: bool)
    ensures !ok
  {
    var t := Wide();
    ghost var ds := t.deltas;
    var zone;
    ok, zone := t.GarbageCollection(_ => false, 0, 10);
    if ok {
      FirstTwo(t.id, ds, _ => false, 10, zone, t.deltas);
      TwoHalves(ds[0..2]);
      assert false;
    }
  }
}
