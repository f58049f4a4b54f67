/** Update descriptors and the four diff routines over them: copy and exclusive-or, out of and into a value. */
module Diff {
  import opened Wrappers

  function XorByte(a: byte, b: byte): (r: byte) { a ^ b }

  /** UpdateSameSizeInPlaceDescriptor::Slot; a descriptor is a sequence of slots. */
  datatype Slot = Slot(offset: nat, length: nat)

  /** The byte positions of one slot, in order. */
  function Range(offset: nat, length: nat): (r: seq<nat>)
    ensures |r| == length && forall k | 0 <= k < length :: r[k] == offset + k
  {
    seq(length, k requires 0 <= k => offset + k)
  }

  /** diffLength(). */
  function DiffLength(slots: seq<Slot>): (r: nat) {
    if slots == [] then 0 else DiffLength(slots[..|slots| - 1]) + slots[|slots| - 1].length
  }

  /** The byte positions that a descriptor names, in the order the routines visit them. */
  function Positions(slots: seq<Slot>): (r: seq<nat>)
    ensures |r| == DiffLength(slots)
  {
    if slots == [] then []
    else Positions(slots[..|slots| - 1]) + Range(slots[|slots| - 1].offset, slots[|slots| - 1].length)
  }

  lemma OneSlotLength(s: Slot)
    ensures DiffLength([s]) == s.length && Positions([s]) == Range(s.offset, s.length)
  {
    assert [s][..0] == [];
    assert DiffLength([s][..0]) == 0 && Positions([s][..0]) == [];
  }

  predicate Fits(slots: seq<Slot>, n: nat) {
    forall i | 0 <= i < |slots| :: slots[i].offset + slots[i].length <= n
  }

  predicate Within(pos: seq<nat>, n: nat) {
    forall k | 0 <= k < |pos| :: pos[k] < n
  }

  predicate Distinct(pos: seq<nat>) {
    forall i, j | 0 <= i < j < |pos| :: pos[i] != pos[j]
  }

  lemma {:induction false} FitsWithin(slots: seq<Slot>, n: nat)
    requires Fits(slots, n)
    ensures Within(Positions(slots), n)
    decreases |slots|
  {
    if slots != [] {
      FitsWithin(slots[..|slots| - 1], n);
    }
  }

  // ----- what the routines compute, byte by byte

  /** Copies bytes out: generateDiff. */
  function Gather(pos: seq<nat>, src: seq<byte>): (r: seq<byte>)
    requires Within(pos, |src|)
    ensures |r| == |pos| && forall k | 0 <= k < |pos| :: r[k] == src[pos[k]]
  {
    seq(|pos|, k requires 0 <= k < |pos| => src[pos[k]])
  }

  /** Copies bytes in, a later one over an earlier one: applyDiff. */
  function Scatter(pos: seq<nat>, dst: seq<byte>, diff: seq<byte>): (r: seq<byte>)
    requires Within(pos, |dst|) && |diff| == |pos|
    ensures |r| == |dst|
    decreases |pos|
  {
    if pos == [] then dst
    else var n := |pos| - 1; Scatter(pos[..n], dst, diff[..n])[pos[n] := diff[n]]
  }

  function Xor(a: seq<byte>, b: seq<byte>): (r: seq<byte>)
    requires |a| == |b|
    ensures |r| == |a| && forall k | 0 <= k < |a| :: r[k] == XorByte(a[k], b[k])
  {
    seq(|a|, k requires 0 <= k < |a| => XorByte(a[k], b[k]))
  }

  /** Exclusive-ors one byte into a value. */
  function Flip(v: seq<byte>, p: nat, x: byte): (r: seq<byte>)
    requires p < |v|
  {
    v[p := XorByte(v[p], x)]
  }

  /** Exclusive-ors bytes in: applyXORDiff. */
  function XorAt(pos: seq<nat>, dst: seq<byte>, diff: seq<byte>): (r: seq<byte>)
    requires Within(pos, |dst|) && |diff| == |pos|
    ensures |r| == |dst|
    decreases |pos|
  {
    if pos == [] then dst
    else var n := |pos| - 1; Flip(XorAt(pos[..n], dst, diff[..n]), pos[n], diff[n])
  }

  /** The values agree except at these positions: an update callback that writes only inside its slots. */
  ghost predicate AgreeOutside(pos: seq<nat>, a: seq<byte>, b: seq<byte>) {
    |a| == |b| && forall p | 0 <= p < |a| && p !in pos :: a[p] == b[p]
  }

  // ----- overlays: the meaning of an applied diff, as a map from position to byte

  function PosMap(pos: seq<nat>, diff: seq<byte>): (m: map<nat, byte>)
    requires |diff| == |pos|
    ensures forall p :: p in m <==> p in pos
  {
    if pos == [] then map[]
    else
      var n := |pos| - 1;
      assert pos == pos[..n] + [pos[n]];
      PosMap(pos[..n], diff[..n])[pos[n] := diff[n]]
  }

  function Overlay(v: seq<byte>, m: map<nat, byte>): (r: seq<byte>)
    ensures |r| == |v| && forall p | 0 <= p < |v| :: r[p] == if p in m then m[p] else v[p]
  {
    seq(|v|, p requires 0 <= p < |v| => if p in m then m[p] else v[p])
  }

  lemma {:induction false} ScatterIsOverlay(pos: seq<nat>, dst: seq<byte>, diff: seq<byte>)
    requires Within(pos, |dst|) && |diff| == |pos|
    ensures Scatter(pos, dst, diff) == Overlay(dst, PosMap(pos, diff))
    decreases |pos|
  {
    if pos != [] {
      ScatterIsOverlay(pos[..|pos| - 1], dst, diff[..|pos| - 1]);
    }
  }

  lemma OverlayTwice(v: seq<byte>, a: map<nat, byte>, b: map<nat, byte>)
    ensures Overlay(Overlay(v, a), b) == Overlay(v, a + b)
  {
  }

  lemma {:induction false} PosMapGather(pos: seq<nat>, src: seq<byte>)
    requires Within(pos, |src|)
    ensures forall p | p in pos :: PosMap(pos, Gather(pos, src))[p] == src[p]
    decreases |pos|
  {
    if pos != [] {
      var n := |pos| - 1;
      PosMapGather(pos[..n], src);
      assert Gather(pos, src)[..n] == Gather(pos[..n], src);
    }
  }

  /** Applying the diff generated from a before-image restores it, for any descriptor, even with overlapping slots. */
  lemma DiffRestores(pos: seq<nat>, before: seq<byte>, after: seq<byte>)
    requires Within(pos, |before|) && AgreeOutside(pos, before, after)
    ensures Scatter(pos, after, Gather(pos, before)) == before
  {
    ScatterIsOverlay(pos, after, Gather(pos, before));
    PosMapGather(pos, before);
  }

  // ----- exclusive or

  lemma XorCancels(a: byte, b: byte)
    ensures XorByte(a, XorByte(a, b)) == b && XorByte(b, XorByte(a, b)) == a
  {
  }

  lemma XorOneDiffers(b: byte)
    ensures XorByte(b, 1) != b
  {
  }

  lemma XorSwap(a: byte, x: byte, y: byte)
    ensures XorByte(XorByte(a, x), y) == XorByte(XorByte(a, y), x) == XorByte(a, XorByte(x, y))
  {
  }

  lemma FlipSwap(v: seq<byte>, p: nat, x: byte, q: nat, y: byte)
    requires p < |v| && q < |v|
    ensures Flip(Flip(v, p, x), q, y) == Flip(Flip(v, q, y), p, x)
  {
    if p == q {
      XorSwap(v[p], x, y);
    }
  }

  lemma FlipTwice(v: seq<byte>, p: nat, x: byte, y: byte)
    requires p < |v|
    ensures Flip(Flip(v, p, x), p, y) == Flip(v, p, XorByte(x, y))
  {
    XorSwap(v[p], x, y);
  }

  /** A byte flipped before an exclusive-or diff is flipped by as much after it. */
  lemma {:induction false} XorElsewhere(pos: seq<nat>, v: seq<byte>, d: seq<byte>, p: nat, x: byte)
    requires Within(pos, |v|) && |d| == |pos| && p < |v|
    ensures XorAt(pos, Flip(v, p, x), d) == Flip(XorAt(pos, v, d), p, x)
    decreases |pos|
  {
    if pos != [] {
      var n := |pos| - 1;
      XorElsewhere(pos[..n], v, d[..n], p, x);
      FlipSwap(XorAt(pos[..n], v, d[..n]), p, x, pos[n], d[n]);
    }
  }

  /** Two exclusive-or diffs over one list of positions merge into one. */
  lemma {:induction false} XorMerges(pos: seq<nat>, v: seq<byte>, d: seq<byte>, e: seq<byte>)
    requires Within(pos, |v|) && |d| == |e| == |pos|
    ensures XorAt(pos, XorAt(pos, v, d), e) == XorAt(pos, v, Xor(d, e))
    decreases |pos|
  {
    if pos != [] {
      var n := |pos| - 1;
      var (q, p) := (pos[..n], pos[n]);
      var a := XorAt(q, v, d[..n]);
      XorMerges(q, v, d[..n], e[..n]);
      XorElsewhere(q, a, e[..n], p, d[n]);
      FlipTwice(XorAt(q, a, e[..n]), p, d[n], e[n]);
      assert Xor(d, e)[..n] == Xor(d[..n], e[..n]);
    }
  }

  /** With distinct positions the byte at pos[k] changes by diff[k] alone. */
  lemma {:induction false} XorAtOne(pos: seq<nat>, v: seq<byte>, d: seq<byte>, k: nat)
    requires Within(pos, |v|) && |d| == |pos| && Distinct(pos) && k < |pos|
    ensures XorAt(pos, v, d)[pos[k]] == XorByte(v[pos[k]], d[k])
    decreases |pos|
  {
    var n := |pos| - 1;
    if k == n {
      XorAtElse(pos[..n], v, d[..n], pos[n]);
    } else {
      XorAtOne(pos[..n], v, d[..n], k);
    }
  }

  /** No other byte changes. */
  lemma {:induction false} XorAtElse(pos: seq<nat>, v: seq<byte>, d: seq<byte>, p: nat)
    requires Within(pos, |v|) && |d| == |pos| && p < |v| && p !in pos
    ensures XorAt(pos, v, d)[p] == v[p]
    decreases |pos|
  {
    if pos != [] {
      XorAtElse(pos[..|pos| - 1], v, d[..|pos| - 1], p);
    }
  }

  lemma XorReplaysAt(pos: seq<nat>, before: seq<byte>, after: seq<byte>, d: seq<byte>, k: nat)
    requires Within(pos, |before|) && |after| == |before| && Distinct(pos) && k < |pos|
    requires d == Xor(Gather(pos, before), Gather(pos, after))
    ensures XorAt(pos, before, d)[pos[k]] == after[pos[k]] && XorAt(pos, after, d)[pos[k]] == before[pos[k]]
  {
    XorAtOne(pos, before, d, k);
    XorAtOne(pos, after, d, k);
    XorCancels(before[pos[k]], after[pos[k]]);
  }

  /** The logged exclusive or of before- and after-image turns one into the other, in both directions. */
  lemma XorReplays(pos: seq<nat>, before: seq<byte>, after: seq<byte>)
    requires Within(pos, |before|) && AgreeOutside(pos, before, after) && Distinct(pos)
    ensures var d := Xor(Gather(pos, before), Gather(pos, after));
            XorAt(pos, before, d) == after && XorAt(pos, after, d) == before
  {
    var d := Xor(Gather(pos, before), Gather(pos, after));
    var (r, s) := (XorAt(pos, before, d), XorAt(pos, after, d));
    forall p | 0 <= p < |before|
      ensures r[p] == after[p] && s[p] == before[p]
    {
      if p in pos {
        var k :| 0 <= k < |pos| && pos[k] == p;
        XorReplaysAt(pos, before, after, d, k);
      } else {
        XorAtElse(pos, before, d, p);
        XorAtElse(pos, after, d, p);
      }
    }
  }

  // ----- the loops

  lemma PositionsStep(slots: seq<Slot>, i: nat)
    requires i < |slots|
    ensures Positions(slots[..i + 1]) == Positions(slots[..i]) + Range(slots[i].offset, slots[i].length)
    ensures DiffLength(slots[..i + 1]) == DiffLength(slots[..i]) + slots[i].length
  {
    assert slots[..i + 1][..i] == slots[..i];
  }

  /** Part of the diff is no longer than the diff. */
  lemma {:induction false} LengthMonotone(slots: seq<Slot>, i: nat)
    requires i <= |slots|
    ensures DiffLength(slots[..i]) <= DiffLength(slots)
    decreases |slots| - i
  {
    if i == |slots| {
      assert slots[..i] == slots;
    } else {
      PositionsStep(slots, i);
      LengthMonotone(slots, i + 1);
    }
  }

  lemma PrefixFits(slots: seq<Slot>, i: nat, n: nat)
    requires i <= |slots| && Fits(slots, n)
    ensures Fits(slots[..i], n) && Within(Positions(slots[..i]), n)
  {
    FitsWithin(slots[..i], n);
  }

  /** Where the bytes of slot i lie in the diff, and which positions they come from. */
  lemma PositionsAt(slots: seq<Slot>, i: nat, at: nat, next: nat, pos: seq<nat>, pos': seq<nat>)
    requires i < |slots| && at == DiffLength(slots[..i]) && next == at + slots[i].length
    requires pos == Positions(slots[..i]) && pos' == Positions(slots[..i + 1])
    ensures next == |pos'| <= DiffLength(slots) && |pos| == at
    ensures forall k | 0 <= k < at :: pos'[k] == pos[k]
    ensures forall k | at <= k < next :: pos'[k] == slots[i].offset + (k - at)
  {
    PositionsStep(slots, i);
    LengthMonotone(slots, i + 1);
  }

  /** memcpy of one slot into the diff at `at`. */
  method CopyOut(slot: Slot, dst: array<byte>, at: nat, src: seq<byte>)
    requires slot.offset + slot.length <= |src| && at + slot.length <= dst.Length
    modifies dst
    ensures forall k | 0 <= k < dst.Length ::
              dst[k] == if at <= k < at + slot.length then src[slot.offset + (k - at)] else old(dst[k])
  {
    var b := 0;
    while b < slot.length
      invariant 0 <= b <= slot.length
      invariant forall k | 0 <= k < dst.Length ::
                  dst[k] == if at <= k < at + b then src[slot.offset + (k - at)] else old(dst[k])
    {
      dst[at + b] := src[slot.offset + b];
      b := b + 1;
    }
  }

  method GenerateDiff(slots: seq<Slot>, dst: array<byte>, src: seq<byte>)
    requires Fits(slots, |src|) && DiffLength(slots) <= dst.Length
    modifies dst
    ensures Within(Positions(slots), |src|)
    ensures dst[..DiffLength(slots)] == Gather(Positions(slots), src)
    ensures dst[DiffLength(slots)..] == old(dst[DiffLength(slots)..])
  {
    var at, i := 0, 0;
    ghost var pos: seq<nat> := [];
    while i < |slots|
      invariant 0 <= i <= |slots| && at == DiffLength(slots[..i]) <= DiffLength(slots)
      invariant pos == Positions(slots[..i]) && |pos| == at && Within(pos, |src|)
      invariant forall k | 0 <= k < at :: dst[k] == src[pos[k]]
      invariant forall k | at <= k < dst.Length :: dst[k] == old(dst[k])
    {
      var next := at + slots[i].length;
      ghost var pos' := Positions(slots[..i + 1]);
      PositionsAt(slots, i, at, next, pos, pos');
      PrefixFits(slots, i + 1, |src|);
      CopyOut(slots[i], dst, at, src);
      pos, at, i := pos', next, i + 1;
    }
    assert slots[..i] == slots;
  }

  lemma ScatterOne(pos: seq<nat>, p: nat, dst: seq<byte>, diff: seq<byte>, x: byte)
    requires Within(pos, |dst|) && p < |dst| && |diff| == |pos|
    ensures Within(pos + [p], |dst|)
    ensures Scatter(pos + [p], dst, diff + [x]) == Scatter(pos, dst, diff)[p := x]
  {
    assert (pos + [p])[..|pos|] == pos && (diff + [x])[..|pos|] == diff;
  }

  lemma XorOne(pos: seq<nat>, p: nat, dst: seq<byte>, diff: seq<byte>, x: byte)
    requires Within(pos, |dst|) && p < |dst| && |diff| == |pos|
    ensures Within(pos + [p], |dst|)
    ensures XorAt(pos + [p], dst, diff + [x]) == Flip(XorAt(pos, dst, diff), p, x)
  {
    assert (pos + [p])[..|pos|] == pos && (diff + [x])[..|pos|] == diff;
  }

  lemma RangeStep(offset: nat, b: nat)
    ensures Range(offset, b + 1) == Range(offset, b) + [offset + b]
  {
  }

  lemma {:induction false} ScatterAppend(a: seq<nat>, b: seq<nat>, v: seq<byte>, d: seq<byte>, e: seq<byte>)
    requires Within(a, |v|) && Within(b, |v|) && |d| == |a| && |e| == |b|
    ensures Within(a + b, |v|)
    ensures Scatter(a + b, v, d + e) == Scatter(b, Scatter(a, v, d), e)
    decreases |b|
  {
    if b == [] {
      assert a + b == a && d + e == d;
    } else {
      var n := |b| - 1;
      ScatterAppend(a, b[..n], v, d, e[..n]);
      assert a + b == (a + b[..n]) + [b[n]] && d + e == (d + e[..n]) + [e[n]];
      ScatterOne(a + b[..n], b[n], v, d + e[..n], e[n]);
    }
  }

  lemma {:induction false} XorAppend(a: seq<nat>, b: seq<nat>, v: seq<byte>, d: seq<byte>, e: seq<byte>)
    requires Within(a, |v|) && Within(b, |v|) && |d| == |a| && |e| == |b|
    ensures Within(a + b, |v|)
    ensures XorAt(a + b, v, d + e) == XorAt(b, XorAt(a, v, d), e)
    decreases |b|
  {
    if b == [] {
      assert a + b == a && d + e == d;
    } else {
      var n := |b| - 1;
      XorAppend(a, b[..n], v, d, e[..n]);
      assert a + b == (a + b[..n]) + [b[n]] && d + e == (d + e[..n]) + [e[n]];
      XorOne(a + b[..n], b[n], v, d + e[..n], e[n]);
    }
  }

  /** memcpy of one slot. */
  method CopySlot(slot: Slot, dst: array<byte>, src: seq<byte>)
    requires slot.offset + slot.length <= dst.Length && |src| == slot.length
    modifies dst
    ensures dst[..] == Scatter(Range(slot.offset, slot.length), old(dst[..]), src)
  {
    ghost var v := dst[..];
    var b := 0;
    while b < slot.length
      invariant 0 <= b <= slot.length
      invariant dst[..] == Scatter(Range(slot.offset, b), v, src[..b])
    {
      RangeStep(slot.offset, b);
      ScatterOne(Range(slot.offset, b), slot.offset + b, v, src[..b], src[b]);
      assert src[..b] + [src[b]] == src[..b + 1];
      dst[slot.offset + b] := src[b];
      b := b + 1;
    }
    assert src[..b] == src;
  }

  method FlipByte(dst: array<byte>, p: nat, x: byte)
    requires p < dst.Length
    modifies dst
    ensures dst[..] == Flip(old(dst[..]), p, x)
  {
    dst[p] := XorByte(dst[p], x);
  }

  lemma XorRangeStep(o: nat, b: nat, v: seq<byte>, src: seq<byte>)
    requires o + b < |v| && b < |src|
    ensures |XorAt(Range(o, b), v, src[..b])| == |v|
    ensures XorAt(Range(o, b + 1), v, src[..b + 1]) == Flip(XorAt(Range(o, b), v, src[..b]), o + b, src[b])
  {
    RangeStep(o, b);
    XorOne(Range(o, b), o + b, v, src[..b], src[b]);
    assert src[..b] + [src[b]] == src[..b + 1];
  }

  /** The exclusive-or loop of one slot. */
  method XorSlot(slot: Slot, dst: array<byte>, src: seq<byte>)
    requires slot.offset + slot.length <= dst.Length && |src| == slot.length
    modifies dst
    ensures dst[..] == XorAt(Range(slot.offset, slot.length), old(dst[..]), src)
  {
    ghost var v := dst[..];
    var b := 0;
    while b < slot.length
      invariant 0 <= b <= slot.length
      invariant dst[..] == XorAt(Range(slot.offset, b), v, src[..b])
    {
      XorRangeStep(slot.offset, b, v, src);
      FlipByte(dst, slot.offset + b, src[b]);
      b := b + 1;
    }
    assert src[..b] == src;
  }

  /** One more slot: where its part of the diff lies. */
  lemma SlotStep(slots: seq<Slot>, i: nat, n: nat)
    requires i < |slots| && Fits(slots, n)
    ensures var at := DiffLength(slots[..i]);
            && at + slots[i].length == DiffLength(slots[..i + 1]) <= DiffLength(slots)
            && Positions(slots[..i + 1]) == Positions(slots[..i]) + Range(slots[i].offset, slots[i].length)
            && Within(Positions(slots[..i]), n) && Within(Positions(slots[..i + 1]), n)
            && Within(Range(slots[i].offset, slots[i].length), n)
  {
    PositionsStep(slots, i);
    LengthMonotone(slots, i + 1);
    PrefixFits(slots, i, n);
    PrefixFits(slots, i + 1, n);
  }

  /** The value when the first i slots are done. */
  ghost function Scattered(slots: seq<Slot>, i: nat, v: seq<byte>, src: seq<byte>): (r: seq<byte>)
    requires i <= |slots| && Fits(slots, |v|) && |src| == DiffLength(slots)
  {
    PrefixFits(slots, i, |v|);
    LengthMonotone(slots, i);
    Scatter(Positions(slots[..i]), v, src[..DiffLength(slots[..i])])
  }

  lemma ScatteredStep(slots: seq<Slot>, i: nat, v: seq<byte>, src: seq<byte>, at: nat, next: nat)
    requires i < |slots| && Fits(slots, |v|) && |src| == DiffLength(slots)
    requires at == DiffLength(slots[..i]) && next == at + slots[i].length
    ensures next == DiffLength(slots[..i + 1]) <= |src| && |Scattered(slots, i, v, src)| == |v|
    ensures Scattered(slots, i + 1, v, src)
         == Scatter(Range(slots[i].offset, slots[i].length), Scattered(slots, i, v, src), src[at..next])
  {
    SlotStep(slots, i, |v|);
    ScatterAppend(Positions(slots[..i]), Range(slots[i].offset, slots[i].length), v, src[..at], src[at..next]);
    assert src[..at] + src[at..next] == src[..next];
  }

  lemma ScatteredAll(slots: seq<Slot>, v: seq<byte>, src: seq<byte>)
    requires Fits(slots, |v|) && |src| == DiffLength(slots)
    ensures Within(Positions(slots), |v|) && Scattered(slots, |slots|, v, src) == Scatter(Positions(slots), v, src)
    ensures Scattered(slots, 0, v, src) == v
  {
    FitsWithin(slots, |v|);
    assert slots[..|slots|] == slots && src[..|src|] == src;
  }

  ghost function Xored(slots: seq<Slot>, i: nat, v: seq<byte>, src: seq<byte>): (r: seq<byte>)
    requires i <= |slots| && Fits(slots, |v|) && |src| == DiffLength(slots)
  {
    PrefixFits(slots, i, |v|);
    LengthMonotone(slots, i);
    XorAt(Positions(slots[..i]), v, src[..DiffLength(slots[..i])])
  }

  lemma XoredStep(slots: seq<Slot>, i: nat, v: seq<byte>, src: seq<byte>, at: nat, next: nat)
    requires i < |slots| && Fits(slots, |v|) && |src| == DiffLength(slots)
    requires at == DiffLength(slots[..i]) && next == at + slots[i].length
    ensures next == DiffLength(slots[..i + 1]) <= |src| && |Xored(slots, i, v, src)| == |v|
    ensures Xored(slots, i + 1, v, src)
            == XorAt(Range(slots[i].offset, slots[i].length), Xored(slots, i, v, src), src[at..next])
  {
    SlotStep(slots, i, |v|);
    XorTwoParts(Positions(slots[..i]), Range(slots[i].offset, slots[i].length), Positions(slots[..i + 1]), v, src, at,
                next);
  }

  lemma XorTwoParts(ps: seq<nat>, qs: seq<nat>, both: seq<nat>, v: seq<byte>, src: seq<byte>, at: nat, next: nat)
    requires both == ps + qs && Within(ps, |v|) && Within(qs, |v|) && |ps| == at && |both| == next <= |src|
    ensures Within(both, |v|) && |XorAt(ps, v, src[..at])| == |v|
    ensures XorAt(both, v, src[..next]) == XorAt(qs, XorAt(ps, v, src[..at]), src[at..next])
  {
    XorAppend(ps, qs, v, src[..at], src[at..next]);
    assert src[..at] + src[at..next] == src[..next];
  }

  lemma XoredAll(slots: seq<Slot>, v: seq<byte>, src: seq<byte>)
    requires Fits(slots, |v|) && |src| == DiffLength(slots)
    ensures Within(Positions(slots), |v|) && Xored(slots, |slots|, v, src) == XorAt(Positions(slots), v, src)
    ensures Xored(slots, 0, v, src) == v
  {
    FitsWithin(slots, |v|);
    assert slots[..|slots|] == slots && src[..|src|] == src;
  }

  method ApplyDiff(slots: seq<Slot>, dst: array<byte>, src: seq<byte>)
    requires Fits(slots, dst.Length) && |src| == DiffLength(slots)
    modifies dst
    ensures Within(Positions(slots), dst.Length)
    ensures dst[..] == Scatter(Positions(slots), old(dst[..]), src)
  {
    ghost var v := dst[..];
    var at, i := 0, 0;
    ScatteredAll(slots, v, src);
    while i < |slots|
      invariant 0 <= i <= |slots| && at == DiffLength(slots[..i])
      invariant dst[..] == Scattered(slots, i, v, src)
    {
      var next := at + slots[i].length;
      ScatteredStep(slots, i, v, src, at, next);
      CopySlot(slots[i], dst, src[at..next]);
      at, i := next, i + 1;
    }
  }

  method ApplyXorDiff(slots: seq<Slot>, dst: array<byte>, src: seq<byte>)
    requires Fits(slots, dst.Length) && |src| == DiffLength(slots)
    modifies dst
    ensures Within(Positions(slots), dst.Length)
    ensures dst[..] == XorAt(Positions(slots), old(dst[..]), src)
  {
    ghost var v := dst[..];
    var at, i := 0, 0;
    XoredAll(slots, v, src);
    while i < |slots|
      invariant 0 <= i <= |slots| && at == DiffLength(slots[..i])
      invariant dst[..] == Xored(slots, i, v, src)
    {
      var next := at + slots[i].length;
      XoredStep(slots, i, v, src, at, next);
      XorSlot(slots[i], dst, src[at..next]);
      at, i := next, i + 1;
    }
  }

  /** Exclusive-ors one slot of src into the diff at `at`. */
  method XorOut(slot: Slot, dst: array<byte>, at: nat, src: seq<byte>)
    requires slot.offset + slot.length <= |src| && at + slot.length <= dst.Length
    modifies dst
    ensures forall k | 0 <= k < dst.Length ::
              dst[k] == if at <= k < at + slot.length then XorByte(old(dst[k]), src[slot.offset + (k - at)])
                else old(dst[k])
  {
    var b := 0;
    while b < slot.length
      invariant 0 <= b <= slot.length
      invariant forall k | 0 <= k < dst.Length ::
                  dst[k] == if at <= k < at + b then XorByte(old(dst[k]), src[slot.offset + (k - at)]) else old(dst[k])
    {
      dst[at + b] := XorByte(dst[at + b], src[slot.offset + b]);
      b := b + 1;
    }
  }

  /** generateXORDiff: exclusive-ors the slots of src into a diff that holds their before-image. */
  method GenerateXorDiff(slots: seq<Slot>, dst: array<byte>, src: seq<byte>)
    requires Fits(slots, |src|) && DiffLength(slots) <= dst.Length
    modifies dst
    ensures Within(Positions(slots), |src|)
    ensures dst[..DiffLength(slots)] == Xor(old(dst[..DiffLength(slots)]), Gather(Positions(slots), src))
    ensures dst[DiffLength(slots)..] == old(dst[DiffLength(slots)..])
  {
    var at, i := 0, 0;
    ghost var pos: seq<nat> := [];
    while i < |slots|
      invariant 0 <= i <= |slots| && at == DiffLength(slots[..i]) <= DiffLength(slots)
      invariant pos == Positions(slots[..i]) && |pos| == at && Within(pos, |src|)
      invariant forall k | 0 <= k < at :: dst[k] == XorByte(old(dst[k]), src[pos[k]])
      invariant forall k | at <= k < dst.Length :: dst[k] == old(dst[k])
    {
      var next := at + slots[i].length;
      ghost var pos' := Positions(slots[..i + 1]);
      PositionsAt(slots, i, at, next, pos, pos');
      PrefixFits(slots, i + 1, |src|);
      XorOut(slots[i], dst, at, src);
      pos, at, i := pos', next, i + 1;
    }
    assert slots[..i] == slots;
  }
}
