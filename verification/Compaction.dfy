/** When folding an update into the previous record is right, and what the page log then replays to. */
module Compaction {
  import opened Wrappers
  import opened Diff
  import opened LogRecord
  import opened Redo
  import opened PageLog

  function WithDiff(r: Record, d: seq<byte>): (q: Record)
    requires r.Update?
  {
    Update(r.key, r.pad, r.slots, d, r.freeze)
  }

  /** The two updates, one after the other. */
  function ApplyBoth(leaf: Leaf, r: Record, u: Record): (l: Option<Leaf>) {
    match Apply(leaf, r)
    case None => None
    case Some(leaf') => Apply(leaf', u)
  }

  /** The folded record, read back, does what the two records did. */
  ghost predicate FoldsRight(leaf: Leaf, r: Record, u: Record)
    requires Encodable(r) && Encodable(u) && u.Update? && |Encode(r)| == |Encode(u)|
  {
    match ApplyBoth(leaf, r, u)
    case None => true
    case Some(leaf') => Next(leaf, Fold(Encode(r), Encode(u), HEADER + Prefix(u))) == Some(Step(leaf', |Encode(r)|))
  }

  // ----- equal positions: folding is right

  lemma {:induction false} PositionsLength(slots: seq<Slot>)
    ensures |Positions(slots)| == DiffLength(slots)
  {
  }

  lemma FoldParts(a: seq<byte>, b: seq<byte>, d: seq<byte>, e: seq<byte>, n: nat)
    requires |a| == |b| == n && |d| == |e|
    ensures Fold(a + d, b + e, n) == a + Xor(d, e)
  {
  }

  /** Everything but the diff. */
  function Front(r: Record): (s: seq<byte>)
    requires r.Update? && Encodable(r)
    ensures |s| == HEADER + Prefix(r)
  {
    EncodeHeader(r) + r.key + EncodeDescriptor(r.pad, r.slots)
  }

  lemma FrontAndDiff(r: Record)
    requires r.Update? && Encodable(r)
    ensures Encode(r) == Front(r) + r.diff
  {
    Assoc4(EncodeHeader(r), r.key, EncodeDescriptor(r.pad, r.slots), r.diff);
  }

  lemma Assoc4(a: seq<byte>, b: seq<byte>, c: seq<byte>, d: seq<byte>)
    ensures a + b + (c + d) == a + b + c + d
  {
  }

  lemma FrontSame(r: Record, d: seq<byte>)
    requires r.Update? && Encodable(r) && |d| == |r.diff|
    ensures Encodable(WithDiff(r, d)) && Front(WithDiff(r, d)) == Front(r) && |Encode(WithDiff(r, d))| == |Encode(r)|
  {
  }

  /** With descriptors of one size, folding leaves the old record with both diffs exclusive-ored. */
  lemma FoldIsRecord(r: Record, u: Record, m: Record)
    requires Encodable(r) && Encodable(u) && r.Update? && u.Update? && |r.key| == |u.key|
    requires |r.slots| == |u.slots| && |r.diff| == |u.diff| && m == WithDiff(r, Xor(r.diff, u.diff))
    ensures Encodable(m) && |Encode(r)| == |Encode(u)| == |Encode(m)|
    ensures Fold(Encode(r), Encode(u), HEADER + Prefix(u)) == Encode(m)
  {
    FrontSame(r, Xor(r.diff, u.diff));
    FoldParts(Front(r), Front(u), r.diff, u.diff, HEADER + Prefix(u));
    FrontAndDiff(r);
    FrontAndDiff(u);
    FrontAndDiff(m);
  }

  lemma PutTwice(leaf: Leaf, key: seq<byte>, a: Row, b: Row)
    ensures leaf[key := a][key := b] == leaf[key := b]
  {
  }

  lemma XorBoth(leaf: Leaf, r: Record, u: Record)
    requires Encodable(r) && Encodable(u) && r.Update? && u.Update? && r.key == u.key && r.freeze == u.freeze
    requires Positions(r.slots) == Positions(u.slots) && |r.diff| == |u.diff| && ApplyBoth(leaf, r, u).Some?
    ensures Apply(leaf, WithDiff(r, Xor(r.diff, u.diff))) == ApplyBoth(leaf, r, u)
  {
    var (v, pos) := (leaf[r.key].value, Positions(r.slots));
    var frozen := leaf[r.key].frozen || r.freeze;
    FitsWithin(r.slots, |v|);
    XorMerges(pos, v, r.diff, u.diff);
    PutTwice(leaf, r.key, Row(XorAt(pos, v, r.diff), frozen), Row(XorAt(pos, XorAt(pos, v, r.diff), u.diff), frozen));
  }

  /** One flattened list of positions means one size of descriptor. */
  lemma SameCount(r: Record, u: Record)
    requires Encodable(r) && Encodable(u) && r.Update? && u.Update? && LengthField(r) == LengthField(u)
    requires Positions(r.slots) == Positions(u.slots)
    ensures |r.slots| == |u.slots| && |r.diff| == |u.diff|
  {
    PositionsLength(r.slots);
    PositionsLength(u.slots);
  }

  lemma NextAlone(leaf: Leaf, r: Record)
    requires Encodable(r)
    ensures Next(leaf, Encode(r)) == StepOf(leaf, r)
  {
    NextOf(leaf, r, []);
    assert Encode(r) + [] == Encode(r);
  }

  lemma EqualPositionsFoldRight(leaf: Leaf, r: Record, u: Record)
    requires Encodable(r) && Encodable(u) && r.Update? && u.Update? && r.key == u.key && r.freeze == u.freeze
    requires LengthField(r) == LengthField(u) && Positions(r.slots) == Positions(u.slots)
    ensures |Encode(r)| == |Encode(u)| && FoldsRight(leaf, r, u)
  {
    SameCount(r, u);
    var m := WithDiff(r, Xor(r.diff, u.diff));
    FoldIsRecord(r, u, m);
    if ApplyBoth(leaf, r, u).Some? {
      XorBoth(leaf, r, u);
      NextAlone(leaf, m);
    }
  }

  // ----- other positions: some contents are replayed wrongly

  function Zeros(n: nat): (r: seq<byte>)
    ensures |r| == n && forall k | 0 <= k < n :: r[k] == 0
  {
    seq(n, k => 0)
  }

  function Unit(n: nat, k: nat): (r: seq<byte>)
    requires k < n
  {
    Zeros(n)[k := 1]
  }

  lemma FlipZero(v: seq<byte>, p: nat)
    requires p < |v|
    ensures Flip(v, p, 0) == v
  {
  }

  lemma {:induction false} XorZeros(pos: seq<nat>, v: seq<byte>, d: seq<byte>)
    requires Within(pos, |v|) && |d| == |pos| && forall k | 0 <= k < |d| :: d[k] == 0
    ensures XorAt(pos, v, d) == v
    decreases |pos|
  {
    if pos != [] {
      var n := |pos| - 1;
      XorZeros(pos[..n], v, d[..n]);
      FlipZero(v, pos[n]);
    }
  }

  lemma {:induction false} XorUnit(pos: seq<nat>, v: seq<byte>, k: nat)
    requires Within(pos, |v|) && k < |pos|
    ensures XorAt(pos, v, Unit(|pos|, k)) == Flip(v, pos[k], 1)
    decreases |pos|
  {
    var (n, d) := (|pos| - 1, Unit(|pos|, k));
    if k == n {
      XorZeros(pos[..n], v, d[..n]);
    } else {
      assert d[..n] == Unit(n, k);
      XorUnit(pos[..n], v, k);
      FlipZero(Flip(v, pos[k], 1), pos[n]);
    }
  }

  lemma FlipsDiffer(n: nat, p: nat, q: nat)
    requires p < n && q < n
    ensures Flip(Zeros(n), p, 1) != Zeros(n)
    ensures p != q ==> Flip(Zeros(n), p, 1) != Flip(Zeros(n), q, 1)
  {
    assert Flip(Zeros(n), p, 1)[p] == 1;
  }

  /** A leaf whose only row is long enough for both descriptors. */
  function ZeroLeaf(key: seq<byte>, n: nat): (l: Leaf) {
    map[key := Row(Zeros(n), false)]
  }

  /** Two updates of an all-zero row, the first changing nothing and the second one byte. */
  lemma ApplyUnit(key: seq<byte>, n: nat, r: Record, u: Record, k: nat)
    requires r.Update? && u.Update? && r.key == u.key == key && Fits(r.slots, n) && Fits(u.slots, n)
    requires r.diff == Zeros(DiffLength(r.slots)) && k < DiffLength(u.slots) && u.diff == Unit(DiffLength(u.slots), k)
    ensures var both := ApplyBoth(ZeroLeaf(key, n), r, u);
            && Positions(u.slots)[k] < n
            && both.Some? && key in both.value && both.value[key].value == Flip(Zeros(n), Positions(u.slots)[k], 1)
  {
    FitsWithin(r.slots, n);
    FitsWithin(u.slots, n);
    XorZeros(Positions(r.slots), Zeros(n), r.diff);
    XorUnit(Positions(u.slots), Zeros(n), k);
  }

  /** Same number of slots, other positions: the flipped byte lands in the wrong place. */
  lemma WrongPlace(n: nat, r: Record, u: Record, k: nat)
    requires Encodable(r) && Encodable(u) && r.Update? && u.Update? && r.key == u.key && r.freeze == u.freeze
    requires |r.slots| == |u.slots| && DiffLength(r.slots) == DiffLength(u.slots) && Fits(r.slots, n)
    requires Fits(u.slots, n)
    requires k < DiffLength(u.slots) && Positions(r.slots)[k] != Positions(u.slots)[k]
    requires r.diff == Zeros(DiffLength(r.slots)) && u.diff == Unit(DiffLength(u.slots), k)
    ensures |Encode(r)| == |Encode(u)| && !FoldsRight(ZeroLeaf(u.key, n), r, u)
  {
    var (leaf, m) := (ZeroLeaf(u.key, n), WithDiff(r, Xor(r.diff, u.diff)));
    ApplyUnit(u.key, n, r, u, k);
    XorWithZeros(r.diff, u.diff);
    ApplyOneUnit(u.key, n, m, k);
    FlipsDiffer(n, Positions(r.slots)[k], Positions(u.slots)[k]);
    FoldIsRecord(r, u, m);
    NotRight(leaf, r, u, m);
  }

  lemma NotRight(leaf: Leaf, r: Record, u: Record, m: Record)
    requires Encodable(r) && Encodable(u) && u.Update? && Encodable(m) && |Encode(r)| == |Encode(u)|
    requires Fold(Encode(r), Encode(u), HEADER + Prefix(u)) == Encode(m)
    requires ApplyBoth(leaf, r, u).Some? && Apply(leaf, m) != ApplyBoth(leaf, r, u)
    ensures !FoldsRight(leaf, r, u)
  {
    NextAlone(leaf, m);
  }

  lemma XorWithZeros(z: seq<byte>, d: seq<byte>)
    requires |z| == |d| && forall k | 0 <= k < |z| :: z[k] == 0
    ensures Xor(z, d) == d && Xor(d, z) == d
  {
  }

  lemma ApplyOneUnit(key: seq<byte>, n: nat, u: Record, k: nat)
    requires u.Update? && u.key == key && Fits(u.slots, n)
    requires k < DiffLength(u.slots) && u.diff == Unit(DiffLength(u.slots), k)
    ensures var one := Apply(ZeroLeaf(key, n), u);
            && Positions(u.slots)[k] < n
            && one.Some? && key in one.value && one.value[key].value == Flip(Zeros(n), Positions(u.slots)[k], 1)
  {
    FitsWithin(u.slots, n);
    XorUnit(Positions(u.slots), Zeros(n), k);
  }

  // ----- another number of slots

  lemma CountAt(r: Record)
    requires r.Update? && Encodable(r)
    ensures Encode(r)[HEADER + |r.key|] == Byte(|r.slots|) && Num(Byte(|r.slots|)) == |r.slots|
  {
    assert EncodeBody(r)[0] == EncodeDescriptor(r.pad, r.slots)[0] == Byte(|r.slots|);
    NumByte(|r.slots|);
  }

  /** With two or more slots in the new record, the counts are compared. */
  lemma CountCompared(r: Record, u: Record)
    requires Encodable(r) && Encodable(u) && r.Update? && u.Update? && r.key == u.key
    requires Overrides(Encode(r), Encode(u), Prefix(u)) && |u.slots| >= 2
    ensures |r.slots| == |u.slots|
  {
    var k := HEADER + |u.key|;
    CountAt(r);
    CountAt(u);
    assert Encode(r)[k] == Encode(r)[..Prefix(u)][k] && Encode(u)[k] == Encode(u)[..Prefix(u)][k];
  }

  lemma FoldTail(a: seq<byte>, b: seq<byte>, c: seq<byte>, d: seq<byte>, n: nat)
    requires |a| == |b| && |c| == |d| && n <= |c|
    ensures Fold(a + c, b + d, |a| + n) == a + Fold(c, d, n)
  {
  }

  /** A record with this header and key, and any payload behind the key. */
  lemma ParseUpdate(r: Record, p: seq<byte>)
    requires r.Update? && Encodable(r)
    ensures Parse(EncodeHeader(r) + r.key + p)
         == (match ReadUpdate(r.key, p, r.freeze)
             case None => None
             case Some(q) => Some(Parsed(q, HEADER + |r.key| + LengthField(r))))
  {
    var s := EncodeHeader(r) + r.key + p;
    FourParts(EncodeHeader(r), r.key, p, []);
    assert EncodeHeader(r) + r.key + p + [] == s && r.key + p + [] == r.key + p && p + [] == p;
    HeaderRoundTrip(r, r.key + p);
    KeyFieldRoundTrip(r);
  }

  /** Whatever slots are read, a payload of zeros behind them is a diff of zeros. */
  lemma ReadZeros(key: seq<byte>, p: seq<byte>, freeze: bool, c: nat)
    requires c < 256 && |p| >= 2 && p[0] == Byte(c) && forall j | 2 + 4 * c <= j < |p| :: p[j] == 0
    ensures var q := ReadUpdate(key, p, freeze);
            q.Some? ==> q.value.Update? && q.value.key == key && forall j | 0 <= j < |q.value.diff| ::
              q.value.diff[j] == 0
  {
    NumByte(c);
  }

  lemma ApplyZeros(key: seq<byte>, n: nat, q: Record)
    requires q.Update? && q.key == key && forall j | 0 <= j < |q.diff| :: q.diff[j] == 0
    ensures var l := Apply(ZeroLeaf(key, n), q);
            l.Some? ==> key in l.value && l.value[key].value == Zeros(n)
  {
    if Fits(q.slots, n) && |q.diff| == DiffLength(q.slots) {
      FitsWithin(q.slots, n);
      XorZeros(Positions(q.slots), Zeros(n), q.diff);
    }
  }

  /** The bytes behind the key after folding a one-slot record with its first diff byte set into a longer one. */
  lemma FoldedBody(r: Record, u: Record)
    requires Encodable(r) && Encodable(u) && r.Update? && u.Update? && LengthField(r) == LengthField(u)
    requires |u.slots| == 1 && |r.slots| >= 2
    requires r.diff == Zeros(DiffLength(r.slots)) && DiffLength(u.slots) > 0 && u.diff == Unit(DiffLength(u.slots), 0)
    ensures var p := Fold(EncodeBody(r), EncodeBody(u), DescriptorSize(u.slots));
            p[0] == Byte(|r.slots|) && forall j | 2 + 4 * |r.slots| <= j < |p| :: p[j] == 0
  {
    var (x, y, n) := (EncodeBody(r), EncodeBody(u), DescriptorSize(u.slots));
    var p := Fold(x, y, n);
    assert x[0] == Byte(|r.slots|);
    forall j | 2 + 4 * |r.slots| <= j < |p|
      ensures p[j] == 0
    {
      assert x[j] == r.diff[j - DescriptorSize(r.slots)] == 0;
      assert y[j] == u.diff[j - n] == 0;
      assert p[j] == XorByte(x[j], y[j]);
    }
  }

  lemma WrongCount(n: nat, r: Record, u: Record)
    requires Encodable(r) && Encodable(u) && r.Update? && u.Update? && r.key == u.key
    requires LengthField(r) == LengthField(u)
    requires |u.slots| == 1 && |r.slots| >= 2 && Fits(r.slots, n) && Fits(u.slots, n)
    requires r.diff == Zeros(DiffLength(r.slots)) && DiffLength(u.slots) > 0 && u.diff == Unit(DiffLength(u.slots), 0)
    ensures |Encode(r)| == |Encode(u)| && !FoldsRight(ZeroLeaf(u.key, n), r, u)
  {
    var p := Fold(EncodeBody(r), EncodeBody(u), DescriptorSize(u.slots));
    ApplyUnit(u.key, n, r, u, 0);
    FlipsDiffer(n, Positions(u.slots)[0], 0);
    FoldBehindKey(r, u, p);
    FoldedBody(r, u);
    NextOfZeros(n, r, p);
    LosesTheUpdate(n, r, u, Flip(Zeros(n), Positions(u.slots)[0], 1));
  }

  lemma FoldBehindKey(r: Record, u: Record, p: seq<byte>)
    requires Encodable(r) && Encodable(u) && r.Update? && u.Update? && r.key == u.key
    requires LengthField(r) == LengthField(u)
    requires p == Fold(EncodeBody(r), EncodeBody(u), DescriptorSize(u.slots))
    ensures |Encode(r)| == |Encode(u)|
    ensures Fold(Encode(r), Encode(u), HEADER + Prefix(u)) == EncodeHeader(r) + r.key + p
  {
    FoldTail(EncodeHeader(r) + r.key, EncodeHeader(u) + u.key, EncodeBody(r), EncodeBody(u), DescriptorSize(u.slots));
  }

  /** Both updates leave `value`, but the folded one leaves the row of zeros as it was. */
  lemma LosesTheUpdate(n: nat, r: Record, u: Record, value: seq<byte>)
    requires Encodable(r) && Encodable(u) && u.Update? && |Encode(r)| == |Encode(u)| && value != Zeros(n)
    requires var both := ApplyBoth(ZeroLeaf(u.key, n), r, u);
             both.Some? && u.key in both.value && both.value[u.key].value == value
    requires var s := Next(ZeroLeaf(u.key, n), Fold(Encode(r), Encode(u), HEADER + Prefix(u)));
             s.Some? ==> u.key in s.value.leaf && s.value.leaf[u.key].value == Zeros(n)
    ensures !FoldsRight(ZeroLeaf(u.key, n), r, u)
  {
  }

  /** A record whose diff is all zeros changes nothing, if it can be read at all. */
  lemma NextOfZeros(n: nat, r: Record, p: seq<byte>)
    requires r.Update? && Encodable(r) && |p| >= 2
    requires p[0] == Byte(|r.slots|) && forall j | 2 + 4 * |r.slots| <= j < |p| :: p[j] == 0
    ensures var s := Next(ZeroLeaf(r.key, n), EncodeHeader(r) + r.key + p);
            s.Some? ==> r.key in s.value.leaf && s.value.leaf[r.key].value == Zeros(n)
  {
    ReadZeros(r.key, p, r.freeze, |r.slots|);
    var q := ReadUpdate(r.key, p, r.freeze);
    if q.Some? {
      ApplyZeros(r.key, n, q.value);
    }
    ParseUpdate(r, p);
  }

  // ----- exactly when folding is right

  /** The comparison does not see the diffs. */
  lemma DiffsNotCompared(r: Record, u: Record, d: seq<byte>, e: seq<byte>)
    requires Encodable(r) && Encodable(u) && u.Update? && Overrides(Encode(r), Encode(u), Prefix(u))
    requires r.Update? && |d| == |r.diff| && |e| == |u.diff|
    ensures Encodable(WithDiff(r, d)) && Encodable(WithDiff(u, e))
    ensures |Encode(WithDiff(r, d))| == |Encode(WithDiff(u, e))|
    ensures Overrides(Encode(WithDiff(r, d)), Encode(WithDiff(u, e)), Prefix(u))
  {
    OverridesMeans(r, u);
    if |u.slots| >= 2 {
      CountCompared(r, u);
    }
    FrontSame(r, d);
    FrontSame(u, e);
    FrontAndDiff(r);
    FrontAndDiff(u);
    FrontAndDiff(WithDiff(r, d));
    FrontAndDiff(WithDiff(u, e));
    SamePrefix(Front(r), r.diff, d, Prefix(u));
    SamePrefix(Front(u), u.diff, e, Prefix(u));
  }

  lemma SamePrefix(a: seq<byte>, d: seq<byte>, e: seq<byte>, n: nat)
    requires n <= |a|
    ensures (a + d)[..n] == (a + e)[..n]
  {
  }

  /** Whatever the contents: folding these two updates does what they do one after the other. */
  ghost predicate AlwaysFoldsRight(r: Record, u: Record)
    requires Encodable(r) && Encodable(u) && r.Update? && u.Update? && |Encode(r)| == |Encode(u)|
  {
    forall leaf, d: seq<byte>, e: seq<byte> | |d| == |r.diff| && |e| == |u.diff| :: FoldsRightWith(leaf, r, u, d, e)
  }

  /** With these diffs: if the comparison lets the new update through, folding it is right. */
  ghost predicate FoldsRightWith(leaf: Leaf, r: Record, u: Record, d: seq<byte>, e: seq<byte>)
    requires Encodable(r) && Encodable(u) && r.Update? && u.Update? && |Encode(r)| == |Encode(u)|
    requires |d| == |r.diff| && |e| == |u.diff|
  {
    FrontSame(r, d);
    FrontSame(u, e);
    Overrides(Encode(WithDiff(r, d)), Encode(WithDiff(u, e)), Prefix(u)) ==>
      FoldsRight(leaf, WithDiff(r, d), WithDiff(u, e))
  }

  /** Room for both descriptors. */
  lemma {:induction false} FitsSome(slots: seq<Slot>) returns (n: nat)
    ensures Fits(slots, n)
    decreases |slots|
  {
    if slots == [] {
      n := 0;
    } else {
      var (k, s) := (|slots| - 1, slots[|slots| - 1]);
      n := FitsSome(slots[..k]);
      n := n + s.offset + s.length;
      assert forall i | 0 <= i < k :: slots[i] == slots[..k][i];
    }
  }

  lemma OtherPositionsFoldWrong(r: Record, u: Record) returns (leaf: Leaf, d: seq<byte>, e: seq<byte>)
    requires Encodable(r) && Encodable(u) && u.Update? && Overrides(Encode(r), Encode(u), Prefix(u))
    requires r.Update? && Positions(r.slots) != Positions(u.slots)
    ensures |Encode(r)| == |Encode(u)| && |d| == |r.diff| && |e| == |u.diff| && !FoldsRightWith(leaf, r, u, d, e)
  {
    OverridesMeans(r, u);
    var n1 := FitsSome(r.slots);
    var n2 := FitsSome(u.slots);
    var n := n1 + n2;
    leaf, d := ZeroLeaf(u.key, n), Zeros(DiffLength(r.slots));
    if |r.slots| == |u.slots| {
      var k := FirstDifference(Positions(r.slots), Positions(u.slots));
      e := Unit(DiffLength(u.slots), k);
      DiffsNotCompared(r, u, d, e);
      WrongPlace(n, WithDiff(r, d), WithDiff(u, e), k);
    } else {
      if |u.slots| >= 2 {
        CountCompared(r, u);
      }
      e := Unit(DiffLength(u.slots), 0);
      DiffsNotCompared(r, u, d, e);
      WrongCount(n, WithDiff(r, d), WithDiff(u, e));
    }
  }

  lemma FirstDifference(a: seq<nat>, b: seq<nat>) returns (k: nat)
    requires |a| == |b| && a != b
    ensures k < |a| && a[k] != b[k]
  {
    assert !(forall i | 0 <= i < |a| :: a[i] == b[i]);
    k :| 0 <= k < |a| && a[k] != b[k];
  }

  /**
    The records that the comparison lets through may be folded exactly when their descriptors name the same bytes
    in the same order. The comparison does not establish that.
   */
  lemma FoldIff(r: Record, u: Record)
    requires Encodable(r) && Encodable(u) && u.Update? && Overrides(Encode(r), Encode(u), Prefix(u))
    ensures r.Update? && |Encode(r)| == |Encode(u)|
    ensures AlwaysFoldsRight(r, u) <==> Positions(r.slots) == Positions(u.slots)
  {
    OverridesMeans(r, u);
    if Positions(r.slots) == Positions(u.slots) {
      forall leaf, d: seq<byte>, e: seq<byte> | |d| == |r.diff| && |e| == |u.diff|
        ensures FoldsRightWith(leaf, r, u, d, e)
      {
        FrontSame(r, d);
        FrontSame(u, e);
        EqualPositionsFoldRight(leaf, WithDiff(r, d), WithDiff(u, e));
      }
    } else {
      var leaf, d, e := OtherPositionsFoldWrong(r, u);
      assert !FoldsRightWith(leaf, r, u, d, e);
    }
  }

  /** Two updates of one byte each, of the same key at different places, pass the comparison and are folded wrongly. */
  lemma FoldsTwoFields(key: seq<byte>, p: nat, q: nat)
    requires |key| < FREEZE && p < LIMIT && q < LIMIT && p != q
    ensures var r := Update(key, 0, [Slot(p, 1)], [0], false);
            var u := Update(key, 0, [Slot(q, 1)], [0], false);
            && Encodable(r) && Encodable(u) && Overrides(Encode(r), Encode(u), Prefix(u))
            && |Encode(r)| == |Encode(u)| && !AlwaysFoldsRight(r, u)
  {
    var r := Update(key, 0, [Slot(p, 1)], [0], false);
    var u := Update(key, 0, [Slot(q, 1)], [0], false);
    OneSlotLength(Slot(p, 1));
    OneSlotLength(Slot(q, 1));
    OneSlotIsNotCompared(r, u);
    assert Positions(r.slots)[0] != Positions(u.slots)[0];
    FoldIff(r, u);
  }
}
