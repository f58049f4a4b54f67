/**
  Exactly when an update may be folded into the last record of a page: whatever its callback leaves, redo gives the
  leaf.
 */
module PageFolds {
  import opened Wrappers
  import opened Diff
  import opened LogRecord
  import opened Redo
  import opened PageLog
  import opened Compaction
  import opened PageLogRuns

  /** The operation with another value left by its callback. */
  function Leaving(op: Op, after: seq<byte>): (r: Op)
    requires op.DoUpdate?
  {
    DoUpdate(op.key, op.pad, op.slots, after, op.freeze)
  }

  ghost predicate ReplaysRight(p: Page, op: Op, capacity: nat)
    requires OpOk(p.leaf, op)
  {
    var q := Do(p, op, capacity);
    RedoFrom(q.image, q.log, q.count) == Some(q.leaf)
  }

  /** Whatever value the callback leaves, as long as it writes inside its slots only. */
  ghost predicate AlwaysReplays(p: Page, op: Op, capacity: nat)
    requires OpOk(p.leaf, op) && op.DoUpdate?
  {
    forall after | AgreeOutside(Positions(op.slots), p.leaf[op.key].value, after) ::
      ReplaysRight(p, Leaving(op, after), capacity)
  }

  // ----- callbacks and their diffs

  /** Every diff is that of some callback. */
  lemma SomeCallback(pos: seq<nat>, v: seq<byte>, e: seq<byte>)
    requires Within(pos, |v|) && Distinct(pos) && |e| == |pos|
    ensures AgreeOutside(pos, v, XorAt(pos, v, e))
    ensures Xor(Gather(pos, v), Gather(pos, XorAt(pos, v, e))) == e
  {
    var after := XorAt(pos, v, e);
    forall p | 0 <= p < |v| && p !in pos
      ensures v[p] == after[p]
    {
      XorAtElse(pos, v, e, p);
    }
    forall k | 0 <= k < |pos|
      ensures XorByte(v[pos[k]], after[pos[k]]) == e[k]
    {
      XorAtOne(pos, v, e, k);
      XorCancels(v[pos[k]], e[k]);
    }
  }

  /** The callback that leaves diff e. */
  ghost function Callback(leaf: Leaf, op: Op, e: seq<byte>): (r: Op)
    requires OpOk(leaf, op) && op.DoUpdate? && |e| == DiffLength(op.slots)
  {
    FitsWithin(op.slots, |leaf[op.key].value|);
    Leaving(op, XorAt(Positions(op.slots), leaf[op.key].value, e))
  }

  lemma CallbackOk(leaf: Leaf, op: Op, e: seq<byte>)
    requires OpOk(leaf, op) && op.DoUpdate? && |e| == DiffLength(op.slots)
    ensures OpOk(leaf, Callback(leaf, op, e))
    ensures RecordOf(leaf, Callback(leaf, op, e)) == WithDiff(RecordOf(leaf, op), e)
  {
    FitsWithin(op.slots, |leaf[op.key].value|);
    SomeCallback(Positions(op.slots), leaf[op.key].value, e);
  }

  /** The comparison does not see what the callback leaves. */
  lemma SameComparison(r: Record, u: Record, e: seq<byte>)
    requires Encodable(r) && Encodable(u) && u.Update? && |e| == |u.diff|
    ensures Encodable(WithDiff(u, e)) && |Encode(WithDiff(u, e))| == |Encode(u)|
    ensures Encode(WithDiff(u, e))[..Prefix(u)] == Encode(u)[..Prefix(u)] && Prefix(WithDiff(u, e)) == Prefix(u)
  {
    FrontSame(u, e);
    FrontAndDiff(u);
    FrontAndDiff(WithDiff(u, e));
    SamePrefix(Front(u), u.diff, e, Prefix(u));
  }

  lemma FoldsSame(p: Page, r: Record, u: Record, e: seq<byte>, capacity: nat)
    requires FoldsNow(p, r, u, capacity) && |e| == |u.diff|
    ensures Encodable(WithDiff(u, e)) && FoldsNow(p, r, WithDiff(u, e), capacity)
  {
    SameComparison(r, u, e);
  }

  // ----- redo up to the last record

  /** One iteration over a record, and the rest. */
  lemma IterateStep(next: Replayer, leaf: Leaf, r: Record, rest: seq<byte>, all: seq<byte>, n: nat)
    requires Encodable(r) && FaithfulAt(next, leaf, r, rest) && all == Encode(r) + rest && n > 0 && Apply(leaf, r).Some?
    ensures Iterate(next, leaf, all, n) == Iterate(next, Apply(leaf, r).value, rest, n - 1)
  {
    DropEncoded(Encode(r), rest);
  }

  /** The last of the records in front, with what follows it. */
  lemma LastInFront(leaf: Leaf, rs: seq<Record>, front: seq<Record>, x: Record, tail: seq<byte>)
    requires AllEncodable(rs) && rs != [] && front == rs[..|rs| - 1] && x == rs[|rs| - 1] && ApplyAll(leaf, rs).Some?
    ensures AllEncodable(front) && EncodeAll(rs) + tail == EncodeAll(front) + (Encode(x) + tail)
    ensures ApplyAll(leaf, front).Some? && ApplyAll(leaf, rs) == Apply(ApplyAll(leaf, front).value, x)
  {
    Assoc(EncodeAll(front), Encode(x), tail);
  }

  lemma NothingInFront(leaf: Leaf, rs: seq<Record>, tail: seq<byte>)
    requires rs == []
    ensures EncodeAll(rs) + tail == tail && ApplyAll(leaf, rs) == Some(leaf)
  {
  }

  /** The records in front are redone first. */
  lemma {:induction false} IterateFront(next: Replayer, leaf: Leaf, rs: seq<Record>, all: seq<byte>, tail: seq<byte>,
                                        n: nat,
                                        k: nat, before: Leaf)
    requires Faithful(next) && AllEncodable(rs) && ApplyAll(leaf, rs) == Some(before)
    requires all == EncodeAll(rs) + tail && n == |rs| + k
    ensures Iterate(next, leaf, all, n) == Iterate(next, before, tail, k)
    decreases |rs|
  {
    if rs == [] {
      NothingInFront(leaf, rs, tail);
      assert all == tail && n == k && leaf == before;
    } else {
      var (front, x) := (rs[..|rs| - 1], rs[|rs| - 1]);
      LastInFront(leaf, rs, front, x, tail);
      var mid := ApplyAll(leaf, front).value;
      IterateFront(next, leaf, front, all, Encode(x) + tail, n, k + 1, mid);
      IterateLast(next, mid, x, tail, k, before);
    }
  }

  lemma IterateLast(next: Replayer, mid: Leaf, x: Record, tail: seq<byte>, k: nat, before: Leaf)
    requires Faithful(next) && Encodable(x) && Apply(mid, x) == Some(before)
    ensures Iterate(next, mid, Encode(x) + tail, k + 1) == Iterate(next, before, tail, k)
  {
    assert FaithfulAt(next, mid, x, tail);
    IterateStep(next, mid, x, tail, Encode(x) + tail, k + 1);
  }

  lemma RedoFront(image: Leaf, before: Leaf, rs: seq<Record>, tail: seq<byte>)
    requires AllEncodable(rs) && ApplyAll(image, rs) == Some(before)
    ensures RedoFrom(image, EncodeAll(rs) + tail, |rs| + 1) == Iterate(Next, before, tail, 1)
  {
    NextIsFaithful();
    RedoFrontBy(Next, image, before, rs, tail);
  }

  lemma RedoFrontBy(next: Replayer, image: Leaf, before: Leaf, rs: seq<Record>, tail: seq<byte>)
    requires Faithful(next) && AllEncodable(rs) && ApplyAll(image, rs) == Some(before)
    ensures Iterate(next, image, EncodeAll(rs) + tail, |rs| + 1) == Iterate(next, before, tail, 1)
  {
    IterateFront(next, image, rs, EncodeAll(rs) + tail, tail, |rs| + 1, 1, before);
  }

  lemma IterateOne(next: Replayer, leaf: Leaf, tail: seq<byte>)
    ensures next(leaf, tail).None? ==> Iterate(next, leaf, tail, 1).None?
  {
  }

  // ----- the same number of slots: a byte lands in another place

  lemma FlipsApart(v: seq<byte>, p: nat, q: nat)
    requires p < |v| && q < |v| && p != q
    ensures Flip(v, p, 1) != Flip(v, q, 1)
  {
    XorOneDiffers(v[p]);
    assert Flip(v, p, 1)[p] == XorByte(v[p], 1) && Flip(v, q, 1)[p] == v[p];
  }

  lemma UnitDiffers(pos: seq<nat>, other: seq<nat>, v: seq<byte>, k: nat)
    requires Within(pos, |v|) && Within(other, |v|) && |pos| == |other| && k < |pos| && pos[k] != other[k]
    ensures XorAt(pos, v, Unit(|pos|, k)) != XorAt(other, v, Unit(|pos|, k))
  {
    XorUnit(pos, v, k);
    XorUnit(other, v, k);
    FlipsApart(v, pos[k], other[k]);
  }

  lemma ApplyUpdate(leaf: Leaf, u: Record)
    requires u.Update? && Apply(leaf, u).Some?
    ensures u.key in leaf && Within(Positions(u.slots), |leaf[u.key].value|) && |u.diff| == |Positions(u.slots)|
    ensures u.key in Apply(leaf, u).value
    ensures Apply(leaf, u).value[u.key].value == XorAt(Positions(u.slots), leaf[u.key].value, u.diff)
  {
    FitsWithin(u.slots, |leaf[u.key].value|);
  }

  /** The folded record redoes its diff at the old positions, the update does it at the new ones. */
  lemma OtherPlace(before: Leaf, leaf: Leaf, r: Record, u: Record, m: Record, k: nat)
    requires r.Update? && u.Update? && r.key == u.key && |r.diff| == |u.diff|
    requires Apply(before, r) == Some(leaf) && Apply(leaf, u).Some? && DiffLength(r.slots) == DiffLength(u.slots)
    requires k < DiffLength(u.slots) && u.diff == Unit(|u.diff|, k) && Positions(r.slots)[k] != Positions(u.slots)[k]
    requires m == WithDiff(r, Xor(r.diff, u.diff))
    ensures Apply(before, m) != Apply(leaf, u)
  {
    var v := before[r.key].value;
    ApplyUpdate(before, r);
    ApplyUpdate(leaf, u);
    if Apply(before, m).Some? {
      ApplyUpdate(before, m);
    }
    XorMerges(Positions(r.slots), v, r.diff, u.diff);
    UnitDiffers(Positions(r.slots), Positions(u.slots), leaf[r.key].value, k);
  }

  // ----- another number of slots: the second slot's length is overwritten

  /** The diff that turns the last two bytes of these four into 0xff. */
  function LengthDiff(s: seq<byte>, n: nat): (e: seq<byte>)
    requires |s| >= 4 && n >= 4
    ensures |e| == n
  {
    [0, 0, XorByte(s[2], 255), XorByte(s[3], 255)] + Zeros(n - 4)
  }

  /** A body whose second slot has length 0xffff cannot be read. */
  lemma TooLong(key: seq<byte>, p: seq<byte>, freeze: bool, n: nat)
    requires 2 <= n < 256 && 10 <= |p| < 2 + 4 * n + 0xffff && p[0] == Byte(n) && p[8] == 255 && p[9] == 255
    ensures ReadUpdate(key, p, freeze) == None
  {
    NumByte(n);
    if |p| >= 2 + 4 * n {
      SecondSlot(p[2..], n);
      LongSlot(ReadSlots(p[2..], n), 1);
    }
  }

  lemma {:induction false} SecondSlot(s: seq<byte>, n: nat)
    requires n >= 2 && |s| >= 4 * n && s[6] == 255 && s[7] == 255
    ensures ReadSlots(s, n)[1].length == 0xffff
    decreases n
  {
    if n == 2 {
      assert s[4 * 1 + 2..][0] == s[6] && s[4 * 1 + 2..][1] == s[7];
    } else {
      SecondSlot(s, n - 1);
    }
  }

  lemma {:induction false} LongSlot(slots: seq<Slot>, i: nat)
    requires i < |slots|
    ensures DiffLength(slots) >= slots[i].length
    decreases |slots|
  {
    if i < |slots| - 1 {
      LongSlot(slots[..|slots| - 1], i);
    }
  }

  lemma XorTo255(b: byte)
    ensures XorByte(b, XorByte(b, 255)) == 255
  {
  }

  /** A one-slot update folded into a record with more slots, with the diff that makes the second slot too long. */
  lemma LongBody(r: Record, u: Record, p: seq<byte>)
    requires Encodable(r) && Encodable(u) && r.Update? && u.Update? && LengthField(r) == LengthField(u)
    requires |u.slots| == 1 && |r.slots| >= 2 && |u.diff| >= 4
    requires u.diff == LengthDiff(EncodeBody(r)[6..], |u.diff|)
    requires p == Fold(EncodeBody(r), EncodeBody(u), DescriptorSize(u.slots))
    ensures p[0] == Byte(|r.slots|) && p[8] == 255 && p[9] == 255 && |p| == LengthField(r)
  {
    var (x, y) := (EncodeBody(r), EncodeBody(u));
    assert y[8] == u.diff[2] == XorByte(x[6..][2], 255) && y[9] == u.diff[3] == XorByte(x[6..][3], 255);
    assert x[6..][2] == x[8] && x[6..][3] == x[9];
    assert p[8] == XorByte(x[8], y[8]) && p[9] == XorByte(x[9], y[9]);
    XorTo255(x[8]);
    XorTo255(x[9]);
  }

  lemma Unreadable(leaf: Leaf, r: Record, u: Record)
    requires Encodable(r) && Encodable(u) && r.Update? && u.Update? && r.key == u.key
    requires LengthField(r) == LengthField(u)
    requires |u.slots| == 1 && |r.slots| >= 2 && |u.diff| >= 4
    requires u.diff == LengthDiff(EncodeBody(r)[6..], |u.diff|)
    ensures |Encode(r)| == |Encode(u)| && Next(leaf, Fold(Encode(r), Encode(u), HEADER + Prefix(u))) == None
  {
    var p := Fold(EncodeBody(r), EncodeBody(u), DescriptorSize(u.slots));
    FoldBehindKey(r, u, p);
    LongBody(r, u, p);
    TooLong(r.key, p, r.freeze, |r.slots|);
    ParseUpdate(r, p);
  }

  // ----- the page

  /** Where the last record of a page is, the records before it, and what they leave. */
  ghost predicate LastIs(p: Page, front: seq<Record>, before: Leaf, r: Record) {
    && AllEncodable(front) && Encodable(r) && p.count == |front| + 1
    && p.last.Some? && p.last.value <= |p.log|
    && p.log[..p.last.value] == EncodeAll(front) && p.log[p.last.value..] == Encode(r)
    && ApplyAll(p.image, front) == Some(before) && Apply(before, r) == Some(p.leaf)
  }

  lemma LastOf(p: Page, rs: seq<Record>) returns (front: seq<Record>, before: Leaf, r: Record)
    requires Logged(p, rs) && rs != [] && |rs| <= 255
    ensures LastIs(p, front, before, r) && r == rs[|rs| - 1]
  {
    front, r := rs[..|rs| - 1], rs[|rs| - 1];
    LoggedLast(p, rs);
    before := ApplyAll(p.image, front).value;
  }

  /** An update of the page as its log sees it. */
  ghost predicate FoldsNow(p: Page, r: Record, u: Record, capacity: nat) {
    && p.discardable && Encodable(r) && Encodable(u) && u.Update? && Overrides(Encode(r), Encode(u), Prefix(u))
    && |Encode(r)| == |Encode(u)| && |p.log| + |Encode(u)| <= capacity
  }

  /** Redo of the page after it is one iteration on the folded record. */
  lemma FoldedRedo(p: Page, front: seq<Record>, before: Leaf, r: Record, leaf': Leaf, u: Record, capacity: nat)
    requires LastIs(p, front, before, r) && FoldsNow(p, r, u, capacity)
    ensures var q := LogUpdate(p.(leaf := leaf'), u, capacity);
            && q.leaf == leaf'
            && RedoFrom(q.image, q.log, q.count)
               == Iterate(Next, before, Fold(Encode(r), Encode(u), HEADER + Prefix(u)), 1)
  {
    FoldedState(p, front, before, r, leaf', u, capacity);
    RedoFolded(LogUpdate(p.(leaf := leaf'), u, capacity), front, before,
               Fold(Encode(r), Encode(u), HEADER + Prefix(u)));
  }

  lemma FoldedState(p: Page, front: seq<Record>, before: Leaf, r: Record, leaf': Leaf, u: Record, capacity: nat)
    requires LastIs(p, front, before, r) && FoldsNow(p, r, u, capacity)
    ensures LogUpdate(p.(leaf := leaf'), u, capacity) == Refolded(p, leaf', FoldedLog(front, r, u))
  {
    UpdateFolds(p, front, r, leaf', u, capacity);
    StaysDiscardable(p, r, leaf', u, capacity);
  }

  lemma RedoFolded(q: Page, front: seq<Record>, before: Leaf, tail: seq<byte>)
    requires AllEncodable(front) && ApplyAll(q.image, front) == Some(before)
    requires q.log == EncodeAll(front) + tail && q.count == |front| + 1
    ensures RedoFrom(q.image, q.log, q.count) == Iterate(Next, before, tail, 1)
  {
    RedoFront(q.image, before, front, tail);
  }

  lemma StaysDiscardable(p: Page, r: Record, leaf': Leaf, u: Record, capacity: nat)
    requires FoldsNow(p, r, u, capacity)
    ensures LogUpdate(p.(leaf := leaf'), u, capacity).discardable
  {
  }

  lemma IterateRecord(leaf: Leaf, m: Record)
    requires Encodable(m)
    ensures Iterate(Next, leaf, Encode(m), 1) == Apply(leaf, m)
  {
    NextAlone(leaf, m);
    assert Encode(m)[|Encode(m)|..] == [];
  }

  lemma OtherPlaceReplaysWrong(p: Page, front: seq<Record>, before: Leaf, r: Record, leaf': Leaf, u: Record,
                               capacity: nat,
                               k: nat)
    requires LastIs(p, front, before, r) && FoldsNow(p, r, u, capacity) && Apply(p.leaf, u) == Some(leaf') && r.Update?
    requires r.key == u.key && |r.slots| == |u.slots| && |r.diff| == |u.diff|
    requires DiffLength(r.slots) == DiffLength(u.slots)
    requires k < DiffLength(u.slots) && u.diff == Unit(|u.diff|, k) && Positions(r.slots)[k] != Positions(u.slots)[k]
    ensures var q := LogUpdate(p.(leaf := leaf'), u, capacity); RedoFrom(q.image, q.log, q.count) != Some(q.leaf)
  {
    var m := WithDiff(r, Xor(r.diff, u.diff));
    FoldedRedo(p, front, before, r, leaf', u, capacity);
    FoldIsRecord(r, u, m);
    IterateRecord(before, m);
    OtherPlace(before, p.leaf, r, u, m, k);
  }

  lemma UnreadableReplaysWrong(p: Page, front: seq<Record>, before: Leaf, r: Record, leaf': Leaf, u: Record,
                               capacity: nat)
    requires LastIs(p, front, before, r) && FoldsNow(p, r, u, capacity) && r.Update?
    requires r.key == u.key && LengthField(r) == LengthField(u) && |u.slots| == 1 && |r.slots| >= 2 && |u.diff| >= 4
    requires u.diff == LengthDiff(EncodeBody(r)[6..], |u.diff|)
    ensures var q := LogUpdate(p.(leaf := leaf'), u, capacity); RedoFrom(q.image, q.log, q.count) != Some(q.leaf)
  {
    FoldedRedo(p, front, before, r, leaf', u, capacity);
    Unreadable(before, r, u);
    IterateOne(Next, before, Fold(Encode(r), Encode(u), HEADER + Prefix(u)));
  }

  lemma DoIsLog(p: Page, op: Op, capacity: nat)
    requires OpOk(p.leaf, op) && op.DoUpdate?
    ensures Do(p, op, capacity) == LogUpdate(p.(leaf := LeafAfter(p.leaf, op)), RecordOf(p.leaf, op), capacity)
  {
  }

  /** Whatever the leaf after it, redo of the page does not give it. */
  ghost predicate NeverRight(p: Page, u: Record, capacity: nat)
    requires Encodable(u) && u.Update?
  {
    forall leaf' | Apply(p.leaf, u) == Some(leaf') :: WrongAfter(p, u, leaf', capacity)
  }

  ghost predicate WrongAfter(p: Page, u: Record, leaf': Leaf, capacity: nat)
    requires Encodable(u) && u.Update?
  {
    var q := LogUpdate(p.(leaf := leaf'), u, capacity);
    RedoFrom(q.image, q.log, q.count) != Some(q.leaf)
  }

  lemma OtherPlaceNever(p: Page, front: seq<Record>, before: Leaf, r: Record, u: Record, capacity: nat, k: nat)
    requires LastIs(p, front, before, r) && FoldsNow(p, r, u, capacity) && r.Update?
    requires r.key == u.key && |r.slots| == |u.slots| && |r.diff| == |u.diff|
    requires DiffLength(r.slots) == DiffLength(u.slots)
    requires k < DiffLength(u.slots) && u.diff == Unit(|u.diff|, k) && Positions(r.slots)[k] != Positions(u.slots)[k]
    ensures NeverRight(p, u, capacity)
  {
    forall leaf' | Apply(p.leaf, u) == Some(leaf')
      ensures WrongAfter(p, u, leaf', capacity)
    {
      OtherPlaceReplaysWrong(p, front, before, r, leaf', u, capacity, k);
    }
  }

  lemma UnreadableNever(p: Page, front: seq<Record>, before: Leaf, r: Record, u: Record, capacity: nat)
    requires LastIs(p, front, before, r) && FoldsNow(p, r, u, capacity) && r.Update?
    requires r.key == u.key && LengthField(r) == LengthField(u) && |u.slots| == 1 && |r.slots| >= 2 && |u.diff| >= 4
    requires u.diff == LengthDiff(EncodeBody(r)[6..], |u.diff|)
    ensures NeverRight(p, u, capacity)
  {
    forall leaf' | Apply(p.leaf, u) == Some(leaf')
      ensures WrongAfter(p, u, leaf', capacity)
    {
      UnreadableReplaysWrong(p, front, before, r, leaf', u, capacity);
    }
  }

  /** A diff that is folded wrongly, for descriptors that name other bytes. */
  lemma SomeDiff(p: Page, front: seq<Record>, before: Leaf, r: Record, u: Record, capacity: nat) returns (e: seq<byte>)
    requires LastIs(p, front, before, r) && FoldsNow(p, r, u, capacity) && r.Update?
    requires Positions(r.slots) != Positions(u.slots)
    ensures |e| == |u.diff| && Encodable(WithDiff(u, e)) && NeverRight(p, WithDiff(u, e), capacity)
  {
    OverridesMeans(r, u);
    if |r.slots| == |u.slots| {
      var k := FirstDifference(Positions(r.slots), Positions(u.slots));
      e := Unit(|u.diff|, k);
      FoldsSame(p, r, u, e, capacity);
      OtherPlaceNever(p, front, before, r, WithDiff(u, e), capacity, k);
    } else {
      if |u.slots| >= 2 {
        CountCompared(r, u);
      }
      e := LengthDiff(EncodeBody(r)[6..], |u.diff|);
      FoldsSame(p, r, u, e, capacity);
      UnreadableNever(p, front, before, r, WithDiff(u, e), capacity);
    }
  }

  /** And the callback that leaves it. */
  lemma SomeReplaysWrong(p: Page, front: seq<Record>, before: Leaf, r: Record, op: Op, u: Record, capacity: nat)
    returns (op': Op)
    requires LastIs(p, front, before, r) && OpOk(p.leaf, op) && op.DoUpdate? && u == RecordOf(p.leaf, op)
    requires FoldsNow(p, r, u, capacity) && r.Update? && Positions(r.slots) != Positions(u.slots)
    ensures op'.DoUpdate? && op' == Leaving(op, op'.after) && OpOk(p.leaf, op') && !ReplaysRight(p, op', capacity)
  {
    var e := SomeDiff(p, front, before, r, u, capacity);
    CallbackOk(p.leaf, op, e);
    op' := Callback(p.leaf, op, e);
    RecordRedoes(p.leaf, op');
    assert WrongAfter(p, WithDiff(u, e), LeafAfter(p.leaf, op'), capacity);
    DoIsLog(p, op', capacity);
  }

  lemma CountFits(rs: seq<Record>, capacity: nat)
    requires AllEncodable(rs) && |EncodeAll(rs)| <= capacity < PAGE_ALIGNMENT
    ensures |rs| <= 170
  {
  }

  /** With FoldOk for one callback, every callback replays right. */
  lemma FoldOkReplays(p: Page, rs: seq<Record>, op: Op, after: seq<byte>, capacity: nat)
    requires Logged(p, rs) && p.discardable && OpOk(p.leaf, op) && op.DoUpdate? && FoldOk(p, op)
    requires capacity < PAGE_ALIGNMENT && |p.log| + |Encode(RecordOf(p.leaf, op))| <= capacity
    requires AgreeOutside(Positions(op.slots), p.leaf[op.key].value, after)
    ensures OpOk(p.leaf, Leaving(op, after)) && ReplaysRight(p, Leaving(op, after), capacity)
  {
    var op' := Leaving(op, after);
    var (u, u') := (RecordOf(p.leaf, op), RecordOf(p.leaf, op'));
    assert u' == WithDiff(u, u'.diff);
    FoldOkSame(p, rs, op, u, op', u');
    SameSize(u, u'.diff);
    RoomKeepsDiscardable(p, op', capacity);
    DoLeaf(p, op', capacity);
    DoFits(p, op', capacity);
    var rs' := DoLogs(p, rs, op', capacity);
    CountFits(rs', capacity);
    RedoIff(p.image, Do(p, op', capacity).leaf, rs');
  }

  lemma SameSize(u: Record, e: seq<byte>)
    requires u.Update? && Encodable(u) && |e| == |u.diff|
    ensures Encodable(WithDiff(u, e)) && |Encode(WithDiff(u, e))| == |Encode(u)|
  {
    FrontSame(u, e);
  }

  /** If the comparison lets u through, it names the bytes that r names. */
  ghost predicate Agrees(r: Record, u: Record)
    requires Encodable(r) && Encodable(u) && u.Update?
  {
    Overrides(Encode(r), Encode(u), Prefix(u)) ==> r.Update? && Positions(r.slots) == Positions(u.slots)
  }

  lemma AgreesSame(r: Record, u: Record, e: seq<byte>)
    requires Encodable(r) && Encodable(u) && u.Update? && |e| == |u.diff| && Agrees(r, u)
    ensures Encodable(WithDiff(u, e)) && Agrees(r, WithDiff(u, e))
  {
    SameComparison(r, u, e);
  }

  /** FoldOk, in terms of the last record. */
  lemma FoldOkMeaning(p: Page, rs: seq<Record>, op: Op, u: Record)
    requires Logged(p, rs) && OpOk(p.leaf, op) && op.DoUpdate? && u == RecordOf(p.leaf, op)
    ensures rs == [] ==> FoldOk(p, op)
    ensures rs != [] ==> (FoldOk(p, op) <==> Agrees(rs[|rs| - 1], u))
  {
    if rs != [] {
      var r := rs[|rs| - 1];
      LoggedLast(p, rs);
      RoundTrip(r, []);
      assert Encode(r) + [] == Encode(r);
    }
  }

  lemma FoldOkSame(p: Page, rs: seq<Record>, op: Op, u: Record, op': Op, u': Record)
    requires Logged(p, rs) && OpOk(p.leaf, op) && op.DoUpdate? && FoldOk(p, op) && u == RecordOf(p.leaf, op)
    requires OpOk(p.leaf, op') && op'.DoUpdate? && u' == RecordOf(p.leaf, op') && u' == WithDiff(u, u'.diff)
    requires |u'.diff| == |u.diff|
    ensures FoldOk(p, op')
  {
    FoldOkMeaning(p, rs, op, u);
    FoldOkMeaning(p, rs, op', u');
    if rs != [] {
      AgreesSame(rs[|rs| - 1], u, u'.diff);
    }
  }

  /**
    On any page and with any log it can have: redo gives the leaf whatever value an update's callback leaves, exactly
    when the update is not folded or names the bytes that the record before it names, in the same order.
   */
  lemma PageFoldIff(p: Page, rs: seq<Record>, op: Op, capacity: nat)
    requires Logged(p, rs) && p.discardable && OpOk(p.leaf, op) && op.DoUpdate?
    requires capacity < PAGE_ALIGNMENT && |p.log| + |Encode(RecordOf(p.leaf, op))| <= capacity
    ensures AlwaysReplays(p, op, capacity) <==> FoldOk(p, op)
  {
    if FoldOk(p, op) {
      forall after | AgreeOutside(Positions(op.slots), p.leaf[op.key].value, after)
        ensures ReplaysRight(p, Leaving(op, after), capacity)
      {
        FoldOkReplays(p, rs, op, after, capacity);
      }
    } else {
      var u := RecordOf(p.leaf, op);
      CountFits(rs, capacity);
      FoldOkMeaning(p, rs, op, u);
      var front, before, r := LastOf(p, rs);
      OverridesMeans(r, u);
      var op' := SomeReplaysWrong(p, front, before, r, op, u, capacity);
      assert !ReplaysRight(p, Leaving(op, op'.after), capacity);
    }
  }
}
