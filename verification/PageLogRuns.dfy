/** Runs of leaf operations: the page log always replays to the current leaf, under the exact conditions. */
module PageLogRuns {
  import opened Wrappers
  import opened Diff
  import opened LogRecord
  import opened Redo
  import opened PageLog
  import opened Compaction

  /** Where the last record starts. */
  function LastStart(rs: seq<Record>): (k: Option<nat>)
    requires AllEncodable(rs)
  {
    if rs == [] then None else Some(|EncodeAll(rs[..|rs| - 1])|)
  }

  /** The log holds these records, and they lead from the image to the leaf. */
  ghost predicate Logged(p: Page, rs: seq<Record>) {
    && AllEncodable(rs) && p.log == EncodeAll(rs) && p.count == Wrapped(|rs|) && p.last == LastStart(rs)
    && ApplyAll(p.image, rs) == Some(p.leaf)
  }

  /** An update that would be folded names the same bytes as the record it is folded into. */
  ghost predicate FoldOk(p: Page, op: Op)
    requires OpOk(p.leaf, op)
  {
    op.DoUpdate? && p.last.Some? && p.last.value <= |p.log| ==>
      var (prev, u) := (p.log[p.last.value..], RecordOf(p.leaf, op));
      var r := Parse(prev);
      Overrides(prev, Encode(u), Prefix(u)) ==>
        r.Some? && r.value.record.Update? && Positions(r.value.record.slots) == Positions(op.slots)
  }

  /** The page with one more record. */
  function Appended(p: Page, leaf': Leaf, b: seq<byte>): (q: Page) {
    p.(leaf := leaf', log := p.log + b, count := Wrapped(p.count + 1), last := Some(|p.log|))
  }

  /** The page with another last record. */
  function Refolded(p: Page, leaf': Leaf, log': seq<byte>): (q: Page) {
    p.(leaf := leaf', log := log')
  }

  lemma LoggedLast(p: Page, rs: seq<Record>)
    requires Logged(p, rs) && rs != []
    ensures p.last.Some? && p.last.value <= |p.log| && p.log[p.last.value..] == Encode(rs[|rs| - 1])
    ensures p.log[..p.last.value] == EncodeAll(rs[..|rs| - 1])
  {
  }

  lemma {:induction false} WrapNext(n: nat)
    ensures Wrapped(Wrapped(n) + 1) == Wrapped(n + 1)
  {
    if n >= 256 {
      WrapNext(n - 256);
    }
  }

  lemma CountNext(count: nat, n: nat, n': nat, count': nat)
    requires count == Wrapped(n) && n' == n + 1 && count' == Wrapped(count + 1)
    ensures count' == Wrapped(n')
  {
    WrapNext(n);
  }

  lemma ApplyLast(image: Leaf, rs: seq<Record>, leaf: Leaf, r: Record)
    requires ApplyAll(image, rs) == Some(leaf)
    ensures ApplyAll(image, rs + [r]) == Apply(leaf, r)
  {
    assert (rs + [r])[..|rs|] == rs;
  }

  lemma LastStartOf(rs: seq<Record>, r: Record)
    requires AllEncodable(rs) && Encodable(r)
    ensures AllEncodable(rs + [r]) && LastStart(rs + [r]) == Some(|EncodeAll(rs)|)
  {
    assert (rs + [r])[..|rs|] == rs;
  }

  lemma AppendFacts(rs: seq<Record>, r: Record, rs': seq<Record>, image: Leaf, leaf: Leaf)
    requires AllEncodable(rs) && Encodable(r) && rs' == rs + [r] && ApplyAll(image, rs) == Some(leaf)
    ensures AllEncodable(rs') && EncodeAll(rs') == EncodeAll(rs) + Encode(r) && LastStart(rs') == Some(|EncodeAll(rs)|)
    ensures ApplyAll(image, rs') == Apply(leaf, r) && |rs'| == |rs| + 1
  {
    EncodeLast(rs, r);
    ApplyLast(image, rs, leaf, r);
    LastStartOf(rs, r);
  }

  lemma AppendLogs(p: Page, rs: seq<Record>, leaf': Leaf, r: Record, b: seq<byte>, q: Page, rs': seq<Record>)
    requires Logged(p, rs) && Encodable(r) && b == Encode(r) && Apply(p.leaf, r) == Some(leaf')
    requires q == Appended(p, leaf', b) && rs' == rs + [r]
    ensures Logged(q, rs')
  {
    AppendFacts(rs, r, rs', p.image, p.leaf);
    CountNext(p.count, |rs|, |rs'|, q.count);
  }

  /** The log with the last record folded. */
  function FoldedLog(front: seq<Record>, r: Record, u: Record): (s: seq<byte>)
    requires AllEncodable(front) && Encodable(r) && Encodable(u) && u.Update? && |Encode(r)| == |Encode(u)|
  {
    EncodeAll(front) + Fold(Encode(r), Encode(u), HEADER + Prefix(u))
  }

  lemma FoldedLogIs(front: seq<Record>, r: Record, u: Record, m: Record)
    requires AllEncodable(front) && Encodable(r) && Encodable(u) && u.Update? && r.Update? && |r.key| == |u.key|
    requires |r.slots| == |u.slots| && |r.diff| == |u.diff| && m == WithDiff(r, Xor(r.diff, u.diff))
    ensures Encodable(m) && AllEncodable(front + [m])
    ensures |Encode(r)| == |Encode(u)| && FoldedLog(front, r, u) == EncodeAll(front + [m])
  {
    FoldIsRecord(r, u, m);
    EncodeLast(front, m);
  }

  lemma FoldedApplies(image: Leaf, rs: seq<Record>, front: seq<Record>, r: Record, u: Record, m: Record, leaf: Leaf,
                      leaf': Leaf)
    requires Encodable(r) && Encodable(u) && r.Update? && u.Update? && r.key == u.key && r.freeze == u.freeze
    requires Positions(r.slots) == Positions(u.slots) && |r.diff| == |u.diff| && m == WithDiff(r, Xor(r.diff, u.diff))
    requires rs == front + [r] && ApplyAll(image, rs) == Some(leaf) && Apply(leaf, u) == Some(leaf')
    ensures ApplyAll(image, front + [m]) == Some(leaf')
  {
    assert rs[..|front|] == front;
    var before := ApplyAll(image, front).value;
    ApplyLast(image, front, before, m);
    ApplyLast(image, front, before, r);
    XorBoth(before, r, u);
  }

  /** The new update is folded into the last record. */
  ghost predicate Folds(rs: seq<Record>, r: Record)
    requires AllEncodable(rs) && Encodable(r)
  {
    rs != [] && r.Update? && Overrides(Encode(rs[|rs| - 1]), Encode(r), Prefix(r))
  }

  lemma AppendShape(p: Page, leaf': Leaf, b: seq<byte>, capacity: nat)
    ensures var q := AppendRecord(p.(leaf := leaf'), b, capacity);
            q.discardable ==> q == Appended(p, leaf', b)
  {
  }

  lemma UpdateAppends(p: Page, rs: seq<Record>, leaf': Leaf, u: Record, b: seq<byte>, capacity: nat)
    requires Logged(p, rs) && Encodable(u) && u.Update? && b == Encode(u) && !Folds(rs, u)
    ensures var p' := p.(leaf := leaf');
            LogUpdate(p', u, capacity) == AppendRecord(p', b, capacity)
  {
    if rs != [] {
      LoggedLast(p, rs);
    }
  }

  lemma DoAppends(p: Page, rs: seq<Record>, op: Op, capacity: nat)
    requires Logged(p, rs) && OpOk(p.leaf, op) && !Folds(rs, RecordOf(p.leaf, op))
    ensures Do(p, op, capacity).discardable ==>
              Do(p, op, capacity) == Appended(p, LeafAfter(p.leaf, op), Encode(RecordOf(p.leaf, op)))
  {
    var (u, leaf') := (RecordOf(p.leaf, op), LeafAfter(p.leaf, op));
    AppendShape(p, leaf', Encode(u), capacity);
    if op.DoUpdate? {
      UpdateAppends(p, rs, leaf', u, Encode(u), capacity);
    }
  }

  lemma UpdateFolds(p: Page, front: seq<Record>, r: Record, leaf': Leaf, u: Record, capacity: nat)
    requires AllEncodable(front) && Encodable(r) && Encodable(u) && u.Update? && |Encode(r)| == |Encode(u)|
    requires Overrides(Encode(r), Encode(u), Prefix(u))
    requires p.last.Some? && p.last.value <= |p.log|
    requires p.log[..p.last.value] == EncodeAll(front) && p.log[p.last.value..] == Encode(r)
    ensures var q := LogUpdate(p.(leaf := leaf'), u, capacity);
            q.discardable ==> q == Refolded(p, leaf', FoldedLog(front, r, u))
  {
  }

  lemma DoFolds(p: Page, rs: seq<Record>, op: Op, capacity: nat)
    requires Logged(p, rs) && OpOk(p.leaf, op) && Folds(rs, RecordOf(p.leaf, op))
    ensures var (r, u) := (rs[|rs| - 1], RecordOf(p.leaf, op));
            && |Encode(r)| == |Encode(u)|
            && (Do(p, op, capacity).discardable ==>
                  Do(p, op, capacity) == Refolded(p, LeafAfter(p.leaf, op), FoldedLog(rs[..|rs| - 1], rs[|rs| - 1], u)))
  {
    LoggedLast(p, rs);
    OverridesMeans(rs[|rs| - 1], RecordOf(p.leaf, op));
    UpdateFolds(p, rs[..|rs| - 1], rs[|rs| - 1], LeafAfter(p.leaf, op), RecordOf(p.leaf, op), capacity);
  }

  /** The record read back from the log's last bytes is the last record. */
  lemma FoldOkMeans(p: Page, rs: seq<Record>, op: Op)
    requires Logged(p, rs) && OpOk(p.leaf, op) && FoldOk(p, op) && Folds(rs, RecordOf(p.leaf, op))
    ensures rs[|rs| - 1].Update? && Positions(rs[|rs| - 1].slots) == Positions(RecordOf(p.leaf, op).slots)
  {
    var r := rs[|rs| - 1];
    LoggedLast(p, rs);
    RoundTrip(r, []);
    assert Encode(r) + [] == Encode(r);
  }

  lemma DoLeaf(p: Page, op: Op, capacity: nat)
    requires OpOk(p.leaf, op)
    ensures Do(p, op, capacity).leaf == LeafAfter(p.leaf, op) && Do(p, op, capacity).image == p.image
    ensures Do(p, op, capacity).discardable ==> p.discardable
  {
    var q := p.(leaf := LeafAfter(p.leaf, op));
    if op.DoUpdate? {
      LogKeepsLeaf(q, RecordOf(p.leaf, op), capacity);
    }
  }

  lemma LogKeepsLeaf(q: Page, u: Record, capacity: nat)
    requires u.Update? && Encodable(u)
    ensures var r := LogUpdate(q, u, capacity);
            r.leaf == q.leaf && r.image == q.image && (r.discardable ==> q.discardable)
  {
  }

  /** One operation keeps the log right, as long as the page stays discardable. */
  lemma DoLogs(p: Page, rs: seq<Record>, op: Op, capacity: nat) returns (rs': seq<Record>)
    requires Logged(p, rs) && OpOk(p.leaf, op) && FoldOk(p, op)
    ensures Do(p, op, capacity).discardable ==> Logged(Do(p, op, capacity), rs')
    ensures |rs'| <= |rs| + 1
  {
    if !Do(p, op, capacity).discardable {
      rs' := rs;
    } else if Folds(rs, RecordOf(p.leaf, op)) {
      rs' := DoFoldLogs(p, rs, op, capacity);
    } else {
      DoAppendLogs(p, rs, op, capacity);
      rs' := rs + [RecordOf(p.leaf, op)];
    }
  }

  lemma DoAppendLogs(p: Page, rs: seq<Record>, op: Op, capacity: nat)
    requires Logged(p, rs) && OpOk(p.leaf, op) && !Folds(rs, RecordOf(p.leaf, op))
    requires Do(p, op, capacity).discardable
    ensures Logged(Do(p, op, capacity), rs + [RecordOf(p.leaf, op)])
  {
    var u := RecordOf(p.leaf, op);
    RecordRedoes(p.leaf, op);
    DoAppends(p, rs, op, capacity);
    AppendLogs(p, rs, LeafAfter(p.leaf, op), u, Encode(u), Do(p, op, capacity), rs + [u]);
  }

  lemma DoFoldLogs(p: Page, rs: seq<Record>, op: Op, capacity: nat) returns (rs': seq<Record>)
    requires Logged(p, rs) && OpOk(p.leaf, op) && FoldOk(p, op) && Folds(rs, RecordOf(p.leaf, op))
    requires Do(p, op, capacity).discardable
    ensures Logged(Do(p, op, capacity), rs') && |rs'| == |rs|
  {
    RecordRedoes(p.leaf, op);
    DoFolds(p, rs, op, capacity);
    FoldOkMeans(p, rs, op);
    rs' := FoldedRecords(p, rs, LeafAfter(p.leaf, op), RecordOf(p.leaf, op), Do(p, op, capacity));
  }

  lemma SplitLast(rs: seq<Record>)
    requires rs != []
    ensures rs == rs[..|rs| - 1] + [rs[|rs| - 1]]
  {
  }

  lemma FoldedRecords(p: Page, rs: seq<Record>, leaf': Leaf, u: Record, q: Page) returns (rs': seq<Record>)
    requires Logged(p, rs) && Encodable(u) && Folds(rs, u) && Apply(p.leaf, u) == Some(leaf')
    requires rs[|rs| - 1].Update? && Positions(rs[|rs| - 1].slots) == Positions(u.slots)
    requires |Encode(rs[|rs| - 1])| == |Encode(u)|
    requires q == Refolded(p, leaf', FoldedLog(rs[..|rs| - 1], rs[|rs| - 1], u))
    ensures Logged(q, rs') && |rs'| == |rs|
  {
    SplitLast(rs);
    OverridesMeans(rs[|rs| - 1], u);
    SameCount(rs[|rs| - 1], u);
    rs' := FoldedInto(p, rs, rs[..|rs| - 1], rs[|rs| - 1], leaf', u, q);
  }

  lemma FoldedInto(p: Page, rs: seq<Record>, front: seq<Record>, r: Record, leaf': Leaf, u: Record, q: Page)
    returns (rs': seq<Record>)
    requires Logged(p, rs) && rs == front + [r] && AllEncodable(front) && Encodable(r) && r.Update? && Encodable(u)
    requires u.Update?
    requires r.key == u.key && r.freeze == u.freeze && |r.slots| == |u.slots| && |r.diff| == |u.diff|
    requires Positions(r.slots) == Positions(u.slots) && |Encode(r)| == |Encode(u)| && Apply(p.leaf, u) == Some(leaf')
    requires q == Refolded(p, leaf', FoldedLog(front, r, u))
    ensures Logged(q, rs') && |rs'| == |rs|
  {
    var m := WithDiff(r, Xor(r.diff, u.diff));
    FoldedLogIs(front, r, u, m);
    FoldedApplies(p.image, rs, front, r, u, m, p.leaf, leaf');
    rs' := front + [m];
    LoggedRefold(p, rs, front, r, m, leaf', q);
  }

  lemma LoggedRefold(p: Page, rs: seq<Record>, front: seq<Record>, r: Record, m: Record, leaf': Leaf, q: Page)
    requires Logged(p, rs) && rs == front + [r] && AllEncodable(front) && Encodable(r) && Encodable(m)
    requires AllEncodable(front + [m]) && ApplyAll(p.image, front + [m]) == Some(leaf')
    requires q == Refolded(p, leaf', EncodeAll(front + [m]))
    ensures Logged(q, front + [m])
  {
    LastStartOf(front, m);
    LastStartOf(front, r);
  }

  // ----- runs

  /** A page just written: its image is its leaf and its log is empty. */
  function Fresh(image: Leaf): (p: Page) {
    Page(image, image, [], 0, None, true)
  }

  ghost predicate CanDo(p: Page, op: Op) {
    OpOk(p.leaf, op) && FoldOk(p, op)
  }

  /** A run of operations on a page; no fold changes which bytes a record names. */
  ghost predicate Run(pages: seq<Page>, ops: seq<Op>, image: Leaf, capacity: nat) {
    && |pages| == |ops| + 1 && pages[0] == Fresh(image)
    && forall i | 0 <= i < |ops| :: CanDo(pages[i], ops[i]) && pages[i + 1] == Do(pages[i], ops[i], capacity)
  }

  lemma {:induction false} RunLogged(pages: seq<Page>, ops: seq<Op>, image: Leaf, capacity: nat, k: nat)
    returns (rs: seq<Record>)
    requires Run(pages, ops, image, capacity) && k <= |ops| && pages[k].discardable
    ensures Logged(pages[k], rs) && |rs| <= k && pages[k].image == image
    decreases k
  {
    rs := [];
    if k > 0 {
      DoLeaf(pages[k - 1], ops[k - 1], capacity);
      rs := RunLogged(pages, ops, image, capacity, k - 1);
      rs := DoLogs(pages[k - 1], rs, ops[k - 1], capacity);
    }
  }

  /** BufferFrame's PAGE_ALIGNEMENT: its header, the head of the page log and the log records share these bytes. */
  const PAGE_ALIGNMENT: nat := 1024

  lemma DoFits(p: Page, op: Op, capacity: nat)
    requires OpOk(p.leaf, op) && |p.log| <= capacity
    ensures |Do(p, op, capacity).log| <= capacity
  {
    var q := p.(leaf := LeafAfter(p.leaf, op));
    if op.DoUpdate? {
      LogFits(q, RecordOf(p.leaf, op), capacity);
    }
  }

  lemma LogFits(q: Page, u: Record, capacity: nat)
    requires u.Update? && Encodable(u) && |q.log| <= capacity
    ensures |LogUpdate(q, u, capacity).log| <= capacity
  {
  }

  lemma {:induction false} RunFits(pages: seq<Page>, ops: seq<Op>, image: Leaf, capacity: nat, k: nat)
    requires Run(pages, ops, image, capacity) && k <= |ops|
    ensures |pages[k].log| <= capacity
    decreases k
  {
    if k > 0 {
      RunFits(pages, ops, image, capacity, k - 1);
      DoFits(pages[k - 1], ops[k - 1], capacity);
    }
  }

  /**
    While the page is discardable, redo of its log from the last written image gives the current leaf and consumes
    the log exactly. The byte that counts the records never wraps, because a log of less than 1024 bytes holds at
    most 170 of them.
   */
  lemma RunReplays(pages: seq<Page>, ops: seq<Op>, image: Leaf, capacity: nat, k: nat)
    requires Run(pages, ops, image, capacity) && capacity < PAGE_ALIGNMENT && k <= |ops| && pages[k].discardable
    ensures RedoFrom(image, pages[k].log, pages[k].count) == Some(pages[k].leaf)
    ensures pages[k].count <= 170
  {
    var rs := RunLogged(pages, ops, image, capacity, k);
    RunFits(pages, ops, image, capacity, k);
    RedoIff(image, pages[k].leaf, rs);
  }

  // ----- when a page can be discarded

  /** A run of any operations on a page, whatever its folds do. */
  ghost predicate AnyRun(pages: seq<Page>, ops: seq<Op>, image: Leaf, capacity: nat) {
    && |pages| == |ops| + 1 && pages[0] == Fresh(image)
    && forall i | 0 <= i < |ops| :: OpOk(pages[i].leaf, ops[i]) && pages[i + 1] == Do(pages[i], ops[i], capacity)
  }

  /** The record of the operation fits behind the log, be it folded or not. */
  ghost predicate Fits(p: Page, op: Op, capacity: nat)
    requires OpOk(p.leaf, op)
  {
    |p.log| + |Encode(RecordOf(p.leaf, op))| <= capacity
  }

  lemma DiscardableIff(p: Page, op: Op, capacity: nat)
    requires OpOk(p.leaf, op)
    ensures Do(p, op, capacity).discardable <==> p.discardable && Fits(p, op, capacity)
    ensures !Do(p, op, capacity).discardable ==>
              Do(p, op, capacity) == p.(leaf := LeafAfter(p.leaf, op), discardable := false)
  {
    var q := p.(leaf := LeafAfter(p.leaf, op));
    if op.DoUpdate? {
      LogDiscardableIff(q, RecordOf(p.leaf, op), capacity);
    }
  }

  lemma LogDiscardableIff(q: Page, u: Record, capacity: nat)
    requires u.Update? && Encodable(u)
    ensures LogUpdate(q, u, capacity).discardable <==> q.discardable && |q.log| + |Encode(u)| <= capacity
    ensures !LogUpdate(q, u, capacity).discardable ==> LogUpdate(q, u, capacity) == q.(discardable := false)
  {
  }

  /** A page is discardable exactly as long as every record so far has fit; from then on its log stays as it is. */
  lemma {:induction false} RunDiscardableIff(pages: seq<Page>, ops: seq<Op>, image: Leaf, capacity: nat, k: nat)
    requires AnyRun(pages, ops, image, capacity) && k <= |ops|
    ensures pages[k].discardable <==> forall i | 0 <= i < k :: Fits(pages[i], ops[i], capacity)
    ensures k < |ops| && !pages[k + 1].discardable ==>
              pages[k + 1].log == pages[k].log && pages[k + 1].count == pages[k].count
    decreases k
  {
    if k < |ops| {
      DiscardableIff(pages[k], ops[k], capacity);
    }
    if k > 0 {
      RunDiscardableIff(pages, ops, image, capacity, k - 1);
      DiscardableIff(pages[k - 1], ops[k - 1], capacity);
    }
  }

  // ----- a fold that does change which bytes a record names

  /** Sets byte p of a row. */
  function SetByte(key: seq<byte>, value: seq<byte>, p: nat): (op: Op)
    requires p < |value|
  {
    DoUpdate(key, 0, [Slot(p, 1)], value[p := 1], false)
  }

  lemma SetByteOk(leaf: Leaf, key: seq<byte>, value: seq<byte>, p: nat)
    requires |key| < FREEZE && p < |value| && p < LIMIT && key in leaf && leaf[key] == Row(value, false)
    requires value[p] == 0
    ensures OpOk(leaf, SetByte(key, value, p))
    ensures RecordOf(leaf, SetByte(key, value, p)) == Update(key, 0, [Slot(p, 1)], [1], false)
    ensures LeafAfter(leaf, SetByte(key, value, p)) == leaf[key := Row(value[p := 1], false)]
  {
    OneSlotLength(Slot(p, 1));
    assert Positions([Slot(p, 1)]) == [p];
    assert XorByte(0, 1) == 1;
  }

  lemma FreshLogged(image: Leaf)
    ensures Logged(Fresh(image), []) && Fresh(image).discardable
  {
  }

  lemma RoomKeepsDiscardable(p: Page, op: Op, capacity: nat)
    requires p.discardable && OpOk(p.leaf, op) && |p.log| + |Encode(RecordOf(p.leaf, op))| <= capacity
    ensures Do(p, op, capacity).discardable
  {
  }

  /** The first record of a page that has room for it. */
  lemma FirstLogged(p: Page, op: Op, capacity: nat)
    requires Logged(p, []) && p.discardable && OpOk(p.leaf, op)
    requires |p.log| + |Encode(RecordOf(p.leaf, op))| <= capacity
    ensures Logged(Do(p, op, capacity), [RecordOf(p.leaf, op)]) && Do(p, op, capacity).discardable
  {
    RoomKeepsDiscardable(p, op, capacity);
    DoAppendLogs(p, [], op, capacity);
    assert [] + [RecordOf(p.leaf, op)] == [RecordOf(p.leaf, op)];
  }

  /** Folding into a page's only record. */
  lemma SecondFolds(p: Page, r: Record, op: Op, u: Record, m: Record, capacity: nat)
    requires Logged(p, [r]) && p.discardable && OpOk(p.leaf, op) && RecordOf(p.leaf, op) == u && u.Update? && r.Update?
    requires Overrides(Encode(r), Encode(u), Prefix(u)) && |p.log| + |Encode(u)| <= capacity
    requires |r.slots| == |u.slots| && |r.key| == |u.key| && |r.diff| == |u.diff|
    requires m == WithDiff(r, Xor(r.diff, u.diff))
    ensures var q := Do(p, op, capacity);
            q.discardable && q.leaf == LeafAfter(p.leaf, op) && q.count == 1 && Encodable(m) && q.log == EncodeAll([m])
  {
    RoomKeepsDiscardable(p, op, capacity);
    DoLeaf(p, op, capacity);
    DoFolds(p, [r], op, capacity);
    assert [r][..0] == [];
    FoldedLogIs([], r, u, m);
    assert [] + [m] == [m];
  }

  lemma RedoOne(image: Leaf, m: Record)
    requires Encodable(m)
    ensures RedoFrom(image, EncodeAll([m]), 1) == Apply(image, m)
  {
    RedoReplays(image, [m], 1);
    assert [m][..0] == [];
  }

  /** The record of SetByte. */
  function ByteRecord(key: seq<byte>, p: nat, b: byte): (r: Record) {
    Update(key, 0, [Slot(p, 1)], [b], false)
  }

  lemma ByteRecords(key: seq<byte>, p: nat, q: nat)
    requires |key| < FREEZE && p < LIMIT && q < LIMIT
    ensures var (r, u) := (ByteRecord(key, p, 1), ByteRecord(key, q, 1));
            && Encodable(r) && Encodable(u) && |Encode(r)| == |Encode(u)| == HEADER + |key| + 7
            && Overrides(Encode(r), Encode(u), Prefix(u)) && r.key == u.key
            && |r.slots| == |u.slots| && |r.diff| == |u.diff| && r.Update? && u.Update?
            && ByteRecord(key, p, 0) == WithDiff(r, Xor(r.diff, u.diff))
  {
    OneSlotLength(Slot(p, 1));
    OneSlotLength(Slot(q, 1));
    OneSlotIsNotCompared(ByteRecord(key, p, 1), ByteRecord(key, q, 1));
    assert XorByte(1, 1) == 0;
  }

  lemma ZeroByteIsNothing(key: seq<byte>, n: nat, p: nat)
    requires p < n
    ensures Apply(ZeroLeaf(key, n), ByteRecord(key, p, 0)) == Some(ZeroLeaf(key, n))
  {
    OneSlotLength(Slot(p, 1));
    XorZeros([p], Zeros(n), [0]);
    assert Positions([Slot(p, 1)]) == [p];
    assert ZeroLeaf(key, n)[key := Row(Zeros(n), false)] == ZeroLeaf(key, n);
  }

  lemma OneRowPut(leaf: Leaf, key: seq<byte>, a: Row, b: Row)
    requires leaf == map[key := a]
    ensures leaf[key := b] == map[key := b]
  {
  }

  /** A page of one row whose only record has set byte p; setting byte q undoes that in the log. */
  lemma SecondField(page: Page, key: seq<byte>, value: seq<byte>, p: nat, q: nat, capacity: nat)
    requires |key| < FREEZE && p < LIMIT && q < LIMIT && q < |value| && value[q] == 0
    requires Encodable(ByteRecord(key, p, 1)) && Logged(page, [ByteRecord(key, p, 1)]) && page.discardable
    requires page.leaf == map[key := Row(value, false)] && |page.log| + HEADER + |key| + 7 <= capacity
    ensures OpOk(page.leaf, SetByte(key, value, q)) && Encodable(ByteRecord(key, p, 0))
    ensures var last := Do(page, SetByte(key, value, q), capacity);
            && last.discardable && last.leaf == map[key := Row(value[q := 1], false)] && last.count == 1
            && last.log == EncodeAll([ByteRecord(key, p, 0)])
  {
    SetByteOk(page.leaf, key, value, q);
    ByteRecords(key, p, q);
    OneRowPut(page.leaf, key, Row(value, false), Row(value[q := 1], false));
    SecondFolds(page, ByteRecord(key, p, 1), SetByte(key, value, q), ByteRecord(key, q, 1), ByteRecord(key, p, 0),
                capacity);
  }

  lemma FirstField(image: Leaf, key: seq<byte>, value: seq<byte>, p: nat, capacity: nat)
    requires |key| < FREEZE && p < LIMIT && p < |value| && value[p] == 0
    requires image == map[key := Row(value, false)] && HEADER + |key| + 7 <= capacity
    ensures OpOk(image, SetByte(key, value, p)) && Encodable(ByteRecord(key, p, 1))
    ensures var page := Do(Fresh(image), SetByte(key, value, p), capacity);
            && page.discardable && page.leaf == map[key := Row(value[p := 1], false)]
            && Logged(page, [ByteRecord(key, p, 1)]) && |page.log| == HEADER + |key| + 7
  {
    SetByteOk(image, key, value, p);
    ByteRecords(key, p, p);
    FreshLogged(image);
    FirstLogged(Fresh(image), SetByte(key, value, p), capacity);
    DoLeaf(Fresh(image), SetByte(key, value, p), capacity);
    EncodeOne(ByteRecord(key, p, 1), [ByteRecord(key, p, 1)]);
  }

  /**
    A page with one row of zeros: one update sets byte p, the next one byte q. They are folded, and redo of the log
    flips byte p twice: it gives the page as it was before both updates.
   */
  lemma TwoFieldsReplayWrong(key: seq<byte>, n: nat, p: nat, q: nat, capacity: nat)
    requires |key| < FREEZE && p < n && q < n && p < LIMIT && q < LIMIT && p != q
    requires 2 * (HEADER + |key| + 7) <= capacity
    ensures var (image, value) := (ZeroLeaf(key, n), Zeros(n));
            && OpOk(image, SetByte(key, value, p))
            && var page := Do(Fresh(image), SetByte(key, value, p), capacity);
            && OpOk(page.leaf, SetByte(key, value[p := 1], q))
            && var last := Do(page, SetByte(key, value[p := 1], q), capacity);
            && last.discardable && last.leaf == map[key := Row(value[p := 1][q := 1], false)] && last.leaf != image
            && RedoFrom(image, last.log, last.count) == Some(image)
  {
    var (image, value) := (ZeroLeaf(key, n), Zeros(n));
    FirstField(image, key, value, p, capacity);
    var page := Do(Fresh(image), SetByte(key, value, p), capacity);
    SecondField(page, key, value[p := 1], p, q, capacity);
    RedoOne(image, ByteRecord(key, p, 0));
    ZeroByteIsNothing(key, n, p);
    assert value[p := 1][q := 1][q] == 1;
  }
}
