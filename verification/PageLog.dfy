/** The per-page log: leaf operations append records to it, and consecutive updates may be folded into the last one. */
module PageLog {
  import opened Wrappers
  import opened Diff
  import opened LogRecord
  import opened Redo

  // ----- leaf operations and their records

  /** pad: the byte of the descriptor that nobody sets. after: the value the callback leaves. */
  datatype Op =
    | DoInsert(key: seq<byte>, value: seq<byte>, freeze: bool)
    | DoUpdate(key: seq<byte>, pad: byte, slots: seq<Slot>, after: seq<byte>, freeze: bool)
    | DoRemove(key: seq<byte>)

  /**
    Insert of an absent key, update or remove of a present one; slots disjoint, the callback writes inside them only.
   */
  ghost predicate OpOk(leaf: Leaf, op: Op) {
    match op
    case DoInsert(key, value, _) => key !in leaf && |key| < FREEZE && |value| < LIMIT
    case DoRemove(key) => key in leaf && |key| < FREEZE && |leaf[key].value| < LIMIT
    case DoUpdate(key, _, slots, after, _) =>
      && key in leaf && |key| < FREEZE && 1 <= |slots| <= 255 && SlotsEncodable(slots)
      && DescriptorSize(slots) + DiffLength(slots) < LIMIT
      && Fits(slots, |leaf[key].value|) && Distinct(Positions(slots))
      && AgreeOutside(Positions(slots), leaf[key].value, after)
  }

  ghost function RecordOf(leaf: Leaf, op: Op): (r: Record)
    requires OpOk(leaf, op)
    ensures Encodable(r) && r.key == op.key
  {
    match op
    case DoInsert(key, value, freeze) => Insert(key, value, freeze)
    case DoRemove(key) => Remove(key, leaf[key].value)
    case DoUpdate(key, pad, slots, after, freeze) =>
      FitsWithin(slots, |leaf[key].value|);
      Update(key, pad, slots, Xor(Gather(Positions(slots), leaf[key].value), Gather(Positions(slots), after)), freeze)
  }

  ghost function LeafAfter(leaf: Leaf, op: Op): (l: Leaf)
    requires OpOk(leaf, op)
  {
    match op
    case DoInsert(key, value, freeze) => leaf[key := Row(value, freeze)]
    case DoRemove(key) => leaf - {key}
    case DoUpdate(key, _, _, after, freeze) => leaf[key := Row(after, leaf[key].frozen || freeze)]
  }

  /** Replaying the record of an operation redoes the operation. */
  lemma RecordRedoes(leaf: Leaf, op: Op)
    requires OpOk(leaf, op)
    ensures Apply(leaf, RecordOf(leaf, op)) == Some(LeafAfter(leaf, op))
  {
    if op.DoUpdate? {
      FitsWithin(op.slots, |leaf[op.key].value|);
      XorReplays(Positions(op.slots), leaf[op.key].value, op.after);
    }
  }

  // ----- the log

  /** image: the leaf as last written; count: nb_log_records; last: last_entry_offset. */
  datatype Page = Page(image: Leaf, leaf: Leaf, log: seq<byte>, count: nat, last: Option<nat>, discardable: bool)

  /** reservePPLEntry and the copy: a full buffer makes the page undiscardable. */
  function AppendRecord(p: Page, b: seq<byte>, capacity: nat): (r: Page) {
    if !p.discardable then p
    else if |p.log| + |b| > capacity then p.(discardable := false)
    else p.(log := p.log + b, count := Wrapped(p.count + 1), last := Some(|p.log|))
  }

  /** The key and descriptor of an update record: prefix_length. */
  function Prefix(r: Record): (n: nat)
    requires r.Update?
  {
    |r.key| + DescriptorSize(r.slots)
  }

  /**
    The comparison of update records. It starts at the header, so the last HEADER bytes of key and descriptor are not
    compared.
   */
  predicate Overrides(prev: seq<byte>, b: seq<byte>, prefix: nat) {
    prefix <= |prev| && prefix <= |b| && prev[..prefix] == b[..prefix]
  }

  /** The diff of the new record folded into the old one. */
  function Fold(prev: seq<byte>, b: seq<byte>, at: nat): (r: seq<byte>)
    requires |prev| == |b| && at <= |b|
    ensures |r| == |prev|
  {
    prev[..at] + Xor(prev[at..], b[at..])
  }

  /** The folding loop. */
  method FoldInPlace(dst: array<byte>, from: nat, src: seq<byte>, at: nat)
    requires from + |src| == dst.Length && at <= |src|
    modifies dst
    ensures dst[..from] == old(dst[..from])
    ensures dst[from..] == Fold(old(dst[from..]), src, at)
  {
    var i := at;
    while i < |src|
      invariant at <= i <= |src|
      invariant forall k | 0 <= k < from + at :: dst[k] == old(dst[k])
      invariant forall k | from + at <= k < from + i :: dst[k] == XorByte(old(dst[k]), src[k - from])
      invariant forall k | from + i <= k < dst.Length :: dst[k] == old(dst[k])
    {
      dst[from + i] := XorByte(dst[from + i], src[i]);
      i := i + 1;
    }
  }

  /**
    updateSameSizeInPlace's logging. Equal headers imply equal sizes; last_entry_offset is inside the log in every run.
   */
  function LogUpdate(p: Page, r: Record, capacity: nat): (q: Page)
    requires r.Update? && Encodable(r)
  {
    var b := Encode(r);
    if !p.discardable then p
    else if p.last.None? || p.last.value > |p.log| then AppendRecord(p, b, capacity)
    else
      var (k, prev) := (p.last.value, p.log[p.last.value..]);
      if Overrides(prev, b, Prefix(r)) && |prev| == |b| then
        if |p.log| + |b| > capacity then p.(discardable := false)
        else p.(log := p.log[..k] + Fold(prev, b, HEADER + Prefix(r)))
      else AppendRecord(p, b, capacity)
  }

  ghost function Do(p: Page, op: Op, capacity: nat): (q: Page)
    requires OpOk(p.leaf, op)
  {
    var r := RecordOf(p.leaf, op);
    var q := p.(leaf := LeafAfter(p.leaf, op));
    if op.DoUpdate? then LogUpdate(q, r, capacity) else AppendRecord(q, Encode(r), capacity)
  }

  // ----- what the comparison tells

  lemma HeaderPrefix(r: Record, n: nat)
    requires Encodable(r) && HEADER <= n <= |Encode(r)|
    ensures Encode(r)[..n][..HEADER] == EncodeHeader(r)
    ensures HEADER + |r.key| <= n ==> Encode(r)[..n][HEADER..HEADER + |r.key|] == r.key
  {
    ThreeParts(EncodeHeader(r), r.key, EncodeBody(r), n);
  }

  lemma ThreeParts(a: seq<byte>, b: seq<byte>, c: seq<byte>, n: nat)
    requires |a| <= n <= |a + b + c|
    ensures (a + b + c)[..n][..|a|] == a
    ensures |a| + |b| <= n ==> (a + b + c)[..n][|a|..|a| + |b|] == b
  {
  }

  lemma HeaderFields(r: Record, q: Record)
    requires Encodable(r) && Encodable(q) && EncodeHeader(r) == EncodeHeader(q)
    ensures TypeOf(r) == TypeOf(q) && KeyField(r) == KeyField(q) && LengthField(r) == LengthField(q)
  {
    HeaderRoundTrip(r, []);
    HeaderRoundTrip(q, []);
  }

  /**
    A record that an update may be folded into is an update of the same key, with the same freeze bit and the same size.
   */
  lemma OverridesMeans(r: Record, u: Record)
    requires Encodable(r) && Encodable(u) && u.Update? && Overrides(Encode(r), Encode(u), Prefix(u))
    ensures r.Update? && r.key == u.key && r.freeze == u.freeze
    ensures LengthField(r) == LengthField(u) && |Encode(r)| == |Encode(u)|
  {
    var n := Prefix(u);
    HeaderPrefix(r, n);
    HeaderPrefix(u, n);
    HeaderFields(r, u);
    KeyFieldRoundTrip(r);
    KeyFieldRoundTrip(u);
  }

  /** A descriptor with one slot is not compared at all: only header and key are. */
  lemma OneSlotIsNotCompared(r: Record, u: Record)
    requires Encodable(r) && Encodable(u) && r.Update? && u.Update? && r.key == u.key && r.freeze == u.freeze
    requires |r.slots| == |u.slots| == 1 && r.slots[0].length == u.slots[0].length
    ensures Overrides(Encode(r), Encode(u), Prefix(u))
  {
    assert DiffLength(r.slots[..0]) == 0 && DiffLength(u.slots[..0]) == 0;
    assert DiffLength(r.slots) == r.slots[0].length && DiffLength(u.slots) == u.slots[0].length;
    assert EncodeHeader(r) == EncodeHeader(u);
    FrontPart(EncodeHeader(r), r.key, EncodeBody(r));
    FrontPart(EncodeHeader(u), u.key, EncodeBody(u));
  }

  lemma FrontPart(a: seq<byte>, b: seq<byte>, c: seq<byte>)
    ensures (a + b + c)[..|a| + |b|] == a + b
  {
  }
}
