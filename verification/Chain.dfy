/**
  Chained versions: the newest value in the leaf, older ones in the history tree, keyed by the writer that replaced
  them.
 */
module Chain {
  import opened Wrappers
  import opened Diff
  import opened Versions
  import opened FatTupleGc

  /** UpdateVersion and RemoveVersion; the payload of the latter is the key followed by the value. */
  datatype Link = Patch(delta: Delta) | Removal(id: Id, key: seq<byte>, value: seq<byte>)

  /** The history tree, for one tuple: under the writer of a version, how to get to the version before it. */
  type History = map<Id, Link>

  datatype Tuple = Tuple(id: Id, value: seq<byte>, removed: bool, history: History)

  /** Crash: the chain grew past vi_max_chain_length. */
  datatype Found = Ok(value: seq<byte>) | NotFound | Crash

  predicate LinkOk(l: Link, n: nat) {
    match l
    case Patch(d) => DeltaOk(d, n)
    case Removal(_, _, value) => |value| == n
  }

  predicate HistoryOk(h: History, n: nat) {
    forall k | k in h :: LinkOk(h[k], n)
  }

  /** The head of a removed tuple is shortened; a walk from it begins with the removed value. */
  predicate WalkOk(h: History, id: Id, v: seq<byte>, n: nat) {
    HistoryOk(h, n) && (|v| == n || (id in h ==> h[id].Removal?))
  }

  function WriterOf(l: Link): (r: Id) {
    match l
    case Patch(d) => d.id
    case Removal(id, _, _) => id
  }

  /** A diff is applied; a removed value is copied from the start of the payload. */
  function Follow(l: Link, v: seq<byte>): (r: seq<byte>)
    requires l.Patch? ==> DeltaOk(l.delta, |v|)
  {
    match l
    case Patch(d) => Undo(d, v)
    case Removal(_, key, value) => (key + value)[..|value|]
  }

  /** The loop of reconstructChainedTuple, with the length of the chain so far. */
  function Walk(h: History, id: Id, v: seq<byte>, n: nat, vis: Id -> bool, length: nat, limit: nat): (r: Found)
    requires WalkOk(h, id, v, n)
    decreases limit - length
  {
    if id !in h then NotFound
    else
      var (w, next) := (Follow(h[id], v), WriterOf(h[id]));
      if vis(next) then Ok(w)
      else if length + 1 > limit then Crash
      else Walk(h, next, w, n, vis, length + 1, limit)
  }

  function ReadChained(t: Tuple, n: nat, vis: Id -> bool, limit: nat): (r: Found)
    requires WalkOk(t.history, t.id, t.value, n)
  {
    if !vis(t.id) then Walk(t.history, t.id, t.value, n, vis, 1, limit)
    else if t.removed then NotFound
    else Ok(t.value)
  }

  method ReconstructChainedTuple(t: Tuple, ghost n: nat, vis: Id -> bool, limit: nat) returns (r: Found)
    requires WalkOk(t.history, t.id, t.value, n)
    ensures r == ReadChained(t, n, vis, limit)
  {
    if vis(t.id) {
      if t.removed {
        return NotFound;
      }
      return Ok(t.value);
    }
    var h := t.history;
    var value := Materialize(t.value, |t.value|);
    assert t.value[..|t.value|] == t.value;
    var length, next := 1, t.id;
    while true
      invariant fresh(value) && WalkOk(h, next, value[..], n)
      invariant ReadChained(t, n, vis, limit) == Walk(h, next, value[..], n, vis, length, limit)
      decreases limit - length
    {
      if next !in h {
        return NotFound;
      }
      var link := h[next];
      match link {
        case Patch(d) => UndoInPlace(d, value);
        case Removal(_, key, x) => value := Materialize(key + x, |x|);
      }
      next := WriterOf(link);
      if vis(next) {
        return Ok(value[..]);
      }
      if length + 1 > limit {
        return Crash;
      }
      length := length + 1;
    }
  }

  /** A new buffer with the first n bytes. */
  method Materialize(bytes: seq<byte>, n: nat) returns (value: array<byte>)
    requires n <= |bytes|
    ensures fresh(value) && value[..] == bytes[..n]
  {
    value := new byte[n](k requires 0 <= k < n => bytes[k]);
  }

  /** Where delta i hangs: under the writer of the version after it. */
  function KeyOf(id: Id, ds: seq<Delta>, i: nat): (r: Id)
    requires i < |ds|
  {
    if i == |ds| - 1 then id else ds[i + 1].id
  }

  ghost predicate Linked(h: History, id: Id, ds: seq<Delta>) {
    forall i | 0 <= i < |ds| :: KeyOf(id, ds, i) in h && h[KeyOf(id, ds, i)] == Patch(ds[i])
  }

  /** No two versions have the same writer. */
  ghost predicate DistinctIds(id: Id, ds: seq<Delta>) {
    && (forall i, j | 0 <= i < j < |ds| :: ds[i].id != ds[j].id)
    && (forall i | 0 <= i < |ds| :: ds[i].id != id)
  }

  lemma LinkedOlder(h: History, id: Id, ds: seq<Delta>, d: Delta)
    requires Linked(h, id, ds + [d])
    ensures id in h && h[id] == Patch(d) && Linked(h, d.id, ds)
  {
    var all := ds + [d];
    assert KeyOf(id, all, |ds|) == id;
    forall i | 0 <= i < |ds|
      ensures KeyOf(d.id, ds, i) in h && h[KeyOf(d.id, ds, i)] == Patch(ds[i])
    {
      assert KeyOf(id, all, i) == KeyOf(d.id, ds, i);
    }
  }

  /** A linked chain that fits the limit reads what the deltas read; beyond the oldest delta there is nothing. */
  lemma {:induction false} WalkReads(h: History, id: Id, v: seq<byte>, ds: seq<Delta>, vis: Id -> bool, length: nat,
                                     limit: nat)
    requires HistoryOk(h, |v|) && DeltasOk(ds, |v|) && Linked(h, id, ds) && !vis(id)
    requires length + |ds| <= limit + 1
    ensures Reads(id, v, ds, vis).Some? ==> Walk(h, id, v, |v|, vis, length, limit) == Ok(Reads(id, v, ds, vis).value)
    ensures Reads(id, v, ds, vis).None? && BaseId(id, ds) !in h && length + |ds| <= limit ==>
              Walk(h, id, v, |v|, vis, length, limit) == NotFound
    decreases |ds|
  {
    if ds == [] {
      WalkEnds(id, v, vis);
    } else {
      var (rest, d) := (ds[..|ds| - 1], ds[|ds| - 1]);
      assert ds == rest + [d];
      WalkBack(id, v, d, rest, vis);
      LinkedOlder(h, id, rest, d);
      if !vis(d.id) {
        WalkReadsNext(h, d.id, Undo(d, v), rest, vis, length, limit);
        if length + 1 <= limit {
          WalkReads(h, d.id, Undo(d, v), rest, vis, length + 1, limit);
        }
      }
    }
  }

  /** At the limit no older version can be visible. */
  lemma WalkReadsNext(h: History, id: Id, v: seq<byte>, ds: seq<Delta>, vis: Id -> bool, length: nat, limit: nat)
    requires DeltasOk(ds, |v|) && !vis(id) && length + |ds| <= limit
    ensures length + 1 > limit ==> Reads(id, v, ds, vis).None?
  {
    if ds == [] {
      WalkEnds(id, v, vis);
    }
  }

  /** The chain returns the value as of the reader's snapshot. */
  lemma ChainReads(h: History, id: Id, v: seq<byte>, ds: seq<Delta>, vis: Id -> bool, limit: nat)
    requires HistoryOk(h, |v|) && DeltasOk(ds, |v|) && Linked(h, id, ds) && |ds| <= limit
    ensures var r := ReadChained(Tuple(id, v, false, h), |v|, vis, limit);
            && (Reads(id, v, ds, vis).Some? ==> r == Ok(Reads(id, v, ds, vis).value))
            && (Reads(id, v, ds, vis).None? && BaseId(id, ds) !in h && |ds| < limit ==> r == NotFound)
  {
    if vis(id) {
      ReadsHead(id, v, ds, vis);
    } else {
      WalkReads(h, id, v, ds, vis, 1, limit);
    }
  }

  // ----- updates in chained mode

  datatype Op = Op(slots: seq<Slot>, writer: Id, after: seq<byte>)

  /** The descriptor fits the value, and the callback writes inside its slots only. */
  ghost predicate OpOk(t: Tuple, op: Op) {
    Fits(op.slots, |t.value|) && AgreeOutside(Positions(op.slots), t.value, op.after)
  }

  /** insertVersion, then the new value and writer in the head. */
  function ChainedUpdate(t: Tuple, op: Op): (r: Tuple)
    requires Fits(op.slots, |t.value|)
  {
    Tuple(op.writer, op.after, false, t.history[op.writer := Patch(Before(t.id, op.slots, t.value))])
  }

  /** The tuple holds exactly these versions, oldest first. */
  ghost predicate Holds(t: Tuple, ds: seq<Delta>, vs: seq<Version>) {
    && !t.removed && HistoryOk(t.history, |t.value|) && DeltasOk(ds, |t.value|)
    && Linked(t.history, t.id, ds) && DistinctIds(t.id, ds)
    && vs == VersionsOf(t.id, t.value, ds)
  }

  lemma UpdateHolds(t: Tuple, ds: seq<Delta>, vs: seq<Version>, op: Op)
    requires Holds(t, ds, vs) && OpOk(t, op) && (forall i | 0 <= i < |vs| :: vs[i].id != op.writer)
    ensures Holds(ChainedUpdate(t, op), ds + [Before(t.id, op.slots, t.value)], vs + [Version(op.writer, op.after)])
  {
    var (d, t') := (Before(t.id, op.slots, t.value), ChainedUpdate(t, op));
    UndoBefore(t.id, op.slots, t.value, op.after);
    VersionsLast(op.writer, op.after, ds, d);
    assert forall i | 0 <= i < |ds| :: vs[i].id == ds[i].id;
    assert vs[|ds|].id == t.id;
    UpdateLinks(t.history, t.id, ds, op.writer, d);
  }

  lemma UpdateLinks(h: History, id: Id, ds: seq<Delta>, writer: Id, d: Delta)
    requires Linked(h, id, ds) && d.id == id && writer != id && forall i | 0 <= i < |ds| :: ds[i].id != writer
    ensures Linked(h[writer := Patch(d)], writer, ds + [d])
  {
    forall i | 0 <= i < |ds + [d]|
      ensures KeyOf(writer, ds + [d], i) in h[writer := Patch(d)]
      ensures h[writer := Patch(d)][KeyOf(writer, ds + [d], i)] == Patch((ds + [d])[i])
    {
      if i < |ds| {
        assert KeyOf(writer, ds + [d], i) == KeyOf(id, ds, i);
      }
    }
  }

  /** A tuple after its insert and a run of updates. */
  function RunOps(id: Id, v: seq<byte>, ops: seq<Op>): (t: Tuple)
    requires OpsFit(|v|, ops)
    ensures |t.value| == |v|
  {
    if ops == [] then Tuple(id, v, false, map[])
    else ChainedUpdate(RunOps(id, v, ops[..|ops| - 1]), ops[|ops| - 1])
  }

  predicate OpsFit(n: nat, ops: seq<Op>) {
    forall i | 0 <= i < |ops| :: Fits(ops[i].slots, n) && |ops[i].after| == n
  }

  /** What was written, oldest first. */
  function Written(id: Id, v: seq<byte>, ops: seq<Op>): (r: seq<Version>)
    ensures |r| == |ops| + 1
  {
    if ops == [] then [Version(id, v)]
    else Written(id, v, ops[..|ops| - 1]) + [Version(ops[|ops| - 1].writer, ops[|ops| - 1].after)]
  }

  ghost predicate OpsOk(id: Id, v: seq<byte>, ops: seq<Op>) {
    && OpsFit(|v|, ops)
    && (forall k | 0 <= k < |ops| :: OpOk(RunOps(id, v, ops[..k]), ops[k]))
    && (forall k, i | 0 <= k < |ops| && 0 <= i <= k :: Written(id, v, ops[..k])[i].id != ops[k].writer)
  }

  lemma OpsPrefix(id: Id, v: seq<byte>, ops: seq<Op>)
    requires OpsOk(id, v, ops) && ops != []
    ensures OpsOk(id, v, ops[..|ops| - 1])
  {
    var rest := ops[..|ops| - 1];
    assert forall k | 0 <= k < |rest| :: rest[..k] == ops[..k];
  }

  lemma {:induction false} RunHolds(id: Id, v: seq<byte>, ops: seq<Op>) returns (ds: seq<Delta>)
    requires OpsOk(id, v, ops)
    ensures Holds(RunOps(id, v, ops), ds, Written(id, v, ops)) && |ds| == |ops|
    decreases |ops|
  {
    if ops == [] {
      ds := [];
    } else {
      var n := |ops| - 1;
      OpsPrefix(id, v, ops);
      ds := RunHolds(id, v, ops[..n]);
      var t := RunOps(id, v, ops[..n]);
      UpdateHolds(t, ds, Written(id, v, ops[..n]), ops[n]);
      ds := ds + [Before(t.id, ops[n].slots, t.value)];
    }
  }

  /** After any run of updates, a chain walk returns the newest value written by a version visible to the reader. */
  lemma ChainReturnsSnapshot(id: Id, v: seq<byte>, ops: seq<Op>, vis: Id -> bool, limit: nat)
    requires OpsOk(id, v, ops) && |ops| <= limit
    ensures var t := RunOps(id, v, ops);
            && HistoryOk(t.history, |t.value|)
            && (AsOf(Written(id, v, ops), vis).Some? ==>
                  ReadChained(t, |t.value|, vis, limit) == Ok(AsOf(Written(id, v, ops), vis).value))
  {
    var ds := RunHolds(id, v, ops);
    var t := RunOps(id, v, ops);
    ChainReads(t.history, t.id, t.value, ds, vis, limit);
  }

  // ----- from a fat tuple to a chain

  /** Nothing else in the history tree changes. */
  ghost predicate OnlyKeys(h: History, h': History, id: Id, ds: seq<Delta>) {
    forall k | (forall i | 0 <= i < |ds| :: KeyOf(id, ds, i) != k) ::
      (k in h <==> k in h') && (k in h ==> h[k] == h'[k])
  }

  lemma DistinctKeys(id: Id, ds: seq<Delta>, i: nat, j: nat)
    requires DistinctIds(id, ds) && i < j < |ds|
    ensures KeyOf(id, ds, i) != KeyOf(id, ds, j)
  {
  }

  ghost predicate LinkedFrom(h: History, id: Id, ds: seq<Delta>, i: nat) {
    forall j | i <= j < |ds| :: KeyOf(id, ds, j) in h && h[KeyOf(id, ds, j)] == Patch(ds[j])
  }

  lemma LinkedMore(h: History, id: Id, ds: seq<Delta>, i: nat, key: Id)
    requires DistinctIds(id, ds) && i < |ds| && key == KeyOf(id, ds, i) && LinkedFrom(h, id, ds, i + 1)
    ensures LinkedFrom(h[key := Patch(ds[i])], id, ds, i)
  {
    forall j | i < j < |ds|
      ensures KeyOf(id, ds, j) != key
    {
      DistinctKeys(id, ds, i, j);
    }
  }

  /** The loop that moves the deltas into the history tree, from the newest to the oldest. */
  method InsertVersions(id: Id, ds: seq<Delta>, h: History, ghost n: nat) returns (h': History)
    requires DistinctIds(id, ds) && DeltasOk(ds, n) && HistoryOk(h, n)
    ensures Linked(h', id, ds) && HistoryOk(h', n) && OnlyKeys(h, h', id, ds)
  {
    h' := h;
    var (i, prev) := (|ds|, id);
    while i > 0
      invariant 0 <= i <= |ds| && HistoryOk(h', n) && OnlyKeys(h, h', id, ds)
      invariant i > 0 ==> prev == KeyOf(id, ds, i - 1)
      invariant LinkedFrom(h', id, ds, i)
    {
      i := i - 1;
      LinkedMore(h', id, ds, i, prev);
      h' := h'[prev := Patch(ds[i])];
      prev := ds[i].id;
    }
  }

  /** convertToChained: every snapshot for which the fat tuple yields a value gets the same value from the chain. */
  method ConvertToChained(id: Id, v: seq<byte>, ds: seq<Delta>, h: History) returns (t: Tuple)
    requires DistinctIds(id, ds) && DeltasOk(ds, |v|) && HistoryOk(h, |v|)
    ensures t.id == id && t.value == v && !t.removed && HistoryOk(t.history, |v|)
    ensures forall vis: Id -> bool, limit: nat | |ds| <= limit && Reads(id, v, ds, vis).Some? ::
              ReadChained(t, |v|, vis, limit) == Ok(Reads(id, v, ds, vis).value)
    ensures OnlyKeys(h, t.history, id, ds)
  {
    var h' := InsertVersions(id, ds, h, |v|);
    t := Tuple(id, v, false, h');
    forall vis: Id -> bool, limit: nat | |ds| <= limit && Reads(id, v, ds, vis).Some?
      ensures ReadChained(t, |v|, vis, limit) == Ok(Reads(id, v, ds, vis).value)
    {
      ChainReads(h', id, v, ds, vis, limit);
    }
  }
}
