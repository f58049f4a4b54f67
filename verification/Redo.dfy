/** Leaf operations, the per-page log they leave, its compaction, and replaying it from the last written image. */
module Redo {
  import opened Wrappers
  import opened Diff
  import opened LogRecord

  datatype Row = Row(value: seq<byte>, frozen: bool)

  /** A leaf page. */
  type Leaf = map<seq<byte>, Row>

  // ----- replay

  /** One case of redo's switch; None where it raises. */
  function Apply(leaf: Leaf, r: Record): (l: Option<Leaf>) {
    match r
    case Insert(key, value, freeze) => if key in leaf then None else Some(leaf[key := Row(value, freeze)])
    case Remove(key, _) => if key !in leaf then None else Some(leaf - {key})
    case Update(key, _, slots, diff, freeze) =>
      if key !in leaf || !Fits(slots, |leaf[key].value|) || |diff| != DiffLength(slots) then None
      else
        FitsWithin(slots, |leaf[key].value|);
        Some(leaf[key := Row(XorAt(Positions(slots), leaf[key].value, diff), leaf[key].frozen || freeze)])
  }

  datatype Step = Step(leaf: Leaf, size: nat)

  /** One iteration of redo's loop: the leaf after the record at the start of s, and that record's size. */
  function Next(leaf: Leaf, s: seq<byte>): (r: Option<Step>) {
    match Parse(s)
    case None => None
    case Some(p) =>
      match Apply(leaf, p.record)
      case None => None
      case Some(leaf') => Some(Step(leaf', p.size))
  }

  type Replayer = (Leaf, seq<byte>) -> Option<Step>

  /** n iterations from the bytes that are left; they must end exactly with the last record. */
  function Iterate(next: Replayer, leaf: Leaf, s: seq<byte>, n: nat): (l: Option<Leaf>)
    decreases n
  {
    if n == 0 then (if s == [] then Some(leaf) else None)
    else
      match next(leaf, s)
      case None => None
      case Some(step) => if step.size > |s| then None else Iterate(next, step.leaf, s[step.size..], n - 1)
  }

  function RedoFrom(leaf: Leaf, s: seq<byte>, n: nat): (l: Option<Leaf>) {
    Iterate(Next, leaf, s, n)
  }

  /** The loop of redo, with its offset into the log. */
  method Replay(next: Replayer, leaf: Leaf, log: seq<byte>, n: nat) returns (l: Option<Leaf>)
    ensures l == Iterate(next, leaf, log, n)
  {
    var node, offset, i := leaf, 0, 0;
    while i < n
      invariant 0 <= i <= n && 0 <= offset <= |log|
      invariant Iterate(next, leaf, log, n) == Iterate(next, node, log[offset..], n - i)
    {
      var step := next(node, log[offset..]);
      if step.None? || step.value.size > |log| - offset {
        return None;
      }
      assert log[offset..][step.value.size..] == log[offset + step.value.size..];
      node, offset, i := step.value.leaf, offset + step.value.size, i + 1;
    }
    if offset == |log| {
      return Some(node);
    }
    l := None;
  }

  method Redo(leaf: Leaf, log: seq<byte>, n: nat) returns (l: Option<Leaf>)
    ensures l == RedoFrom(leaf, log, n)
  {
    l := Replay(Next, leaf, log, n);
  }

  // ----- logs

  predicate AllEncodable(rs: seq<Record>) {
    forall i | 0 <= i < |rs| :: Encodable(rs[i])
  }

  function EncodeAll(rs: seq<Record>): (s: seq<byte>)
    requires AllEncodable(rs)
    ensures |s| >= HEADER * |rs|
  {
    if rs == [] then [] else EncodeAll(rs[..|rs| - 1]) + Encode(rs[|rs| - 1])
  }

  function ApplyAll(leaf: Leaf, rs: seq<Record>): (l: Option<Leaf>) {
    if rs == [] then Some(leaf)
    else
      match ApplyAll(leaf, rs[..|rs| - 1])
      case None => None
      case Some(leaf') => Apply(leaf', rs[|rs| - 1])
  }

  lemma EncodeLast(rs: seq<Record>, r: Record)
    requires AllEncodable(rs) && Encodable(r)
    ensures AllEncodable(rs + [r]) && EncodeAll(rs + [r]) == EncodeAll(rs) + Encode(r)
  {
    assert (rs + [r])[..|rs|] == rs;
  }

  lemma Assoc(a: seq<byte>, b: seq<byte>, c: seq<byte>)
    ensures a + b + c == a + (b + c)
  {
  }

  lemma ConsParts(r: Record, rs: seq<Record>, all: seq<Record>)
    requires all == [r] + rs && rs != []
    ensures all[..|all| - 1] == [r] + rs[..|rs| - 1] && all[|all| - 1] == rs[|rs| - 1] && all != []
  {
  }

  lemma EncodeUnfold(rs: seq<Record>, rest: seq<Record>, x: Record)
    requires AllEncodable(rs) && rs != [] && rest == rs[..|rs| - 1] && x == rs[|rs| - 1]
    ensures AllEncodable(rest) && EncodeAll(rs) == EncodeAll(rest) + Encode(x)
  {
  }

  lemma EncodeOne(r: Record, all: seq<Record>)
    requires Encodable(r) && AllEncodable(all) && all == [r]
    ensures EncodeAll(all) == Encode(r)
  {
    EncodeUnfold(all, [], r);
    assert EncodeAll([]) + Encode(r) == Encode(r);
  }

  lemma {:induction false} EncodeFirst(r: Record, rs: seq<Record>, all: seq<Record>)
    requires Encodable(r) && AllEncodable(rs) && AllEncodable(all) && all == [r] + rs
    ensures EncodeAll(all) == Encode(r) + EncodeAll(rs)
    decreases |rs|
  {
    if rs == [] {
      EncodeOne(r, all);
    } else {
      var (rest, x, front) := (rs[..|rs| - 1], rs[|rs| - 1], all[..|all| - 1]);
      ConsParts(r, rs, all);
      EncodeFirst(r, rest, front);
      EncodeUnfold(all, front, x);
      EncodeUnfold(rs, rest, x);
      Assoc(Encode(r), EncodeAll(rest), Encode(x));
    }
  }

  lemma {:induction false} ApplyFirst(leaf: Leaf, r: Record, rs: seq<Record>)
    requires Apply(leaf, r).Some?
    ensures ApplyAll(leaf, [r] + rs) == ApplyAll(Apply(leaf, r).value, rs)
    decreases |rs|
  {
    if rs == [] {
      assert ([r] + rs)[..0] == [];
    } else {
      var n := |rs| - 1;
      ApplyFirst(leaf, r, rs[..n]);
      assert ([r] + rs)[..|rs|] == [r] + rs[..n];
    }
  }

  lemma {:induction false} ApplyFails(leaf: Leaf, r: Record, rs: seq<Record>)
    requires Apply(leaf, r).None?
    ensures ApplyAll(leaf, [r] + rs).None?
    decreases |rs|
  {
    if rs == [] {
      assert ([r] + rs)[..0] == [];
    } else {
      ApplyFails(leaf, r, rs[..|rs| - 1]);
      assert ([r] + rs)[..|rs|] == [r] + rs[..|rs| - 1];
    }
  }

  /** What an iteration makes of a record. */
  function StepOf(leaf: Leaf, r: Record): (s: Option<Step>)
    requires Encodable(r)
  {
    match Apply(leaf, r)
    case None => None
    case Some(leaf') => Some(Step(leaf', |Encode(r)|))
  }

  /** The next iteration sees exactly the record that was written. */
  lemma NextOf(leaf: Leaf, r: Record, tail: seq<byte>)
    requires Encodable(r)
    ensures Next(leaf, Encode(r) + tail) == StepOf(leaf, r)
  {
    RoundTrip(r, tail);
  }

  ghost predicate FaithfulAt(next: Replayer, leaf: Leaf, r: Record, tail: seq<byte>)
    requires Encodable(r)
  {
    next(leaf, Encode(r) + tail) == StepOf(leaf, r)
  }

  ghost predicate Faithful(next: Replayer) {
    forall leaf, r, tail | Encodable(r) :: FaithfulAt(next, leaf, r, tail)
  }

  lemma NextIsFaithful()
    ensures Faithful(Next)
  {
    forall leaf, r, tail | Encodable(r)
      ensures FaithfulAt(Next, leaf, r, tail)
    {
      NextOf(leaf, r, tail);
    }
  }

  lemma HeadTail(rs: seq<Record>)
    requires rs != []
    ensures rs == [rs[0]] + rs[1..]
  {
  }

  lemma DropEncoded(a: seq<byte>, b: seq<byte>)
    ensures (a + b)[|a|..] == b
  {
  }

  lemma IterateNothing(next: Replayer, leaf: Leaf, rs: seq<Record>)
    requires AllEncodable(rs)
    ensures Iterate(next, leaf, EncodeAll(rs), 0) == if rs == [] then Some(leaf) else None
  {
    assert |EncodeAll(rs)| >= HEADER * |rs|;
  }

  lemma IterateFirst(next: Replayer, leaf: Leaf, r: Record, rest: seq<Record>, k: nat, all: seq<Record>)
    requires Faithful(next) && Encodable(r) && AllEncodable(rest) && AllEncodable(all) && all == [r] + rest && k > 0
    ensures Iterate(next, leaf, EncodeAll(all), k)
         == (match Apply(leaf, r) case None => None case Some(leaf') => Iterate(next, leaf', EncodeAll(rest), k - 1))
  {
    EncodeFirst(r, rest, all);
    DropEncoded(Encode(r), EncodeAll(rest));
    assert FaithfulAt(next, leaf, r, EncodeAll(rest));
  }

  lemma {:induction false} IterateAll(next: Replayer, leaf: Leaf, rs: seq<Record>)
    requires Faithful(next) && AllEncodable(rs)
    ensures Iterate(next, leaf, EncodeAll(rs), |rs|) == ApplyAll(leaf, rs)
    decreases |rs|
  {
    if rs == [] {
      IterateNothing(next, leaf, rs);
    } else {
      HeadTail(rs);
      IterateFirst(next, leaf, rs[0], rs[1..], |rs|, rs);
      if Apply(leaf, rs[0]).Some? {
        ApplyFirst(leaf, rs[0], rs[1..]);
        IterateAll(next, Apply(leaf, rs[0]).value, rs[1..]);
      } else {
        ApplyFails(leaf, rs[0], rs[1..]);
      }
    }
  }

  // ----- fewer iterations than records

  /** Records as strings of bytes, one after the other. */
  function Flat(ss: seq<seq<byte>>): (s: seq<byte>) {
    if ss == [] then [] else ss[0] + Flat(ss[1..])
  }

  /** An iteration at the start of a record, if it succeeds, moves to its end. */
  ghost predicate MovesOver(next: Replayer, s: seq<byte>) {
    s != [] && forall leaf, tail :: MovesOverAt(next, s, leaf, tail)
  }

  ghost predicate MovesOverAt(next: Replayer, s: seq<byte>, leaf: Leaf, tail: seq<byte>) {
    next(leaf, s + tail).Some? ==> next(leaf, s + tail).value.size == |s|
  }

  lemma {:induction false} IterateShort(next: Replayer, leaf: Leaf, ss: seq<seq<byte>>, k: nat)
    requires k < |ss| && forall i | 0 <= i < |ss| :: MovesOver(next, ss[i])
    ensures Iterate(next, leaf, Flat(ss), k) == None
    decreases k
  {
    var (s, rest) := (ss[0], Flat(ss[1..]));
    assert MovesOver(next, s);
    if k > 0 {
      assert MovesOverAt(next, s, leaf, rest);
      DropEncoded(s, rest);
      var step := next(leaf, s + rest);
      if step.Some? {
        IterateShort(next, step.value.leaf, ss[1..], k - 1);
      }
    }
  }

  function Encodings(rs: seq<Record>): (ss: seq<seq<byte>>)
    requires AllEncodable(rs)
    ensures |ss| == |rs| && forall i | 0 <= i < |rs| :: ss[i] == Encode(rs[i])
  {
    seq(|rs|, i requires 0 <= i < |rs| => Encode(rs[i]))
  }

  lemma {:induction false} FlatIsEncodeAll(rs: seq<Record>)
    requires AllEncodable(rs)
    ensures Flat(Encodings(rs)) == EncodeAll(rs)
    decreases |rs|
  {
    if rs != [] {
      FlatIsEncodeAll(rs[1..]);
      assert Encodings(rs)[1..] == Encodings(rs[1..]);
      HeadTail(rs);
      EncodeFirst(rs[0], rs[1..], rs);
    }
  }

  lemma EncodedMovesOver(next: Replayer, r: Record)
    requires Faithful(next) && Encodable(r)
    ensures MovesOver(next, Encode(r))
  {
    forall leaf, tail
      ensures MovesOverAt(next, Encode(r), leaf, tail)
    {
      assert FaithfulAt(next, leaf, r, tail);
    }
  }

  lemma RedoStopsShort(next: Replayer, leaf: Leaf, rs: seq<Record>, k: nat)
    requires Faithful(next) && AllEncodable(rs) && k < |rs|
    ensures Iterate(next, leaf, EncodeAll(rs), k) == None
  {
    forall i | 0 <= i < |rs|
      ensures MovesOver(next, Encodings(rs)[i])
    {
      EncodedMovesOver(next, rs[i]);
    }
    IterateShort(next, leaf, Encodings(rs), k);
    FlatIsEncodeAll(rs);
  }

  /** Replaying all records of a serialized log does what they do, and replaying only some of them is noticed. */
  lemma RedoReplays(leaf: Leaf, rs: seq<Record>, k: nat)
    requires AllEncodable(rs) && k <= |rs|
    ensures RedoFrom(leaf, EncodeAll(rs), k) == if k == |rs| then ApplyAll(leaf, rs) else None
  {
    NextIsFaithful();
    if k == |rs| {
      IterateAll(Next, leaf, rs);
    } else {
      RedoStopsShort(Next, leaf, rs, k);
    }
  }

  /** nb_log_records is a byte: the log replays exactly when it holds at most 255 records. */
  lemma RedoIff(image: Leaf, leaf: Leaf, rs: seq<Record>)
    requires AllEncodable(rs) && ApplyAll(image, rs) == Some(leaf)
    ensures RedoFrom(image, EncodeAll(rs), Wrapped(|rs|)) == Some(leaf) <==> |rs| <= 255
  {
    RedoReplays(image, rs, Wrapped(|rs|));
  }

  /** Redo notices a log that does not fit the page: a key that is there already, or one that is not there. */
  lemma MisfitIsNoticed(leaf: Leaf, s: seq<byte>, n: nat)
    requires Parse(s).Some? && n > 0 && (Parse(s).value.record.Insert? <==> Parse(s).value.record.key in leaf)
    ensures RedoFrom(leaf, s, n) == None
  {
  }
}
