/** Garbage collection of a fat tuple's deltas: which are dropped, which are merged, and what readers notice. */
module FatTupleGc {
  import opened Wrappers
  import opened Diff
  import opened Versions

  /** Newest delta d >= 1 that is visible for all; all but its predecessor can go. 0 if there is none. */
  function DropCount(ds: seq<Delta>, all: Id -> bool, i: nat): (c: nat)
    requires i <= |ds|
    ensures c == 0 || (c + 1 < i && all(ds[c + 1].id))
    ensures forall k | 1 <= k < i && all(ds[k].id) :: k - 1 <= c
  {
    if i <= 1 then 0
    else if all(ds[i - 1].id) then i - 2
    else DropCount(ds, all, i - 1)
  }

  lemma {:induction false} NothingDropped(ds: seq<Delta>, all: Id -> bool, i: nat)
    requires i <= |ds| && forall id :: !all(id)
    ensures DropCount(ds, all, i) == 0
    decreases i
  {
    if i > 1 {
      NothingDropped(ds, all, i - 1);
    }
  }

  /** What bin_search finds from c on: a delta of transaction ts, or where there is none, the first newer one. */
  ghost predicate IsBound(ds: seq<Delta>, c: nat, ts: nat, r: nat) {
    && c <= r <= |ds|
    && (forall i | c <= i < r :: ds[i].id.tx <= ts)
    && (forall i | r <= i < |ds| :: ts <= ds[i].id.tx)
    && ((r < |ds| && ds[r].id.tx == ts) || (forall i | c <= i < |ds| :: ds[i].id.tx != ts))
  }

  /** [zone_begin, zone_end): the deltas to merge, if any. */
  ghost predicate IsZone(ds: seq<Delta>, c: nat, olap: nat, oltp: nat, zone: Option<(nat, nat)>) {
    match zone
    case Some(z) => IsBound(ds, c, olap, z.0) && z.0 < z.1 && IsBound(ds, c, oltp, z.1 + 2)
    case None => exists begin :: IsBound(ds, c, olap, begin) && NoZoneFrom(ds, c, oltp, begin)
  }

  ghost predicate NoZoneFrom(ds: seq<Delta>, c: nat, oltp: nat, begin: nat) {
    begin == |ds| || exists res: nat :: IsBound(ds, c, oltp, res) && res - 2 <= begin
  }

  /** The deltas from c on, with those of the zone merged. */
  ghost predicate Kept(ds: seq<Delta>, c: nat, zone: Option<(nat, nat)>, ds': seq<Delta>)
    requires LengthsOk(ds) && c <= |ds|
  {
    match zone
    case None => ds' == ds[c..]
    case Some(z) =>
      && c <= z.0 < z.1 <= |ds| && z.0 - c < |ds'| && IsMerge(ds[z.0..z.1], ds'[z.0 - c])
      && ds' == ds[c..z.0] + [ds'[z.0 - c]] + ds[z.1..]
  }

  /**
    garbageCollection, up to the order of slots in the merged delta. all: what isVisibleForAll answers about a writer;
    olap and oltp: newest OLAP and oldest OLTP start timestamp, as loaded.
   */
  ghost predicate Collected(id: Id, ds: seq<Delta>, all: Id -> bool, olap: nat, oltp: nat, zone: Option<(nat, nat)>,
                            ds': seq<Delta>)
    requires LengthsOk(ds)
  {
    if ds == [] || all(id) then zone == None && ds' == []
    else
      var c := DropCount(ds, all, |ds|);
      if c == 0 && olap > oltp then zone == None && ds' == ds
      else IsZone(ds, c, olap, oltp, zone) && Kept(ds, c, zone, ds')
  }

  // ----- versions after the collection

  function BaseId(id: Id, ds: seq<Delta>): (r: Id) {
    if ds == [] then id else ds[0].id
  }

  lemma AppendParts(a: seq<Delta>, b: seq<Delta>, all: seq<Delta>)
    requires all == a + b && b != []
    ensures all[|all| - 1] == b[|b| - 1] && all[..|all| - 1] == a + b[..|b| - 1]
  {
  }

  lemma SplitLastDelta(b: seq<Delta>)
    requires b != []
    ensures b == b[..|b| - 1] + [b[|b| - 1]]
  {
  }

  lemma TailAppend(x: seq<Version>, y: seq<Version>, z: Version)
    requires y != []
    ensures (x + y[1..]) + [z] == x + (y + [z])[1..]
  {
  }

  lemma VersionsUnfold(id: Id, v: seq<byte>, ds: seq<Delta>, rest: seq<Delta>, d: Delta)
    requires DeltasOk(ds, |v|) && ds != [] && rest == ds[..|ds| - 1] && d == ds[|ds| - 1] && DeltasOk(rest, |v|)
    ensures VersionsOf(id, v, ds) == VersionsOf(d.id, Undo(d, v), rest) + [Version(id, v)]
  {
  }

  lemma BaseIdEnd(id: Id, b: seq<Delta>)
    requires b != []
    ensures BaseId(id, b) == BaseId(b[|b| - 1].id, b[..|b| - 1])
  {
  }

  /** The versions behind older deltas, then those of newer ones. */
  lemma {:induction false} VersionsSplit(id: Id, v: seq<byte>, a: seq<Delta>, b: seq<Delta>, all: seq<Delta>)
    requires DeltasOk(a, |v|) && DeltasOk(b, |v|) && DeltasOk(all, |v|) && all == a + b
    ensures VersionsOf(id, v, all) == VersionsOf(BaseId(id, b), UndoAll(b, v), a) + VersionsOf(id, v, b)[1..]
    decreases |b|
  {
    if b == [] {
      VersionsSplitNone(id, v, a, b, all);
    } else {
      var (d, rest, front) := (b[|b| - 1], b[..|b| - 1], all[..|all| - 1]);
      AppendParts(a, b, all);
      VersionsSplit(d.id, Undo(d, v), a, rest, front);
      VersionsSplitStep(id, v, a, b, all, d, rest, front);
    }
  }

  lemma VersionsSplitNone(id: Id, v: seq<byte>, a: seq<Delta>, b: seq<Delta>, all: seq<Delta>)
    requires DeltasOk(a, |v|) && DeltasOk(b, |v|) && DeltasOk(all, |v|) && all == a + b && b == []
    ensures VersionsOf(id, v, all) == VersionsOf(BaseId(id, b), UndoAll(b, v), a) + VersionsOf(id, v, b)[1..]
  {
    assert all == a;
    assert VersionsOf(id, v, b)[1..] == [];
  }

  lemma VersionsSplitStep(id: Id, v: seq<byte>, a: seq<Delta>, b: seq<Delta>, all: seq<Delta>, d: Delta,
                          rest: seq<Delta>,
                          front: seq<Delta>)
    requires DeltasOk(a, |v|) && DeltasOk(b, |v|) && DeltasOk(all, |v|) && DeltasOk(rest, |v|) && DeltasOk(front, |v|)
    requires b != [] && d == b[|b| - 1] && rest == b[..|b| - 1]
    requires all != [] && d == all[|all| - 1] && front == all[..|all| - 1]
    requires VersionsOf(d.id, Undo(d, v), front)
          == VersionsOf(BaseId(d.id, rest), UndoAll(rest, Undo(d, v)), a) + VersionsOf(d.id, Undo(d, v), rest)[1..]
    ensures VersionsOf(id, v, all) == VersionsOf(BaseId(id, b), UndoAll(b, v), a) + VersionsOf(id, v, b)[1..]
  {
    UndoAllEnd(b, v);
    BaseIdEnd(id, b);
    VersionsUnfold(id, v, all, front, d);
    VersionsUnfold(id, v, b, rest, d);
    TailAppend(VersionsOf(BaseId(id, b), UndoAll(b, v), a), VersionsOf(d.id, Undo(d, v), rest), Version(id, v));
  }

  lemma UndoAllEnd(b: seq<Delta>, v: seq<byte>)
    requires DeltasOk(b, |v|) && b != []
    ensures DeltasOk(b[..|b| - 1], |v|) && UndoAll(b, v) == UndoAll(b[..|b| - 1], Undo(b[|b| - 1], v))
  {
    SplitLastDelta(b);
    UndoAllLast(b[..|b| - 1], b[|b| - 1], v);
  }

  lemma {:induction false} UndoAllLast(rest: seq<Delta>, d: Delta, v: seq<byte>)
    requires DeltasOk(rest, |v|) && DeltaOk(d, |v|)
    ensures DeltasOk(rest + [d], |v|)
    ensures UndoAll(rest + [d], v) == UndoAll(rest, Undo(d, v))
    decreases |rest|
  {
    if rest != [] {
      assert (rest + [d])[1..] == rest[1..] + [d];
      UndoAllLast(rest[1..], d, v);
    }
  }

  lemma DeltasOkSlice(ds: seq<Delta>, n: nat, i: nat, j: nat)
    requires DeltasOk(ds, n) && i <= j <= |ds|
    ensures DeltasOk(ds[i..j], n)
  {
  }

  /** The versions from c on, except those from i to j. */
  function Cut(vs: seq<Version>, c: nat, i: nat, j: nat): (r: seq<Version>)
    requires c <= i <= j <= |vs|
  {
    vs[c..i] + vs[j..]
  }

  lemma CutMiddle(x: seq<Version>, y: seq<Version>, last: Version, tail: seq<Version>)
    requires y != [] && y[|y| - 1] == last
    ensures var vs := x + y + tail;
            x + [last] + tail == vs[..|x|] + vs[|x| + |y| - 1..]
  {
  }

  lemma CutMiddleOf(vs: seq<Version>, vs': seq<Version>, x: seq<Version>, y: seq<Version>, last: Version,
                    tail: seq<Version>,
                    p: nat, q: nat)
    requires y != [] && y[|y| - 1] == last && vs == x + y + tail && vs' == x + [last] + tail
    requires p == |x| && q == |x| + |y| - 1
    ensures p <= q <= |vs| && vs' == Cut(vs, 0, p, q)
  {
    CutMiddle(x, y, last, tail);
  }

  /** m undoes what the zone undoes, on this value. */
  ghost predicate SameUndo(zone: seq<Delta>, m: Delta, v: seq<byte>)
    requires DeltasOk(zone, |v|)
  {
    zone != [] && m.id == zone[0].id && DeltaOk(m, |v|) && Undo(m, v) == UndoAll(zone, v)
  }

  /** Merging a zone in front of newer deltas leaves the same oldest part and the same newest version. */
  lemma MergeOlder(id: Id, v: seq<byte>, a: seq<Delta>, zone: seq<Delta>, m: Delta)
    requires DeltasOk(a, |v|) && DeltasOk(zone, |v|) && SameUndo(zone, m, v)
    ensures DeltaOk(m, |v|) && DeltasOk(a + zone, |v|) && DeltasOk(a + [m], |v|)
    ensures VersionsOf(id, v, a + [m]) == VersionsOf(zone[0].id, UndoAll(zone, v), a) + [Version(id, v)]
    ensures VersionsOf(id, v, a + zone) == VersionsOf(zone[0].id, UndoAll(zone, v), a) + VersionsOf(id, v, zone)[1..]
  {
    VersionsSplit(id, v, a, zone, a + zone);
    VersionsLast(id, v, a, m);
  }

  lemma DeltasOkParts(a: seq<Delta>, b: seq<Delta>, c: seq<Delta>, n: nat)
    requires DeltasOk(a, n) && DeltasOk(b, n) && DeltasOk(c, n)
    ensures DeltasOk(a + b + c, n)
  {
  }

  lemma UnmergedVersions(id: Id, v: seq<byte>, a: seq<Delta>, zone: seq<Delta>, b: seq<Delta>, full: seq<Delta>)
    requires DeltasOk(a, |v|) && DeltasOk(zone, |v|) && DeltasOk(b, |v|) && zone != []
    requires full == a + zone + b && DeltasOk(full, |v|)
    ensures var (id1, v1) := (BaseId(id, b), UndoAll(b, v));
            VersionsOf(id, v, full)
            == VersionsOf(zone[0].id, UndoAll(zone, v1), a) + VersionsOf(id1, v1, zone)[1..] + VersionsOf(id, v, b)[1..]
  {
    VersionsSplit(BaseId(id, b), UndoAll(b, v), a, zone, a + zone);
    VersionsSplit(id, v, a + zone, b, full);
  }

  lemma MergedVersions(id: Id, v: seq<byte>, a: seq<Delta>, zone: seq<Delta>, m: Delta, b: seq<Delta>,
                       merged: seq<Delta>)
    requires DeltasOk(a, |v|) && DeltasOk(zone, |v|) && DeltasOk(b, |v|) && zone != []
    requires merged == a + [m] + b && DeltasOk(merged, |v|)
    requires SameUndo(zone, m, UndoAll(b, v))
    ensures var (id1, v1) := (BaseId(id, b), UndoAll(b, v));
            VersionsOf(id, v, merged)
            == VersionsOf(zone[0].id, UndoAll(zone, v1), a) + [Version(id1, v1)] + VersionsOf(id, v, b)[1..]
  {
    MergeOlder(BaseId(id, b), UndoAll(b, v), a, zone, m);
    VersionsSplit(id, v, a + [m], b, merged);
  }

  /** The versions before the zone, in it, and after it. */
  lemma Pieces(id: Id, v: seq<byte>, a: seq<Delta>, zone: seq<Delta>, m: Delta, b: seq<Delta>, full: seq<Delta>,
               merged: seq<Delta>)
    returns (x: seq<Version>, y: seq<Version>, tail: seq<Version>)
    requires DeltasOk(a, |v|) && DeltasOk(zone, |v|) && DeltasOk(b, |v|) && zone != []
    requires full == a + zone + b && DeltasOk(full, |v|) && merged == a + [m] + b && DeltasOk(merged, |v|)
    requires SameUndo(zone, m, UndoAll(b, v))
    ensures |x| == |a| + 1 && |y| == |zone|
    ensures VersionsOf(id, v, full) == x + y + tail && VersionsOf(id, v, merged) == x + [y[|y| - 1]] + tail
  {
    var (id1, v1) := (BaseId(id, b), UndoAll(b, v));
    x, y, tail :=
      VersionsOf(zone[0].id, UndoAll(zone, v1), a), VersionsOf(id1, v1, zone)[1..], VersionsOf(id, v, b)[1..];
    UnmergedVersions(id, v, a, zone, b, full);
    MergedVersions(id, v, a, zone, m, b, merged);
  }

  /** Merging a zone in the middle removes exactly the versions strictly inside it. */
  lemma MergeVersions(id: Id, v: seq<byte>, a: seq<Delta>, zone: seq<Delta>, m: Delta, b: seq<Delta>,
                      full: seq<Delta>, merged: seq<Delta>, p: nat, q: nat)
    requires DeltasOk(a, |v|) && DeltasOk(zone, |v|) && DeltasOk(b, |v|) && zone != []
    requires full == a + zone + b && DeltasOk(full, |v|) && merged == a + [m] + b && DeltasOk(merged, |v|)
    requires SameUndo(zone, m, UndoAll(b, v))
    requires p == |a| + 1 && q == |a| + |zone|
    ensures VersionsOf(id, v, merged) == Cut(VersionsOf(id, v, full), 0, p, q)
  {
    var x, y, tail := Pieces(id, v, a, zone, m, b, full, merged);
    CutOfPieces(id, v, full, merged, x, y, tail, p, q);
  }

  lemma CutOfPieces(id: Id, v: seq<byte>, full: seq<Delta>, merged: seq<Delta>, x: seq<Version>, y: seq<Version>,
                    tail: seq<Version>, p: nat, q: nat)
    requires DeltasOk(full, |v|) && DeltasOk(merged, |v|) && y != [] && p == |x| && q == |x| + |y| - 1
    requires VersionsOf(id, v, full) == x + y + tail && VersionsOf(id, v, merged) == x + [y[|y| - 1]] + tail
    ensures p <= q <= |VersionsOf(id, v, full)| && VersionsOf(id, v, merged) == Cut(VersionsOf(id, v, full), 0, p, q)
  {
    CutMiddleOf(VersionsOf(id, v, full), VersionsOf(id, v, merged), x, y, y[|y| - 1], tail, p, q);
  }

  // ----- what readers notice

  /**
    Version i committed after it started. The writer of the next version saw it: that one started after the commit, or
    is the same transaction.
   */
  ghost predicate SerialAt(id: Id, ds: seq<Delta>, commits: seq<nat>, i: nat)
    requires i < |ds| == |commits|
  {
    var next := if i + 1 < |ds| then ds[i + 1].id.tx else id.tx;
    && ds[i].id.tx < commits[i]
    && (commits[i] < next || (ds[i].id.tx == next && (i + 1 < |ds| ==> commits[i] == commits[i + 1])))
  }

  ghost predicate Serial(id: Id, ds: seq<Delta>, commits: seq<nat>) {
    |commits| == |ds| && forall i | 0 <= i < |ds| :: SerialAt(id, ds, commits, i)
  }

  /**
    A reader with snapshot s: it sees the newest version, or exactly those that committed before s. What isVisibleForAll
    answers for is visible to it.
   */
  ghost predicate Reader(id: Id, ds: seq<Delta>, commits: seq<nat>, s: nat, all: Id -> bool, vis: Id -> bool) {
    && |commits| == |ds|
    && (vis(id) || forall i | 0 <= i < |ds| :: vis(ds[i].id) <==> commits[i] < s)
    && (forall i | 0 <= i < |ds| && all(ds[i].id) :: commits[i] < s)
    && (all(id) ==> vis(id))
  }

  lemma {:induction false} SerialSorted(id: Id, ds: seq<Delta>, commits: seq<nat>, i: nat, j: nat)
    requires Serial(id, ds, commits) && i < j < |ds|
    ensures commits[i] < ds[j].id.tx || (ds[i].id.tx == ds[j].id.tx && commits[i] == commits[j])
    decreases j
  {
    assert SerialAt(id, ds, commits, j - 1);
    if i + 1 < j {
      SerialSorted(id, ds, commits, i, j - 1);
    }
  }

  lemma CutParts(d: seq<Version>, a: seq<Version>, m: seq<Version>, b: seq<Version>, vis: Id -> bool)
    requires AsOf(b, vis).Some? || (AsOf(m, vis).None? && (d == [] || AsOf(a + m + b, vis).Some?))
    ensures AsOf(a + b, vis) == AsOf(d + (a + m + b), vis)
  {
    AsOfSplit(d, a + m + b, vis);
    AsOfSplit(a + m, b, vis);
    AsOfSplit(a, m, vis);
    AsOfSplit(a, b, vis);
  }

  /** The reader sees a version from i on; or between i and j. */
  predicate SeesFrom(vs: seq<Version>, i: nat, vis: Id -> bool)
    requires i <= |vs|
  {
    AsOf(vs[i..], vis).Some?
  }

  predicate SeesIn(vs: seq<Version>, i: nat, j: nat, vis: Id -> bool)
    requires i <= j <= |vs|
  {
    AsOf(vs[i..j], vis).Some?
  }

  /** Versions invisible to a reader may go, and so may everything older than a visible one. */
  lemma CutReads(vs: seq<Version>, vis: Id -> bool, c: nat, i: nat, j: nat)
    requires c <= i <= j <= |vs|
    requires SeesFrom(vs, j, vis) || (!SeesIn(vs, i, j, vis) && (c == 0 || SeesFrom(vs, c, vis)))
    ensures AsOf(Cut(vs, c, i, j), vis) == AsOf(vs, vis)
  {
    Parts(vs, c, i, j);
    CutPartsOf(vs, Cut(vs, c, i, j), vs[..c], vs[c..i], vs[i..j], vs[j..], vs[c..], vis);
  }

  lemma CutPartsOf(vs: seq<Version>, r: seq<Version>, d: seq<Version>, a: seq<Version>, m: seq<Version>,
                   b: seq<Version>, from: seq<Version>, vis: Id -> bool)
    requires vs == d + from && from == a + m + b && r == a + b
    requires AsOf(b, vis).Some? || (AsOf(m, vis).None? && (d == [] || AsOf(from, vis).Some?))
    ensures AsOf(r, vis) == AsOf(vs, vis)
  {
    CutParts(d, a, m, b, vis);
  }

  lemma Parts(vs: seq<Version>, c: nat, i: nat, j: nat)
    requires c <= i <= j <= |vs|
    ensures vs[c..] == vs[c..i] + vs[i..j] + vs[j..] && vs == vs[..c] + vs[c..]
    ensures Cut(vs, c, i, j) == vs[c..i] + vs[j..]
    ensures c == 0 ==> vs[..c] == []
  {
  }

  /** The deltas on both sides of zone_end are of different transactions. */
  ghost predicate Whole(ds: seq<Delta>, end: nat) {
    end + 1 < |ds| && ds[end].id.tx != ds[end + 1].id.tx
  }

  /**
    What a reader at an OLAP snapshot sees lies before the zone, what one at an OLTP snapshot sees does not lie before
    its end.
   */
  lemma ZoneIsUnread(id: Id, ds: seq<Delta>, commits: seq<nat>, s: nat, c: nat, olap: nat, oltp: nat,
                     begin: nat, end: nat, k: nat)
    requires Serial(id, ds, commits) && IsZone(ds, c, olap, oltp, Some((begin, end))) && Whole(ds, end)
    ensures oltp <= s ==> commits[end] < s
    ensures s <= olap && begin <= k < |ds| ==> s < commits[k]
  {
    assert SerialAt(id, ds, commits, end);
    if begin <= k < |ds| {
      assert SerialAt(id, ds, commits, k);
    }
  }

  /** A snapshot that garbage collection must serve: an OLAP one or older, an OLTP one or newer. */
  predicate Served(s: nat, olap: nat, oltp: nat) {
    s <= olap || oltp <= s
  }

  /** The versions behind these deltas, and the newest one. */
  ghost predicate Match(vs: seq<Version>, ds: seq<Delta>) {
    |vs| == |ds| + 1 && forall i | 0 <= i < |ds| :: vs[i].id == ds[i].id
  }

  /** Every reader sees something from the delta after the dropped ones on. */
  lemma DropIsUnread(vs: seq<Version>, id: Id, ds: seq<Delta>, commits: seq<nat>, s: nat, all: Id -> bool,
                     vis: Id -> bool,
                     c: nat)
    requires Match(vs, ds) && Reader(id, ds, commits, s, all, vis) && !vis(id)
    requires c == DropCount(ds, all, |ds|) && c > 0
    ensures SeesFrom(vs, c, vis)
  {
    assert vs[c..][1] == vs[c + 1] && vs[c + 1].id == ds[c + 1].id;
    AsOfSome(vs[c..], vis, 1);
  }

  lemma SomeFrom(vs: seq<Version>, vis: Id -> bool, i: nat)
    requires i < |vs| && vis(vs[i].id)
    ensures SeesFrom(vs, i, vis)
  {
    AsOfSome(vs[i..], vis, 0);
  }

  lemma NoneBetween(vs: seq<Version>, vis: Id -> bool, i: nat, j: nat)
    requires i <= j <= |vs| && forall k | i <= k < j :: !vis(vs[k].id)
    ensures !SeesIn(vs, i, j, vis)
  {
    AsOfNone(vs[i..j], vis);
  }

  lemma ZoneReads(vs: seq<Version>, id: Id, ds: seq<Delta>, commits: seq<nat>, s: nat, all: Id -> bool, olap: nat,
                  oltp: nat,
                  vis: Id -> bool, c: nat, begin: nat, end: nat)
    requires Match(vs, ds) && Serial(id, ds, commits) && Reader(id, ds, commits, s, all, vis) && !vis(id)
    requires Served(s, olap, oltp) && c == DropCount(ds, all, |ds|)
    requires IsZone(ds, c, olap, oltp, Some((begin, end))) && Whole(ds, end)
    ensures AsOf(Cut(vs, c, begin + 1, end), vis) == AsOf(vs, vis)
  {
    if c > 0 {
      DropIsUnread(vs, id, ds, commits, s, all, vis, c);
    }
    ZoneReadsEither(vs, id, ds, commits, s, olap, oltp, vis, c, begin, end);
    CutReads(vs, vis, c, begin + 1, end);
  }

  lemma ZoneReadsEither(vs: seq<Version>, id: Id, ds: seq<Delta>, commits: seq<nat>, s: nat, olap: nat, oltp: nat,
                        vis: Id -> bool, c: nat, begin: nat, end: nat)
    requires Match(vs, ds) && Serial(id, ds, commits) && Served(s, olap, oltp)
    requires forall i | 0 <= i < |ds| :: vis(ds[i].id) <==> commits[i] < s
    requires IsZone(ds, c, olap, oltp, Some((begin, end))) && Whole(ds, end)
    ensures SeesFrom(vs, end, vis) || !SeesIn(vs, begin + 1, end, vis)
  {
    if oltp <= s {
      ZoneIsUnread(id, ds, commits, s, c, olap, oltp, begin, end, end);
      SomeFrom(vs, vis, end);
    } else {
      forall k | begin + 1 <= k < end
        ensures !vis(vs[k].id)
      {
        ZoneIsUnread(id, ds, commits, s, c, olap, oltp, begin, end, k);
      }
      NoneBetween(vs, vis, begin + 1, end);
    }
  }

  lemma SuffixReads(vs: seq<Version>, vis: Id -> bool, c: nat)
    requires c <= |vs| && (c > 0 ==> SeesFrom(vs, c, vis))
    ensures AsOf(vs[c..], vis) == AsOf(vs, vis)
  {
    AsOfSplit(vs[..c], vs[c..], vis);
    assert vs == vs[..c] + vs[c..];
    assert c == 0 ==> vs[c..] == vs;
  }

  lemma DropReads(id: Id, v: seq<byte>, ds: seq<Delta>, commits: seq<nat>, s: nat, all: Id -> bool, vis: Id -> bool,
                  c: nat)
    requires DeltasOk(ds, |v|) && Reader(id, ds, commits, s, all, vis) && !vis(id) && c == DropCount(ds, all, |ds|)
    ensures DeltasOk(ds[c..], |v|) && Reads(id, v, ds[c..], vis) == Reads(id, v, ds, vis)
  {
    var vs := VersionsOf(id, v, ds);
    DeltasOkFrom(ds, |v|, c);
    VersionsSuffix(id, v, ds, c, ds[c..]);
    if c > 0 {
      DropIsUnread(vs, id, ds, commits, s, all, vis, c);
    }
    SuffixReads(vs, vis, c);
  }

  lemma DeltasOkFrom(ds: seq<Delta>, n: nat, i: nat)
    requires DeltasOk(ds, n) && i <= |ds|
    ensures DeltasOk(ds[i..], n)
  {
  }

  /** Slots that share a byte agree on it, and a byte can count the slots. */
  ghost predicate Mergeable(zone: seq<Delta>)
    requires LengthsOk(zone)
  {
    Agreeing(ZoneMap(zone)) && |SlotSet(zone)| <= 255
  }

  lemma MergeSame(zone: seq<Delta>, m: Delta, v: seq<byte>)
    requires DeltasOk(zone, |v|) && zone != [] && IsMerge(zone, m) && Mergeable(zone)
    ensures SameUndo(zone, m, v)
  {
    MergeUndoesAll(zone, m, v);
  }

  function Suffix(vs: seq<Version>, c: nat): (r: seq<Version>)
    requires c <= |vs|
  {
    vs[c..]
  }

  lemma VersionsFrom(id: Id, v: seq<byte>, ds: seq<Delta>, c: nat, from: seq<Delta>)
    requires DeltasOk(ds, |v|) && c <= |ds| && from == ds[c..] && DeltasOk(from, |v|)
    ensures VersionsOf(id, v, from) == Suffix(VersionsOf(id, v, ds), c)
  {
    VersionsSuffix(id, v, ds, c, from);
  }

  /** Versions after merging, from the parts of the deltas: a before the zone, b after it, from = a + zone + b. */
  lemma MergeReads(id: Id, v: seq<byte>, ds: seq<Delta>, ds': seq<Delta>, m: Delta, a: seq<Delta>, zone: seq<Delta>,
                   b: seq<Delta>, from: seq<Delta>, c: nat, p: nat, q: nat, i: nat, j: nat)
    requires DeltasOk(ds, |v|) && c <= |ds| && from == ds[c..] && from == a + zone + b && zone != []
    requires p == |a| + 1 && q == |a| + |zone| && i == c + p && j == c + q
    requires DeltasOk(a, |v|) && DeltasOk(zone, |v|) && DeltasOk(b, |v|) && DeltasOk(from, |v|) && DeltasOk(ds', |v|)
    requires SameUndo(zone, m, UndoAll(b, v)) && ds' == a + [m] + b
    ensures c <= i <= j <= |VersionsOf(id, v, ds)| && VersionsOf(id, v, ds') == Cut(VersionsOf(id, v, ds), c, i, j)
  {
    MergeVersions(id, v, a, zone, m, b, from, ds', p, q);
    VersionsFrom(id, v, ds, c, from);
    CutFurther(VersionsOf(id, v, ds), VersionsOf(id, v, ds'), VersionsOf(id, v, from), c, p, q, i, j);
  }

  lemma CutFurther(vs: seq<Version>, r: seq<Version>, from: seq<Version>, c: nat, p: nat, q: nat, i: nat, j: nat)
    requires c <= |vs| && from == Suffix(vs, c) && p <= q <= |from| && r == Cut(from, 0, p, q)
    requires i == c + p && j == c + q
    ensures c <= i <= j <= |vs| && r == Cut(vs, c, i, j)
  {
    MergedSlices(r, vs, from, c, i, j, p, q);
  }

  lemma MergeReadsAll(id: Id, v: seq<byte>, ds: seq<Delta>, ds': seq<Delta>, m: Delta, c: nat, begin: nat, end: nat)
    requires DeltasOk(ds, |v|) && c <= begin < end <= |ds| && DeltasOk(ds[begin..end], |v|)
    requires IsMerge(ds[begin..end], m) && Mergeable(ds[begin..end])
    requires ds' == ds[c..begin] + [m] + ds[end..]
    ensures DeltasOk(ds', |v|)
    ensures VersionsOf(id, v, ds') == Cut(VersionsOf(id, v, ds), c, begin + 1, end)
  {
    DeltasOkSlice(ds, |v|, c, begin);
    DeltasOkFrom(ds, |v|, c);
    DeltasOkFrom(ds, |v|, end);
    DeltaParts(ds, c, begin, end);
    MergedOk(ds', m, ds[c..begin], ds[begin..end], ds[end..], v);
    MergeReads(id, v, ds, ds', m, ds[c..begin], ds[begin..end], ds[end..], ds[c..], c, begin - c + 1, end - c,
               begin + 1,
               end);
  }

  lemma MergedOk(ds': seq<Delta>, m: Delta, a: seq<Delta>, zone: seq<Delta>, b: seq<Delta>, v: seq<byte>)
    requires DeltasOk(a, |v|) && DeltasOk(zone, |v|) && DeltasOk(b, |v|) && zone != []
    requires IsMerge(zone, m) && Mergeable(zone) && ds' == a + [m] + b
    ensures DeltasOk(ds', |v|) && SameUndo(zone, m, UndoAll(b, v))
  {
    MergeSame(zone, m, UndoAll(b, v));
    DeltasOkParts(a, [m], b, |v|);
  }

  lemma MergedSlices(r: seq<Version>, vs: seq<Version>, from: seq<Version>, c: nat, i: nat, j: nat, p: nat, q: nat)
    requires c <= i <= j <= |vs| && p == i - c && q == j - c && from == Suffix(vs, c) && r == Cut(from, 0, p, q)
    ensures r == Cut(vs, c, i, j)
  {
    SuffixSlices(vs, c, i, j);
  }

  lemma DeltaParts(ds: seq<Delta>, c: nat, i: nat, j: nat)
    requires c <= i <= j <= |ds|
    ensures ds[c..] == ds[c..i] + ds[i..j] + ds[j..]
  {
  }

  lemma SuffixSlices(vs: seq<Version>, c: nat, i: nat, j: nat)
    requires c <= i && c <= j <= |vs| && i <= |vs|
    ensures vs[c..][..i - c] == vs[c..i] && vs[c..][j - c..] == vs[j..]
  {
  }

  /** All deltas go only when the newest version is visible for all; otherwise the newest delta stays. */
  lemma NewestDeltaStays(id: Id, ds: seq<Delta>, all: Id -> bool, olap: nat, oltp: nat, zone: Option<(nat, nat)>,
                         ds': seq<Delta>)
    requires LengthsOk(ds) && Collected(id, ds, all, olap, oltp, zone, ds') && ds != [] && !all(id)
    ensures ds' != [] && ds'[|ds'| - 1] == ds[|ds| - 1]
  {
    if zone.Some? {
      assert |ds[zone.value.1..]| >= 2;
    }
  }

  /** What the zone of a collection must meet for every served reader to read as before. */
  ghost predicate ZoneOk(ds: seq<Delta>, zone: Option<(nat, nat)>) {
    match zone
    case None => true
    case Some(z) => z.0 <= z.1 <= |ds| && Whole(ds, z.1) && LengthsOk(ds[z.0..z.1]) && Mergeable(ds[z.0..z.1])
  }

  /** Garbage collection changes no read of any snapshot that it must serve. */
  lemma CollectionIsUnnoticed(id: Id, v: seq<byte>, ds: seq<Delta>, ds': seq<Delta>, commits: seq<nat>, s: nat,
                              all: Id -> bool, olap: nat, oltp: nat, zone: Option<(nat, nat)>, vis: Id -> bool)
    requires DeltasOk(ds, |v|) && Collected(id, ds, all, olap, oltp, zone, ds') && ZoneOk(ds, zone)
    requires Serial(id, ds, commits) && Reader(id, ds, commits, s, all, vis) && Served(s, olap, oltp)
    ensures DeltasOk(ds', |v|) && Reads(id, v, ds', vis) == Reads(id, v, ds, vis)
  {
    CollectedOk(id, |v|, ds, all, olap, oltp, zone, ds');
    if vis(id) {
      ReadsHead(id, v, ds, vis);
      ReadsHead(id, v, ds', vis);
    } else if ds != [] {
      var c := DropCount(ds, all, |ds|);
      DropReads(id, v, ds, commits, s, all, vis, c);
      if zone.Some? {
        MergedUnnoticed(id, v, ds, ds', commits, s, all, olap, oltp, vis, c, zone.value.0, zone.value.1);
      }
    }
  }

  lemma CollectedOk(id: Id, n: nat, ds: seq<Delta>, all: Id -> bool, olap: nat, oltp: nat, zone: Option<(nat, nat)>,
                    ds': seq<Delta>)
    requires DeltasOk(ds, n) && Collected(id, ds, all, olap, oltp, zone, ds')
    ensures DeltasOk(ds', n)
  {
    if ds != [] && !all(id) && zone.Some? {
      var (c, z) := (DropCount(ds, all, |ds|), zone.value);
      DeltasOkSlice(ds, n, c, z.0);
      DeltasOkSlice(ds, n, z.0, z.1);
      DeltasOkFrom(ds, n, z.1);
      MergeFits(ds[z.0..z.1], ds'[z.0 - c], n);
      DeltasOkParts(ds[c..z.0], [ds'[z.0 - c]], ds[z.1..], n);
    }
  }

  lemma MergedUnnoticed(id: Id, v: seq<byte>, ds: seq<Delta>, ds': seq<Delta>, commits: seq<nat>, s: nat,
                        all: Id -> bool,
                        olap: nat, oltp: nat, vis: Id -> bool, c: nat, begin: nat, end: nat)
    requires DeltasOk(ds, |v|) && Serial(id, ds, commits) && Reader(id, ds, commits, s, all, vis) && !vis(id)
    requires Served(s, olap, oltp) && c == DropCount(ds, all, |ds|) && IsZone(ds, c, olap, oltp, Some((begin, end)))
    requires Kept(ds, c, Some((begin, end)), ds') && Whole(ds, end) && Mergeable(ds[begin..end])
    ensures DeltasOk(ds', |v|) && Reads(id, v, ds', vis) == Reads(id, v, ds, vis)
  {
    DeltasOkSlice(ds, |v|, begin, end);
    MergeReadsAll(id, v, ds, ds', ds'[begin - c], c, begin, end);
    ZoneReads(VersionsOf(id, v, ds), id, ds, commits, s, all, olap, oltp, vis, c, begin, end);
  }

  // ----- exactly when a zone holds no version that a snapshot needs

  /** Version k is the newest that committed before s, and s wrote none of them itself. */
  ghost predicate NewestBefore(ds: seq<Delta>, commits: seq<nat>, s: nat, k: nat)
    requires |ds| == |commits|
  {
    && k < |ds| && commits[k] < s && (forall i | k < i < |ds| :: s <= commits[i])
    && (forall i | 0 <= i < |ds| :: ds[i].id.tx != s)
  }

  /** No served snapshot needs a version that merging the zone removes. */
  ghost predicate NoneNeeded(ds: seq<Delta>, commits: seq<nat>, olap: nat, oltp: nat, begin: nat, end: nat)
    requires |ds| == |commits|
  {
    forall s, k | Served(s, olap, oltp) && begin < k < end :: !NewestBefore(ds, commits, s, k)
  }

  /** The last version before `end` that is not by the transaction of version `end`. */
  lemma {:induction false} LastOfOther(ds: seq<Delta>, begin: nat, end: nat) returns (k: nat)
    requires begin <= end < |ds| && ds[begin].id.tx != ds[end].id.tx
    ensures begin <= k < end && ds[k].id.tx != ds[end].id.tx && forall i | k < i <= end :: ds[i].id.tx == ds[end].id.tx
    decreases end - begin
  {
    if forall i | begin < i <= end :: ds[i].id.tx == ds[end].id.tx {
      k := begin;
    } else {
      var i :| begin < i <= end && ds[i].id.tx != ds[end].id.tx;
      k := LastOfOther(ds, i, end);
    }
  }

  lemma LaterIsNotBefore(id: Id, ds: seq<Delta>, commits: seq<nat>, s: nat, k: nat, i: nat)
    requires Serial(id, ds, commits) && k <= i < |ds| && s <= commits[k]
    ensures s <= commits[i]
  {
    if k < i {
      SerialSorted(id, ds, commits, k, i);
      assert SerialAt(id, ds, commits, i);
    }
  }

  /**
    Merging a zone removes no version that a served snapshot needs, exactly when the version at zone_end committed
    before the oldest OLTP transaction started, or all removed versions are by its transaction. bin_search and its
    margin of two see to the first only if that transaction has no second delta.
   */
  lemma ZoneIff(id: Id, ds: seq<Delta>, commits: seq<nat>, c: nat, olap: nat, oltp: nat, begin: nat, end: nat)
    requires Serial(id, ds, commits) && IsZone(ds, c, olap, oltp, Some((begin, end)))
    ensures NoneNeeded(ds, commits, olap, oltp, begin, end)
       <==> commits[end] < oltp || ds[begin + 1].id.tx == ds[end].id.tx
    ensures Whole(ds, end) ==> commits[end] < oltp
  {
    assert SerialAt(id, ds, commits, end);
    if commits[end] < oltp || ds[begin + 1].id.tx == ds[end].id.tx {
      forall s, k | Served(s, olap, oltp) && begin < k < end
        ensures !NewestBefore(ds, commits, s, k)
      {
        NotNeeded(id, ds, commits, c, olap, oltp, begin, end, s, k);
      }
    } else {
      var k := LastOfOther(ds, begin + 1, end);
      Needed(id, ds, commits, c, olap, oltp, begin, end, k);
    }
  }

  lemma NotNeeded(id: Id, ds: seq<Delta>, commits: seq<nat>, c: nat, olap: nat, oltp: nat, begin: nat, end: nat,
                  s: nat, k: nat)
    requires Serial(id, ds, commits) && IsZone(ds, c, olap, oltp, Some((begin, end))) && Served(s, olap, oltp)
    requires begin < k < end && (commits[end] < oltp || ds[begin + 1].id.tx == ds[end].id.tx)
    ensures !NewestBefore(ds, commits, s, k)
  {
    assert SerialAt(id, ds, commits, k) && SerialAt(id, ds, commits, end);
    SerialSorted(id, ds, commits, k, end);
    if begin + 1 < k {
      SerialSorted(id, ds, commits, begin + 1, k);
    }
    if begin + 1 < end {
      SerialSorted(id, ds, commits, begin + 1, end);
      assert SerialAt(id, ds, commits, begin + 1);
    }
  }

  lemma Needed(id: Id, ds: seq<Delta>, commits: seq<nat>, c: nat, olap: nat, oltp: nat, begin: nat, end: nat, k: nat)
    requires Serial(id, ds, commits) && IsZone(ds, c, olap, oltp, Some((begin, end))) && oltp <= commits[end]
    requires begin < k < end && ds[k].id.tx != ds[end].id.tx
    requires forall i | k < i <= end :: ds[i].id.tx == ds[end].id.tx
    ensures !NoneNeeded(ds, commits, olap, oltp, begin, end)
  {
    var s := if ds[end].id.tx == oltp then oltp + 1 else oltp;
    SerialSorted(id, ds, commits, k, end);
    assert ds[end].id.tx <= oltp;
    assert SerialAt(id, ds, commits, k + 1) && SerialAt(id, ds, commits, end);
    if k + 1 < end {
      SerialSorted(id, ds, commits, k + 1, end);
    }
    forall i | k < i < |ds|
      ensures s <= commits[i]
    {
      LaterIsNotBefore(id, ds, commits, s, k + 1, i);
    }
    forall i | 0 <= i < |ds|
      ensures ds[i].id.tx != s
    {
      NotItsOwn(id, ds, commits, s, end, i);
    }
    assert Served(s, olap, oltp) && NewestBefore(ds, commits, s, k);
  }

  lemma NotItsOwn(id: Id, ds: seq<Delta>, commits: seq<nat>, s: nat, end: nat, i: nat)
    requires Serial(id, ds, commits) && end < |ds| && i < |ds| && ds[end].id.tx < s <= commits[end]
    ensures ds[i].id.tx != s
  {
    if i < end {
      SerialSorted(id, ds, commits, i, end);
      assert SerialAt(id, ds, commits, i);
    } else if end < i {
      SerialSorted(id, ds, commits, end, i);
    }
  }

  /**
    Transaction 10 replaces the versions of 1, 4 and 7 by two of its own and commits at 20, transaction 30 follows. With
    the oldest OLTP transaction at 15, the version of 7, which 15 reads, is in the zone.
   */
  lemma SecondUpdateIsNotSpared()
    ensures var ds := [Delta(Id(1, 1, 0), [], []), Delta(Id(2, 4, 0), [], []), Delta(Id(1, 7, 0), [], []),
                       Delta(Id(2, 10, 0), [], []), Delta(Id(2, 10, 1), [], [])];
            var commits := [2, 5, 8, 20, 20];
            && Serial(Id(1, 30, 0), ds, commits) && IsZone(ds, 0, 0, 15, Some((0, 3)))
            && NewestBefore(ds, commits, 15, 2) && !NoneNeeded(ds, commits, 0, 15, 0, 3)
  {
    var ds := [Delta(Id(1, 1, 0), [], []), Delta(Id(2, 4, 0), [], []), Delta(Id(1, 7, 0), [], []),
               Delta(Id(2, 10, 0), [], []), Delta(Id(2, 10, 1), [], [])];
    var commits := [2, 5, 8, 20, 20];
    assert Served(15, 0, 15) && NewestBefore(ds, commits, 15, 2);
  }
}
