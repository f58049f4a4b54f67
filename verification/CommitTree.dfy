/** The commit tree of one worker: its commits in commit order, pruned to what live snapshots can still ask for. */
module CommitTree {
  import opened Wrappers

  datatype Entry = Entry(commit: nat, start: nat)

  predicate Sorted(a: seq<Entry>) {
    forall i, j | 0 <= i < j < |a| :: a[i].commit < a[j].commit
  }

  /** Last committed before: the newest entry with a commit timestamp below ts. */
  function LCB(a: seq<Entry>, ts: nat): (r: Option<Entry>)
    ensures r.Some? ==> r.value in a && r.value.commit < ts
  {
    if a == [] then None
    else if a[|a| - 1].commit < ts then Some(a[|a| - 1])
    else LCB(a[..|a| - 1], ts)
  }

  /** CommitTree::LCB: the start timestamp, or 0. */
  function StartLCB(a: seq<Entry>, ts: nat): (r: nat) {
    match LCB(a, ts)
    case None => 0
    case Some(e) => e.start
  }

  /** In a sorted tree LCB is the greatest entry below ts, and None means that there is none. */
  lemma {:induction false} LCBIsGreatest(a: seq<Entry>, ts: nat, e: Entry)
    requires Sorted(a) && e in a && e.commit < ts
    ensures LCB(a, ts).Some? && e.commit <= LCB(a, ts).value.commit
    decreases |a|
  {
    var last := a[|a| - 1];
    if last.commit < ts {
    } else {
      var k :| 0 <= k < |a| && a[k] == e;
      assert e in a[..|a| - 1];
      LCBIsGreatest(a[..|a| - 1], ts, e);
    }
  }

  /** A commit at or after ts changes no answer for ts. */
  lemma LCBIgnoresLater(a: seq<Entry>, e: Entry, ts: nat)
    requires ts <= e.commit
    ensures LCB(a + [e], ts) == LCB(a, ts)
  {
    assert (a + [e])[..|a|] == a;
  }

  function Filter(a: seq<Entry>, keep: set<Entry>): (r: seq<Entry>) {
    if a == [] then []
    else if a[|a| - 1] in keep then Filter(a[..|a| - 1], keep) + [a[|a| - 1]]
    else Filter(a[..|a| - 1], keep)
  }

  lemma {:induction false} FilterMembers(a: seq<Entry>, keep: set<Entry>)
    ensures forall e :: e in Filter(a, keep) <==> e in a && e in keep
    decreases |a|
  {
    if a != [] {
      FilterMembers(a[..|a| - 1], keep);
      assert a == a[..|a| - 1] + [a[|a| - 1]];
    }
  }

  lemma {:induction false} FilterSorted(a: seq<Entry>, keep: set<Entry>)
    requires Sorted(a)
    ensures Sorted(Filter(a, keep)) && |Filter(a, keep)| <= |a|
    decreases |a|
  {
    if a != [] {
      var (last, rest) := (a[|a| - 1], a[..|a| - 1]);
      FilterSorted(rest, keep);
      FilterMembers(rest, keep);
      forall e | e in rest
        ensures e.commit < last.commit
      {
        var k :| 0 <= k < |rest| && rest[k] == e;
      }
      assert forall i :: 0 <= i < |Filter(rest, keep)| ==> Filter(rest, keep)[i] in rest;
    }
  }

  lemma {:induction false} FilterSize(a: seq<Entry>, keep: set<Entry>)
    requires Sorted(a)
    ensures |Filter(a, keep)| <= |keep|
    decreases |a|
  {
    if a != [] {
      var (last, rest) := (a[|a| - 1], a[..|a| - 1]);
      if last in keep {
        FilterSize(rest, keep - {last});
        FilterSame(rest, keep, last);
      } else {
        FilterSize(rest, keep);
      }
    }
  }

  lemma {:induction false} FilterSame(a: seq<Entry>, keep: set<Entry>, x: Entry)
    requires x !in a
    ensures Filter(a, keep - {x}) == Filter(a, keep)
    decreases |a|
  {
    if a != [] {
      FilterSame(a[..|a| - 1], keep, x);
    }
  }

  lemma {:induction false} FilterLast(a: seq<Entry>, keep: set<Entry>)
    requires a != [] && a[|a| - 1] in keep
    ensures Filter(a, keep) != [] && Filter(a, keep)[|Filter(a, keep)| - 1] == a[|a| - 1]
  {
  }

  /** Pruning that keeps the answer for ts keeps it the answer. */
  lemma {:induction false} FilterKeepsLCB(a: seq<Entry>, keep: set<Entry>, ts: nat)
    requires LCB(a, ts).Some? ==> LCB(a, ts).value in keep
    ensures LCB(Filter(a, keep), ts) == LCB(a, ts)
    decreases |a|
  {
    if a != [] {
      var (last, rest) := (a[|a| - 1], a[..|a| - 1]);
      if last.commit < ts {
        assert Filter(a, keep) == Filter(rest, keep) + [last];
      } else {
        FilterKeepsLCB(rest, keep, ts);
        if last in keep {
          LCBIgnoresLater(Filter(rest, keep), last, ts);
        }
      }
    }
  }

  /** A sorted sequence is determined by its elements: iterating the set the source builds yields Filter. */
  lemma {:induction false} SortedUnique(a: seq<Entry>, b: seq<Entry>)
    requires Sorted(a) && Sorted(b) && forall e :: e in a <==> e in b
    ensures a == b
    decreases |a|
  {
    assert |b| > 0 ==> b[0] in a;
    if a != [] {
      assert a[0] in b;
      var (x, y) := (a[|a| - 1], b[|b| - 1]);
      assert x in b && y in a;
      var i :| 0 <= i < |b| && b[i] == x;
      var j :| 0 <= j < |a| && a[j] == y;
      assert x == y;
      var (a', b') := (a[..|a| - 1], b[..|b| - 1]);
      forall e
        ensures e in a' <==> e in b'
      {
        assert e in a' ==> e in a && e != x;
        assert e in b' ==> e in b && e != y;
      }
      SortedUnique(a', b');
    }
  }

  // ----- the tree as the source keeps it

  class Tree {
    const capacity: nat
    const slots: array<Entry>
    var cursor: nat

    ghost predicate Valid()
      reads this, slots
    {
      slots.Length == capacity && cursor <= capacity && Sorted(Entries())
    }

    ghost function Entries(): (s: seq<Entry>)
      requires cursor <= slots.Length
      reads this, slots
    {
      slots[..cursor]
    }

    constructor (workers: nat)
      ensures Valid() && fresh(slots) && capacity == workers + 1 && Entries() == []
    {
      capacity := workers + 1;
      slots := new Entry[workers + 1](i => Entry(0, 0));
      cursor := 0;
    }

    /** commit: stamps and appends; the tree must have a free slot. */
    method Commit(clock: nat, start: nat) returns (commit: nat)
      requires Valid() && cursor < capacity
      requires forall e :: e in Entries() ==> e.commit < clock
      modifies this`cursor, slots
      ensures Valid() && commit == clock && Entries() == old(Entries()) + [Entry(clock, start)]
    {
      commit := clock;
      assert forall i :: 0 <= i < cursor ==> Entries()[i] in Entries();
      slots[cursor] := Entry(commit, start);
      cursor := cursor + 1;
      assert Entries() == old(Entries()) + [Entry(clock, start)];
    }

    /** LCBUnsafe: std::lower_bound on the commit timestamps, then one step back. */
    method LCBUnsafe(ts: nat) returns (r: Option<Entry>)
      requires Valid()
      ensures r == LCB(Entries(), ts)
    {
      var lo, hi := 0, cursor;
      while lo < hi
        invariant 0 <= lo <= hi <= cursor
        invariant forall i :: 0 <= i < lo ==> slots[i].commit < ts
        invariant forall i :: hi <= i < cursor ==> ts <= slots[i].commit
      {
        var mid := lo + (hi - lo) / 2;
        assert forall i :: 0 <= i < mid ==> Entries()[i].commit < Entries()[mid].commit;
        assert forall i :: mid < i < cursor ==> Entries()[mid].commit < Entries()[i].commit;
        if slots[mid].commit < ts {
          lo := mid + 1;
        } else {
          hi := mid;
        }
      }
      LowerBoundIsLCB(Entries(), ts, lo);
      if lo == 0 {
        r := None;
      } else {
        r := Some(slots[lo - 1]);
      }
    }

    /** The last loop of cleanIfNecessary, over the ordered set of what it has collected for the other workers. */
    method Prune(keep: set<Entry>)
      requires Valid() && forall e | e in keep :: e in Entries()
      modifies this`cursor, slots
      ensures Valid() && Entries() == Filter(old(Entries()), keep)
    {
      ghost var a := Entries();
      KeepFits(a, keep);
      cursor := 0;
      var rest := keep;
      while rest != {}
        invariant cursor + |rest| == |keep| <= |a| <= capacity == slots.Length
        invariant rest <= keep && Ascending(slots[..cursor], rest) && Holds(slots[..cursor], keep - rest)
        decreases |rest|
      {
        var p := Least(rest);
        LeastIsStrict(a, rest, p);
        ghost var done := slots[..cursor];
        AscendingNext(done, keep, rest, p);
        slots[cursor] := p;
        cursor := cursor + 1;
        assert slots[..cursor] == done + [p];
        rest := rest - {p};
      }
      IsFiltered(Entries(), a, keep);
    }
  }

  ghost predicate Holds(done: seq<Entry>, s: set<Entry>) {
    forall e :: e in done <==> e in s
  }

  lemma IsFiltered(out: seq<Entry>, a: seq<Entry>, keep: set<Entry>)
    requires Sorted(a) && Sorted(out) && Holds(out, keep) && forall e | e in keep :: e in a
    ensures out == Filter(a, keep)
  {
    FilterSorted(a, keep);
    FilterMembers(a, keep);
    SortedUnique(out, Filter(a, keep));
  }

  /** Sorted, and below everything that is to come. */
  ghost predicate Ascending(done: seq<Entry>, rest: set<Entry>) {
    Sorted(done) && forall e, x | e in done && x in rest :: e.commit < x.commit
  }

  lemma AscendingNext(done: seq<Entry>, keep: set<Entry>, rest: set<Entry>, p: Entry)
    requires Ascending(done, rest) && Holds(done, keep - rest)
    requires p in rest && rest <= keep && forall x | x in rest - {p} :: p.commit < x.commit
    ensures Ascending(done + [p], rest - {p}) && Holds(done + [p], keep - (rest - {p}))
  {
  }

  lemma LeastIsStrict(a: seq<Entry>, rest: set<Entry>, p: Entry)
    requires Sorted(a) && (forall e | e in rest :: e in a) && p in rest && forall x | x in rest :: p.commit <= x.commit
    ensures forall x | x in rest - {p} :: p.commit < x.commit
  {
    forall x | x in rest - {p}
      ensures p.commit < x.commit
    {
      var i :| 0 <= i < |a| && a[i] == p;
      var j :| 0 <= j < |a| && a[j] == x;
    }
  }

  lemma {:induction false} KeepFits(a: seq<Entry>, keep: set<Entry>)
    requires forall e | e in keep :: e in a
    ensures |keep| <= |a|
    decreases |a|
  {
    if a == [] {
      assert keep == {};
    } else {
      var last := a[|a| - 1];
      assert forall e | e in keep - {last} :: e in a[..|a| - 1];
      KeepFits(a[..|a| - 1], keep - {last});
    }
  }

  /** The first element of an ordered set. */
  method Least(s: set<Entry>) returns (p: Entry)
    requires s != {}
    ensures p in s && forall x | x in s :: p.commit <= x.commit
  {
    p :| p in s;
    var rest := s - {p};
    while rest != {}
      invariant rest <= s && p in s && forall x | x in s - rest :: p.commit <= x.commit
      decreases |rest|
    {
      var x :| x in rest;
      if x.commit < p.commit {
        p := x;
      }
      rest := rest - {x};
    }
  }

  lemma {:induction false} LowerBoundIsLCB(a: seq<Entry>, ts: nat, k: nat)
    requires k <= |a|
    requires forall i :: 0 <= i < k ==> a[i].commit < ts
    requires forall i :: k <= i < |a| ==> ts <= a[i].commit
    ensures LCB(a, ts) == if k == 0 then None else Some(a[k - 1])
    decreases |a|
  {
    if k < |a| {
      LowerBoundIsLCB(a[..|a| - 1], ts, k);
    }
  }
}
