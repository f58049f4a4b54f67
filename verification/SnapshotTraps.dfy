/**
  Runs that end in a state in which garbage collection of a tuple would be noticed: after a refresh by an OLAP
  transaction, between two stores of a refresh, and after a refresh around a transaction that wrote twice.
 */
module SnapshotTraps {
  import opened Wrappers
  import opened CommitTree
  import opened Snapshot
  import opened SnapshotOlap
  import opened SnapshotRuns
  import opened SnapshotLimits

  /** Start and commit timestamps: two writers, the snapshot s of a reader, two later writers, and one that runs. */
  datatype Times = Times(t1: nat, c1: nat, t2: nat, c2: nat, s: nat, t3: nat, c3: nat, t4: nat, c4: nat, t5: nat)

  /** Worker 0 runs at s and worker 1 at z, and nothing is visible for all. */
  ghost predicate BothRun(v: World, s: nat, z: nat) {
    && 2 <= |v.sys.workers| == |v.hist| && v.sys.allLwm == 0
    && v.sys.workers[0].phase.Active? && v.sys.workers[0].start == s
    && v.sys.workers[1].phase.Active? && v.sys.workers[1].start == z
  }

  /**
    Worker 0 has written at t1 and t2 and reads at s; worker 1 has written at t3 and t4, both invisible to s, and runs
    at t5. The four lie between the two stored timestamps. t3 and t4 may be the same transaction.
   */
  ghost predicate Trap(v: World, t: Times) {
    && BothRun(v, t.s, t.t5)
    && Entry(t.c1, t.t1) in v.hist[0] && Entry(t.c2, t.t2) in v.hist[0]
    && Entry(t.c3, t.t3) in v.hist[1] && Entry(t.c4, t.t4) in v.hist[1]
    && t.t1 < t.c1 < t.t2 < t.c2 < t.s < t.c3 && t.c2 < t.t3 < t.c3 && t.t4 < t.c4 < t.t5
    && (t.c3 < t.t4 || (t.t3 == t.t4 && t.c3 == t.c4))
    && v.sys.newestOlap < t.t1 && t.t4 < Loaded(v.sys.oldestOltp)
  }

  // ----- building blocks

  lemma InTwo(h: seq<Entry>, a: Entry, b: Entry)
    requires h == [a, b]
    ensures a in h && b in h
  {
    assert h[0] == a && h[1] == b;
  }

  /** Other workers and what is stored stay as they are. */
  ghost predicate OthersKept(v: World, v': World) {
    && |v'.sys.workers| == |v.sys.workers| && |v'.hist| == |v.hist| && v'.sys.allLwm == v.sys.allLwm
    && v'.sys.newestOlap == v.sys.newestOlap && v'.sys.oldestOltp == v.sys.oldestOltp && v'.sys.mutex == v.sys.mutex
    && forall o | 2 <= o < |v.sys.workers| && o < |v.hist| ::
       v'.sys.workers[o] == v.sys.workers[o] && v'.hist[o] == v.hist[o]
  }

  /** Worker w writes twice. */
  lemma TwoWrites(n: nat, kinds: set<Class>, v: World, w: nat) returns (v': World)
    requires At(n, kinds, v, w) && 2 <= |v.hist| && IsFresh(v, w)
    ensures At(n, kinds, v', w)
    ensures var c := v.sys.clock;
            && v'.hist == v.hist[w := [Entry(c + 1, c), Entry(c + 3, c + 2)]]
            && v'.sys == v.sys.(workers := v.sys.workers[w := v'.sys.workers[w]], clock := c + 4)
            && v'.sys.workers[w].phase.Idle? && v'.sys.workers[w].tree == [Entry(c + 1, c), Entry(c + 3, c + 2)]
  {
    var c := v.sys.clock;
    var v1 := Write(n, kinds, v, w);
    v' := Write(n, kinds, v1, w);
    assert v'.hist[w] == [Entry(c + 1, c), Entry(c + 3, c + 2)];
    assert v'.hist == v.hist[w := v'.hist[w]];
    assert v'.sys.workers[w].tree == [Entry(c + 1, c), Entry(c + 3, c + 2)];
    assert v'.sys.workers == v.sys.workers[w := v'.sys.workers[w]];
  }

  /** And starts a third transaction. */
  lemma WriteTwice(n: nat, kinds: set<Class>, v: World, w: nat, olap: bool) returns (v': World)
    requires At(n, kinds, v, w) && 2 <= |v.hist| && IsFresh(v, w)
    ensures At(n, kinds, v', w) && |v'.hist| == |v.hist|
    ensures var c := v.sys.clock;
            && v'.hist == v.hist[w := [Entry(c + 1, c), Entry(c + 3, c + 2)]] && v'.sys.clock == c + 5
            && v'.sys.workers[w].phase.Active? && v'.sys.workers[w].start == c + 4
            && v'.sys.workers[w].word == Word(false, olap, c + 4) && v'.sys.workers[w].olap == olap
            && v'.sys.workers[w].tree == [Entry(c + 1, c), Entry(c + 3, c + 2)]
            && v'.sys == v.sys.(workers := v.sys.workers[w := v'.sys.workers[w]], clock := c + 5)
  {
    var v1 := TwoWrites(n, kinds, v, w);
    v' := Begin(n, kinds, v1, w, olap);
    assert v'.sys.workers == v.sys.workers[w := v'.sys.workers[w]];
  }

  /** Workers 2 to m - 1 run an OLTP transaction each. */
  lemma {:induction false} OthersRan(n: nat, kinds: set<Class>, v: World, m: nat) returns (v': World)
    requires At(n, kinds, v, 0) && 2 <= m <= |v.hist| && forall o | 2 <= o < |v.hist| :: IsFresh(v, o)
    ensures At(n, kinds, v', 0) && v'.hist == v.hist && |v'.sys.workers| == |v.sys.workers|
    ensures v.sys.clock <= v'.sys.clock && v'.sys.allLwm == v.sys.allLwm
    ensures v'.sys.newestOlap == v.sys.newestOlap && v'.sys.mutex == v.sys.mutex
    ensures v'.sys.workers[..2] == v.sys.workers[..2] && forall o | 2 <= o < |v.hist| :: IsFresh(v', o)
    ensures forall o | 2 <= o < m :: OnSide(v'.sys.workers[o].word, 0, v.sys.clock)
    decreases m
  {
    v' := v;
    if m > 2 {
      var u := OthersRan(n, kinds, v, m - 1);
      assert IsFresh(u, m - 1);
      v' := Pass(n, kinds, u, m - 1, false);
      forall o | 2 <= o < |v.hist|
        ensures IsFresh(v', o)
      {
        assert IsFresh(u, o);
      }
    }
  }

  lemma FirstTwo(a: seq<Worker>, b: seq<Worker>)
    requires 2 <= |a| == |b| && b[..2] == a[..2]
    ensures b[0] == a[0] && b[1] == a[1]
  {
    assert b[0] == b[..2][0] && b[1] == b[..2][1];
  }

  lemma {:induction false} NothingBefore(tree: seq<Entry>, ts: nat)
    requires forall e | e in tree :: ts <= e.commit
    ensures LCB(tree, ts) == None
    decreases |tree|
  {
    if tree != [] {
      assert tree[|tree| - 1] in tree;
      NothingBefore(tree[..|tree| - 1], ts);
    }
  }

  // ----- a whole refresh by worker 1

  /** Worker 1 ends its transaction and refreshes, up to the last store. */
  lemma RefreshToStore(n: nat, kinds: set<Class>, v: World, f: Bounds) returns (v': World)
    requires At(n, kinds, v, 1) && v.sys.workers[1].phase.Active? && !v.sys.workers[1].olap && Oltp in kinds
    requires v.sys.mutex.None? && f.x == 1 && !v.sys.workers[1].word.olap
    requires forall o | 0 <= o < |v.hist| :: OnSide(v.sys.workers[o].word, f.olap, f.oltp)
    requires var word := v.sys.workers[0].word; word.ts <= f.top && (if word.olap then f.low <= word.ts else f.low == 0)
    ensures At(n, kinds, v', 1) && v'.hist == v.hist && v'.sys.allLwm == v.sys.allLwm && v'.sys.clock == v.sys.clock
    ensures v'.sys.workers == v.sys.workers[1 := v.sys.workers[1].(phase := Delivering(0, None, false))]
    ensures f.low <= v'.sys.newestOlap <= f.olap && v'.sys.oldestAll <= f.top
    ensures v'.sys.oldestOltp.Some? && f.oltp <= v'.sys.oldestOltp.value
  {
    var v1 := Finish(n, kinds, v, 1);
    var v2 := Enter(n, kinds, v1, 1);
    WordsSame(v, 1, v2);
    var v3 := ReadAll(n, kinds, v2, 1, f);
    var v4 := StoreTwo(n, kinds, v3, 1);
    v' := StoreLast(n, kinds, v4, 1);
    assert v'.sys.workers == v.sys.workers[1 := v.sys.workers[1].(phase := Delivering(0, None, false))];
  }

  /** And delivers watermarks of 0, because it has committed nothing before the oldest snapshot, and runs again. */
  lemma RefreshAndRun(n: nat, kinds: set<Class>, v: World, f: Bounds) returns (v': World)
    requires At(n, kinds, v, 1) && v.sys.workers[1].phase.Active? && !v.sys.workers[1].olap && Oltp in kinds
    requires v.sys.mutex.None? && f.x == 1 && !v.sys.workers[1].word.olap && v.sys.allLwm == 0
    requires forall o | 0 <= o < |v.hist| :: OnSide(v.sys.workers[o].word, f.olap, f.oltp)
    requires var word := v.sys.workers[0].word; word.ts <= f.top && (if word.olap then f.low <= word.ts else f.low == 0)
    requires |v.sys.workers[1].tree| < Capacity(v.sys) && forall e | e in v.sys.workers[1].tree :: f.top <= e.commit
    ensures Reaches(n, kinds, v') && v'.hist == v.hist && |v'.sys.workers| == |v.hist| && v'.sys.allLwm == 0
    ensures v'.sys.workers[1].phase.Active? && v'.sys.workers[1].start == v.sys.clock
    ensures forall o | 0 <= o < |v.hist| && o != 1 :: SameWorker(v.sys.workers[o], v'.sys.workers[o], false)
    ensures f.low <= v'.sys.newestOlap <= f.olap && v'.sys.oldestOltp.Some? && f.oltp <= v'.sys.oldestOltp.value
  {
    var v1 := RefreshToStore(n, kinds, v, f);
    NothingBefore(v1.sys.workers[1].tree, v1.sys.oldestAll);
    var v2 := FinishRefresh(n, kinds, v1, 1, 1);
    assert SameWorker(v1.sys.workers[1], v2.sys.workers[1], true);
    v' := Begin(n, kinds, v2, 1, false);
    forall o | 0 <= o < |v.hist| && o != 1
      ensures SameWorker(v.sys.workers[o], v'.sys.workers[o], false)
    {
      assert SameWorker(v1.sys.workers[o], v2.sys.workers[o], o == 1);
    }
  }

  /** After it nobody is between two stores. */
  lemma NoneBetween(v: World, v': World)
    requires 2 <= |v.hist| == |v.sys.workers| == |v'.sys.workers| && v'.sys.workers[1].phase.Active?
    requires v.sys.workers[0].phase.Active? && forall o | 2 <= o < |v.hist| :: IsFresh(v, o)
    requires forall o | 0 <= o < |v.hist| && o != 1 :: SameWorker(v.sys.workers[o], v'.sys.workers[o], false)
    ensures !Between(v'.sys)
  {
    forall o | 0 <= o < |v'.sys.workers|
      ensures !v'.sys.workers[o].phase.StoredOltp?
    {
      if o != 1 {
        assert SameWorker(v.sys.workers[o], v'.sys.workers[o], false);
        assert 2 <= o ==> IsFresh(v, o);
      }
    }
  }

  // ----- four writers

  /**
    Worker 0 has committed transactions c and c + 2 and runs at c + 4; worker 1 has then committed c + 5 and c + 7 and
    runs at c + 9.
   */
  ghost predicate Staged(v: World, c: nat) {
    && BothRun(v, c + 4, c + 9)
    && v.hist[0] == [Entry(c + 1, c), Entry(c + 3, c + 2)] && v.hist[1] == [Entry(c + 6, c + 5), Entry(c + 8, c + 7)]
  }

  function StagedTimes(c: nat): (t: Times) {
    Times(c, c + 1, c + 2, c + 3, c + 4, c + 5, c + 6, c + 7, c + 8, c + 9)
  }

  lemma StagedTrap(v: World, c: nat)
    requires Staged(v, c) && v.sys.newestOlap < c && c + 9 <= Loaded(v.sys.oldestOltp)
    ensures Trap(v, StagedTimes(c))
  {
    InTwo(v.hist[0], Entry(c + 1, c), Entry(c + 3, c + 2));
    InTwo(v.hist[1], Entry(c + 6, c + 5), Entry(c + 8, c + 7));
  }

  lemma Stage(n: nat, kinds: set<Class>, v: World, olap: bool) returns (v': World)
    requires At(n, kinds, v, 0) && 2 <= |v.hist| && IsFresh(v, 0) && IsFresh(v, 1) && v.sys.allLwm == 0
    ensures At(n, kinds, v', 0) && Staged(v', v.sys.clock) && OthersKept(v, v') && v'.sys.clock == v.sys.clock + 10
    ensures v'.sys.workers[0].word == Word(false, olap, v.sys.clock + 4)
    ensures v'.sys.workers[1].word == Word(false, false, v.sys.clock + 9)
  {
    var v1 := WriteTwice(n, kinds, v, 0, olap);
    assert IsFresh(v1, 1);
    v' := WriteTwice(n, kinds, v1, 1, false);
  }

  // ----- after a refresh by an OLAP transaction

  lemma OlapTrap(n: nat, kinds: set<Class>) returns (v: World, t: Times)
    requires n >= 2 && Olap in kinds
    ensures Reaches(n, kinds, v) && Trap(v, t) && !Between(v.sys) && t.t3 != t.t4
  {
    if n == 2 {
      v, t := OlapTrapOfTwo(kinds);
    } else {
      v, t := OlapTrapOfMore(n, kinds);
    }
  }

  /** The trap is set while the last worker refreshes. */
  lemma OlapTrapOfMore(n: nat, kinds: set<Class>) returns (v: World, t: Times)
    requires n >= 3 && Olap in kinds
    ensures Reaches(n, kinds, v) && Trap(v, t) && !Between(v.sys) && t.t3 != t.t4
  {
    var v0 := OlapScan(n, kinds);
    assert IsFresh(v0, 0) && IsFresh(v0, 1);
    var c := v0.sys.clock;
    var v1 := Stage(n, kinds, v0, false);
    forall o | 2 <= o < n - 1
      ensures IsFresh(v1, o)
    {
      assert IsFresh(v0, o);
    }
    v := ScanRest(n, kinds, v1, c);
    t := StagedTimes(c);
  }

  /** The rest of the OLAP refresh. */
  lemma ScanRest(n: nat, kinds: set<Class>, v: World, c: nat) returns (v': World)
    requires n >= 3 && At(n, kinds, v, n - 1) && |v.hist| == n && Staged(v, c) && c == FIRST_CLOCK + n + 1
    requires v.sys.workers[n - 1].phase == Scanning(1, Some(FIRST_CLOCK), FIRST_CLOCK, None)
    requires v.sys.workers[1].word == Word(false, false, c + 9)
    requires forall o | 2 <= o < n - 1 :: IsFresh(v, o)
    requires forall o | 2 <= o < n ::
               var word := v.sys.workers[o].word; word.olap && !word.latched && word.ts <= FIRST_CLOCK + n
    ensures Reaches(n, kinds, v') && Trap(v', StagedTimes(c)) && !Between(v'.sys)
  {
    var f := n - 1;
    var v2 := ReadRest(n, kinds, v, f, Bounds(0, FIRST_CLOCK + n, c + 9, 1, FIRST_CLOCK));
    var v3 := StoreTwo(n, kinds, v2, f);
    v' := StoreLast(n, kinds, v3, f);
    StagedTrap(v', c);
    forall o | 0 <= o < n
      ensures !v'.sys.workers[o].phase.StoredOltp?
    {
      assert 2 <= o < f ==> IsFresh(v, o);
    }
  }

  /** Of two workers, the one that has refreshed writes afterwards. */
  lemma OlapTrapOfTwo(kinds: set<Class>) returns (v: World, t: Times)
    requires Olap in kinds
    ensures Reaches(2, kinds, v) && Trap(v, t) && !Between(v.sys) && t.t3 != t.t4
  {
    var v0 := OlapScan(2, kinds);
    assert IsFresh(v0, 0);
    var c := v0.sys.clock;
    var v1 := WriteTwice(2, kinds, v0, 0, false);
    var v2 := RefreshEnds(kinds, v1, c);
    v := WriteTwice(2, kinds, v2, 1, false);
    t := StagedTimes(c);
    StagedTrap(v, c);
  }

  /** The rest of that refresh, to its end. */
  lemma RefreshEnds(kinds: set<Class>, v: World, c: nat) returns (v': World)
    requires At(2, kinds, v, 1) && |v.hist| == 2 && c == FIRST_CLOCK + 3 && v.sys.allLwm == 0
    requires v.sys.workers[1].phase == Scanning(1, Some(FIRST_CLOCK), FIRST_CLOCK, None)
    requires OnSide(v.sys.workers[1].word, FIRST_CLOCK + 2, c + 9) && v.sys.workers[1].tree == [] && v.hist[1] == []
    ensures At(2, kinds, v', 1) && v'.hist == v.hist && v'.sys.clock == v.sys.clock && v'.sys.allLwm == 0
    ensures SameWorker(v.sys.workers[0], v'.sys.workers[0], false) && IsFresh(v', 1)
    ensures v'.sys.newestOlap < c && c + 9 <= Loaded(v'.sys.oldestOltp)
  {
    var v2 := ReadRest(2, kinds, v, 1, Bounds(0, FIRST_CLOCK + 2, c + 9, 2, FIRST_CLOCK));
    var v3 := StoreTwo(2, kinds, v2, 1);
    var v4 := StoreLast(2, kinds, v3, 1);
    v' := FinishRefresh(2, kinds, v4, 1, 1);
    assert SameWorker(v4.sys.workers[0], v'.sys.workers[0], false);
    assert SameWorker(v4.sys.workers[1], v'.sys.workers[1], true);
  }

  // ----- between two stores of a refresh

  /** The trap set in front of an OLTP refresh, which has stored one of the two timestamps. */
  lemma TornTrap(n: nat, kinds: set<Class>) returns (v: World, t: Times)
    requires n >= 3 && Oltp in kinds
    ensures Reaches(n, kinds, v) && Trap(v, t) && t.t3 != t.t4
  {
    var f := n - 1;
    ReachesInit(n, kinds);
    var v0 := World(Init(n), seq(n, i => []));
    var c := v0.sys.clock;
    assert forall o | 0 <= o < n :: IsFresh(v0, o);
    var v1 := Stage(n, kinds, v0, true);
    assert forall o | 2 <= o < n :: IsFresh(v1, o);
    var v2 := OthersRan(n, kinds, v1, n);
    assert forall o | 2 <= o < n :: OnSide(v2.sys.workers[o].word, 0, c + 10);
    assert IsFresh(v2, f);
    FirstTwo(v1.sys.workers, v2.sys.workers);
    v := ScanTwo(n, kinds, v2, c);
    t := StagedTimes(c);
  }

  /** The last worker runs an OLTP transaction and refreshes, up to its second store. */
  lemma ScanTwo(n: nat, kinds: set<Class>, v: World, c: nat) returns (v': World)
    requires n >= 3 && Oltp in kinds && Reaches(n, kinds, v) && Shape(v.sys, v.hist) && |v.hist| == n
    requires IsFresh(v, n - 1) && v.sys.mutex.None? && v.sys.newestOlap < c && Staged(v, c) && c + 9 <= v.sys.clock
    requires v.sys.workers[0].word == Word(false, true, c + 4) && v.sys.workers[1].word == Word(false, false, c + 9)
    requires forall o | 2 <= o < n :: OnSide(v.sys.workers[o].word, 0, c + 9)
    ensures Reaches(n, kinds, v') && Trap(v', StagedTimes(c))
  {
    var f := n - 1;
    var v3 := Refresh(n, kinds, v, f, false);
    ScanWords(v, v3, f, c);
    var v4 := ReadAll(n, kinds, v3, f, Bounds(0, c + 4, c + 9, 1, c + 4));
    v' := StoreTwo(n, kinds, v4, f);
    StagedTrap(v', c);
  }

  lemma ScanWords(v: World, v': World, f: nat, c: nat)
    requires 2 <= f < |v.sys.workers| == |v'.sys.workers| && c + 9 <= v'.sys.workers[f].word.ts
    requires !v'.sys.workers[f].word.olap && !v'.sys.workers[f].word.latched
    requires forall o | 0 <= o < |v.sys.workers| && o != f :: v'.sys.workers[o] == v.sys.workers[o]
    requires v.sys.workers[0].word == Word(false, true, c + 4) && v.sys.workers[1].word == Word(false, false, c + 9)
    requires forall o | 2 <= o < |v.sys.workers| :: OnSide(v.sys.workers[o].word, 0, c + 9)
    ensures forall o | 0 <= o < |v.sys.workers| :: OnSide(v'.sys.workers[o].word, c + 4, c + 9)
  {
    forall o | 0 <= o < |v.sys.workers|
      ensures OnSide(v'.sys.workers[o].word, c + 4, c + 9)
    {
      assert 2 <= o ==> OnSide(v.sys.workers[o].word, 0, c + 9);
    }
  }

  // ----- around a transaction that has written twice

  /** Worker 1 begins at c + 4, worker 0 begins to read at c + 5, worker 1 commits at c + 6 and runs again at z. */
  ghost predicate Crossed(v: World, c: nat, z: nat) {
    && BothRun(v, c + 5, z)
    && v.hist[0] == [Entry(c + 1, c), Entry(c + 3, c + 2)] && v.hist[1] == [Entry(c + 6, c + 4)]
  }

  function CrossedTimes(c: nat, z: nat): (t: Times) {
    Times(c, c + 1, c + 2, c + 3, c + 5, c + 4, c + 6, c + 4, c + 6, z)
  }

  lemma CrossedTrap(v: World, c: nat, z: nat)
    requires Crossed(v, c, z) && c + 6 < z && v.sys.newestOlap < c && c + 5 <= Loaded(v.sys.oldestOltp)
    ensures Trap(v, CrossedTimes(c, z))
  {
    InTwo(v.hist[0], Entry(c + 1, c), Entry(c + 3, c + 2));
    assert v.hist[1][0] == Entry(c + 6, c + 4);
  }

  lemma Cross(n: nat, kinds: set<Class>, v: World) returns (v': World)
    requires At(n, kinds, v, 0) && 2 <= |v.hist| && IsFresh(v, 0) && IsFresh(v, 1) && v.sys.allLwm == 0
    ensures At(n, kinds, v', 0) && OthersKept(v, v') && v'.sys.clock == v.sys.clock + 8
    ensures Crossed(v', v.sys.clock, v.sys.clock + 7)
    ensures v'.sys.workers[0].word == Word(false, false, v.sys.clock + 5)
    ensures v'.sys.workers[1].word == Word(false, false, v.sys.clock + 7) && !v'.sys.workers[1].olap
    ensures v'.sys.workers[1].tree == [Entry(v.sys.clock + 6, v.sys.clock + 4)]
  {
    var v1 := TwoWrites(n, kinds, v, 0);
    assert IsFresh(v1, 1);
    var v2 := Begin(n, kinds, v1, 1, false);
    var v3 := Begin(n, kinds, v2, 0, false);
    var v4 := FinishWrite(n, kinds, v3, 1);
    var v5 := Leave(n, kinds, v4, 1);
    v' := Begin(n, kinds, v5, 1, false);
    assert v'.hist[1] == [Entry(v.sys.clock + 6, v.sys.clock + 4)];
    assert v'.sys.workers[1].tree == [Entry(v.sys.clock + 6, v.sys.clock + 4)];
  }

  /** A whole OLTP refresh after that, with everybody else younger than the reader. */
  lemma CutTrap(n: nat, kinds: set<Class>) returns (v: World, t: Times)
    requires n >= 2 && Oltp in kinds
    ensures Reaches(n, kinds, v) && Trap(v, t) && !Between(v.sys)
  {
    ReachesInit(n, kinds);
    var v0 := World(Init(n), seq(n, i => []));
    var c := v0.sys.clock;
    assert forall o | 0 <= o < n :: IsFresh(v0, o);
    var v1 := Cross(n, kinds, v0);
    assert forall o | 2 <= o < n :: IsFresh(v1, o);
    var v2 := OthersRan(n, kinds, v1, n);
    FirstTwo(v1.sys.workers, v2.sys.workers);
    YoungWords(v2, c + 5, c + 8);
    v := RefreshAndRun(n, kinds, v2, Bounds(0, 0, c + 5, 1, c + 5));
    assert SameWorker(v2.sys.workers[0], v.sys.workers[0], false);
    NoneBetween(v2, v);
    CrossedTrap(v, c, v2.sys.clock);
    t := CrossedTimes(c, v2.sys.clock);
  }

  lemma YoungWords(v: World, low: nat, high: nat)
    requires 2 <= |v.sys.workers| && low <= high
    requires OnSide(v.sys.workers[0].word, 0, low) && OnSide(v.sys.workers[1].word, 0, low)
    requires forall o | 2 <= o < |v.sys.workers| :: OnSide(v.sys.workers[o].word, 0, high)
    ensures forall o | 0 <= o < |v.sys.workers| :: OnSide(v.sys.workers[o].word, 0, low)
  {
    forall o | 0 <= o < |v.sys.workers|
      ensures OnSide(v.sys.workers[o].word, 0, low)
    {
      assert 2 <= o ==> OnSide(v.sys.workers[o].word, 0, high);
    }
  }

  // ----- behind an OLAP reader

  /**
    Worker 0 has committed transaction c and reads as an OLAP transaction at c + 2; worker 1 has then committed c + 3
    and c + 5 and runs at z. Both lie between the two stored timestamps.
   */
  ghost predicate Behind(v: World, c: nat, z: nat) {
    && BothRun(v, c + 2, z) && c + 6 < z
    && v.hist[0] == [Entry(c + 1, c)] && v.hist[1] == [Entry(c + 4, c + 3), Entry(c + 6, c + 5)]
    && v.sys.newestOlap == c + 2 && c + 5 < Loaded(v.sys.oldestOltp)
  }

  lemma Follow(n: nat, kinds: set<Class>, v: World) returns (v': World)
    requires At(n, kinds, v, 0) && 2 <= |v.hist| && IsFresh(v, 0) && IsFresh(v, 1) && v.sys.allLwm == 0
    ensures At(n, kinds, v', 0) && OthersKept(v, v') && v'.sys.clock == v.sys.clock + 8
    ensures var c := v.sys.clock;
            && BothRun(v', c + 2, c + 7) && v'.hist[0] == [Entry(c + 1, c)]
            && v'.hist[1] == [Entry(c + 4, c + 3), Entry(c + 6, c + 5)] == v'.sys.workers[1].tree
            && v'.sys.workers[0].word == Word(false, true, c + 2)
            && v'.sys.workers[1].word == Word(false, false, c + 7) && !v'.sys.workers[1].olap
  {
    var v2 := WriteAndRead(n, kinds, v);
    assert IsFresh(v2, 1);
    v' := WriteTwice(n, kinds, v2, 1, false);
  }

  /** Worker 0 writes and starts to read as an OLAP transaction. */
  lemma WriteAndRead(n: nat, kinds: set<Class>, v: World) returns (v': World)
    requires At(n, kinds, v, 0) && 2 <= |v.hist| && IsFresh(v, 0)
    ensures At(n, kinds, v', 0)
    ensures var c := v.sys.clock;
            && v'.hist == v.hist[0 := [Entry(c + 1, c)]] && v'.sys.workers[0].phase.Active?
            && v'.sys.workers[0].start == c + 2 && v'.sys.workers[0].word == Word(false, true, c + 2)
            && v'.sys == v.sys.(workers := v.sys.workers[0 := v'.sys.workers[0]], clock := c + 3)
  {
    var v1 := Write(n, kinds, v, 0);
    v' := Begin(n, kinds, v1, 0, true);
    assert v'.hist[0] == [Entry(v.sys.clock + 1, v.sys.clock)];
    assert v'.sys.workers == v.sys.workers[0 := v'.sys.workers[0]];
  }

  lemma ClashTrap(n: nat, kinds: set<Class>) returns (v: World, c: nat, z: nat)
    requires n >= 2 && Oltp in kinds
    ensures Reaches(n, kinds, v) && Behind(v, c, z) && !Between(v.sys) && 0 < c
  {
    ReachesInit(n, kinds);
    var v0 := World(Init(n), seq(n, i => []));
    c := v0.sys.clock;
    assert forall o | 0 <= o < n :: IsFresh(v0, o);
    var v1 := Follow(n, kinds, v0);
    assert forall o | 2 <= o < n :: IsFresh(v1, o);
    var v2 := OthersRan(n, kinds, v1, n);
    FirstTwo(v1.sys.workers, v2.sys.workers);
    z := v2.sys.clock;
    v := RefreshBehind(n, kinds, v2, c);
  }

  lemma RefreshBehind(n: nat, kinds: set<Class>, v: World, c: nat) returns (v': World)
    requires Oltp in kinds && At(n, kinds, v, 1) && 2 <= |v.hist| && v.sys.mutex.None? && c + 8 <= v.sys.clock
    requires BothRun(v, c + 2, c + 7) && v.hist[0] == [Entry(c + 1, c)]
    requires v.hist[1] == [Entry(c + 4, c + 3), Entry(c + 6, c + 5)] == v.sys.workers[1].tree && !v.sys.workers[1].olap
    requires v.sys.workers[0].word == Word(false, true, c + 2) && v.sys.workers[1].word == Word(false, false, c + 7)
    requires forall o | 2 <= o < |v.hist| :: IsFresh(v, o)
    requires forall o | 2 <= o < |v.hist| :: OnSide(v.sys.workers[o].word, 0, c + 8)
    ensures Reaches(n, kinds, v') && Behind(v', c, v.sys.clock) && !Between(v'.sys)
  {
    OlapWord(v, c);
    InTree(v.sys.workers[1].tree, c);
    v' := RefreshAndRun(n, kinds, v, Bounds(c + 2, c + 2, c + 7, 1, c + 2));
    assert SameWorker(v.sys.workers[0], v'.sys.workers[0], false);
    NoneBetween(v, v');
  }

  lemma InTree(tree: seq<Entry>, c: nat)
    requires tree == [Entry(c + 4, c + 3), Entry(c + 6, c + 5)]
    ensures forall e | e in tree :: c + 2 <= e.commit
  {
  }

  lemma OlapWord(v: World, c: nat)
    requires 2 <= |v.sys.workers|
    requires v.sys.workers[0].word == Word(false, true, c + 2) && v.sys.workers[1].word == Word(false, false, c + 7)
    requires forall o | 2 <= o < |v.sys.workers| :: OnSide(v.sys.workers[o].word, 0, c + 8)
    ensures forall o | 0 <= o < |v.sys.workers| :: OnSide(v.sys.workers[o].word, c + 2, c + 7)
  {
    forall o | 0 <= o < |v.sys.workers|
      ensures OnSide(v.sys.workers[o].word, c + 2, c + 7)
    {
      assert 2 <= o ==> OnSide(v.sys.workers[o].word, 0, c + 8);
    }
  }
}
