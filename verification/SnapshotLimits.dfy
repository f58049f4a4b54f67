/**
  What the snapshot machine guarantees only under a condition: one worker alone forgets its commits, and a refresh by an
  OLAP transaction misses readers. Each with its exact condition.
 */
module SnapshotLimits {
  import opened Wrappers
  import opened CommitTree
  import opened Snapshot
  import opened SnapshotProof
  import opened SnapshotTheorems
  import opened SnapshotOlap
  import opened SnapshotRuns

  // ----- one worker alone

  /** Every commit tree ends with the last commit of its worker. */
  ghost predicate Remembers(v: World) {
    && |v.sys.workers| == |v.hist|
    && forall w | 0 <= w < |v.hist| && v.hist[w] != [] ::
         var tree := v.sys.workers[w].tree; tree != [] && tree[|tree| - 1] == v.hist[w][|v.hist[w]| - 1]
  }

  ghost predicate AlwaysRemembers(n: nat) {
    forall worlds: seq<World>, actions: seq<Action>, k: nat | Run(n, worlds, actions) && k <= |actions| ::
      Remembers(worlds[k])
  }

  /** Three transactions of one worker: the third one cleans a full tree and keeps nothing. */
  lemma AloneForgets() returns (v: World)
    ensures Reaches(1, {}, v) && |v.hist| == |v.sys.workers| == 1 && v.hist[0] != [] && v.sys.workers[0].tree == []
  {
    ReachesInit(1, {});
    v := World(Init(1), seq(1, i => []));
    v := Write(1, {}, v, 0);
    v := Write(1, {}, v, 0);
    v := DrawStart(1, {}, v, 0, false);
    v := CleanAlone(v);
  }

  lemma CleanAlone(v: World) returns (v': World)
    requires At(1, {}, v, 0) && |v.hist| == 1 && v.sys.workers[0].phase.Drawn?
    requires |v.sys.workers[0].tree| == Capacity(v.sys)
    ensures Reaches(1, {}, v') && v'.hist == v.hist && |v'.sys.workers| == 1 && v'.sys.workers[0].tree == []
  {
    var (my, c) := (v.sys.workers[0], v.sys.clock);
    var a := my.(phase := Cleaning(0, {}), word := Word(false, my.olap, my.start));
    var b := a.(phase := Cleaning(1, {}));
    var d := b.(phase := Loading, tree := Filter(my.tree, {}));
    Extend(1, {}, v, 0, Publish, With(v, 0, a, c));
    WithTwice(v, 0, a, c, b, c);
    Extend(1, {}, With(v, 0, a, c), 0, CleanRead, With(v, 0, b, c));
    WithTwice(v, 0, b, c, d, c);
    v' := With(v, 0, d, c);
    Extend(1, {}, With(v, 0, b, c), 0, CleanFinish, v');
    FilterNothing(my.tree);
  }

  /** Cleaning keeps every worker's last commit, in all runs, exactly when there is a second worker to read. */
  lemma RemembersIff(n: nat)
    requires n >= 1
    ensures AlwaysRemembers(n) <==> n >= 2
  {
    if n >= 2 {
      forall worlds: seq<World>, actions: seq<Action>, k: nat | Run(n, worlds, actions) && k <= |actions|
        ensures Remembers(worlds[k])
      {
        RunKeeps(n, worlds, actions, k);
        InvRemembers(worlds[k]);
      }
    } else {
      var v := AloneForgets();
      var worlds: seq<World>, actions: seq<Action> :| RunOf(n, {}, worlds, actions) && v == worlds[|actions|];
      assert !Remembers(worlds[|actions|]);
    }
  }

  lemma InvRemembers(v: World)
    requires Inv(v.sys, v.hist)
    ensures Remembers(v)
  {
    forall w | 0 <= w < |v.hist| && v.hist[w] != []
      ensures var tree := v.sys.workers[w].tree; tree != [] && tree[|tree| - 1] == v.hist[w][|v.hist[w]| - 1]
    {
      InvMine(v.sys, v.hist, w);
    }
  }

  // ----- refreshes by OLAP transactions

  /** ts is on one of the two sides that garbage collection leaves alone; None is larger than every timestamp. */
  ghost predicate Sided(ts: nat, newestOlap: nat, oldestOltp: Option<nat>) {
    ts <= newestOlap || (oldestOltp.Some? && oldestOltp.value <= ts)
  }

  /** The stored pair serves every running and every later snapshot. */
  ghost predicate ServesAll(s: Sys) {
    forall ts | NowOrLater(s, ts) :: Sided(ts, s.newestOlap, s.oldestOltp)
  }

  /** In every state of every run of n workers with such refreshers, outside the gap between two stores. */
  ghost predicate AlwaysServes(n: nat, kinds: set<Class>) {
    forall worlds: seq<World>, actions: seq<Action>, k: nat | RunOf(n, kinds, worlds, actions) && k <= |actions|
      && !Between(worlds[k].sys) ::
      ServesAll(worlds[k].sys)
  }

  /** Nobody runs, nobody has written, and nobody has refreshed. */
  ghost predicate Resting(v: World, n: nat) {
    && Shape(v.sys, v.hist) && |v.hist| == n && v.sys.mutex.None? && v.sys.newestOlap == 0 && v.sys.allLwm == 0
    && forall o | 0 <= o < n :: IsFresh(v, o)
  }

  ghost predicate IsFresh(v: World, o: nat)
    requires o < |v.sys.workers| && o < |v.hist|
  {
    v.sys.workers[o].phase.Idle? && v.sys.workers[o].tree == [] && v.hist[o] == []
  }

  /** The first m workers have run one OLAP transaction each. */
  lemma {:induction false} AllRan(n: nat, kinds: set<Class>, m: nat) returns (v: World)
    requires m <= n
    ensures Reaches(n, kinds, v) && Resting(v, n) && v.sys.clock == FIRST_CLOCK + m
    ensures forall o | 0 <= o < m :: v.sys.workers[o].word == Word(false, true, FIRST_CLOCK + o)
    decreases m
  {
    if m == 0 {
      ReachesInit(n, kinds);
      v := World(Init(n), seq(n, i => []));
    } else {
      var u := AllRan(n, kinds, m - 1);
      assert IsFresh(u, m - 1);
      v := Pass(n, kinds, u, m - 1, true);
      forall o | 0 <= o < n
        ensures IsFresh(v, o)
      {
        assert IsFresh(u, o);
      }
    }
  }

  /** Worker w runs a transaction and starts a refresh after it. */
  lemma Refresh(n: nat, kinds: set<Class>, v: World, w: nat, olap: bool) returns (v': World)
    requires At(n, kinds, v, w) && v.sys.workers[w].phase.Idle? && |v.sys.workers[w].tree| < Capacity(v.sys)
    requires v.sys.mutex.None? && (if olap then Olap else Oltp) in kinds
    ensures At(n, kinds, v', w)
    ensures v' == World(Put(v.sys, w, Started(v.sys, w, olap).(phase := Scanning(0, None, 0, None)))
                          .(clock := v.sys.clock + 1, mutex := Some(w)), v.hist)
  {
    var (a, c) := (Started(v.sys, w, olap), v.sys.clock + 1);
    var v1 := Begin(n, kinds, v, w, olap);
    var v2 := Finish(n, kinds, v1, w);
    WithTwice(v, w, a, c, a.(phase := Committed), c);
    v' := Enter(n, kinds, v2, w);
    assert v.sys.workers[w := a.(phase := Committed)][w := a.(phase := Scanning(0, None, 0, None))]
        == v.sys.workers[w := a.(phase := Scanning(0, None, 0, None))];
  }

  /** Everybody has run an OLAP transaction, and the last worker scans after another one: it has passed worker 0. */
  lemma OlapScan(n: nat, kinds: set<Class>) returns (v: World)
    requires n >= 2 && Olap in kinds
    ensures At(n, kinds, v, n - 1) && |v.hist| == n && v.sys.clock == FIRST_CLOCK + n + 1 && v.sys.allLwm == 0
    ensures v.sys.workers[n - 1].tree == [] && v.hist[n - 1] == []
    ensures var p := v.sys.workers[n - 1].phase; p == Scanning(1, Some(FIRST_CLOCK), FIRST_CLOCK, None)
    ensures forall o | 0 <= o < n - 1 :: IsFresh(v, o)
    ensures forall o | 0 <= o < n ::
              var word := v.sys.workers[o].word; word.olap && !word.latched && word.ts <= FIRST_CLOCK + n
  {
    var v0 := AllRan(n, kinds, n);
    assert IsFresh(v0, n - 1);
    var v1 := Refresh(n, kinds, v0, n - 1, true);
    v := ReadOne(n, kinds, v1, n - 1);
    forall o | 0 <= o < n - 1
      ensures IsFresh(v, o)
    {
      assert IsFresh(v0, o);
    }
  }

  /**
    A refresh by an OLAP transaction, in which worker 0 starts after its word has been read: what is stored is below
    that running snapshot on the OLAP side and above it on the OLTP side.
   */
  lemma OlapRefreshMissesAReader(n: nat, kinds: set<Class>) returns (v: World)
    requires n >= 2 && Olap in kinds
    ensures Reaches(n, kinds, v) && !Between(v.sys) && !ServesAll(v.sys)
  {
    var f := n - 1;
    var v0 := OlapScan(n, kinds);
    assert IsFresh(v0, 0);
    var s := v0.sys.clock;
    var v1 := Begin(n, kinds, v0, 0, true);
    var v2 := ReadRest(n, kinds, v1, f, Bounds(0, FIRST_CLOCK + n, s + 1, n, FIRST_CLOCK));
    var v3 := StoreTwo(n, kinds, v2, f);
    v := StoreLast(n, kinds, v3, f);
    assert Live(v.sys.workers[0]) && v.sys.workers[0].start == s;
    NobodyBetween(v0, v, f);
    assert NowOrLater(v.sys, s) && !Sided(s, v.sys.newestOlap, v.sys.oldestOltp);
  }

  lemma NobodyBetween(v0: World, v: World, f: nat)
    requires f < |v0.sys.workers| == |v.sys.workers| == |v0.hist| && v.sys.workers[f].phase.Delivering?
    requires f > 0 && v.sys.workers[0].phase.Active? && forall o | 0 <= o < |v0.hist| && o != f :: IsFresh(v0, o)
    requires forall o | 0 < o < |v0.hist| && o != f :: v.sys.workers[o] == v0.sys.workers[o]
    ensures !Between(v.sys)
  {
    forall o | 0 <= o < |v.sys.workers|
      ensures !v.sys.workers[o].phase.StoredOltp?
    {
      assert o != f ==> IsFresh(v0, o);
    }
  }

  /**
    The stored pair serves every snapshot in all runs of n workers, outside the gap between two stores, exactly when no
    refresh is by an OLAP transaction.
   */
  lemma ServesIff(n: nat, kinds: set<Class>)
    requires n >= 2
    ensures AlwaysServes(n, kinds) <==> Olap !in kinds
  {
    if Olap in kinds {
      var v := OlapRefreshMissesAReader(n, kinds);
      var worlds: seq<World>, actions: seq<Action> :| RunOf(n, kinds, worlds, actions) && v == worlds[|actions|];
      assert !Between(worlds[|actions|].sys) && !ServesAll(worlds[|actions|].sys);
    } else {
      forall worlds: seq<World>, actions: seq<Action>, k: nat | RunOf(n, kinds, worlds, actions) && k <= |actions|
        && !Between(worlds[k].sys)
        ensures ServesAll(worlds[k].sys)
      {
        ServesAt(n, kinds, worlds, actions, k);
      }
    }
  }

  lemma ServesAt(n: nat, kinds: set<Class>, worlds: seq<World>, actions: seq<Action>, k: nat)
    requires n >= 2 && RunOf(n, kinds, worlds, actions) && Olap !in kinds && k <= |actions| && !Between(worlds[k].sys)
    ensures ServesAll(worlds[k].sys)
  {
    if Torn(worlds, k, k) {
      var w := TornAt(worlds, k, k);
    }
    forall ts | NowOrLater(worlds[k].sys, ts)
      ensures Sided(ts, worlds[k].sys.newestOlap, worlds[k].sys.oldestOltp)
    {
      EverySnapshotIsServed(n, kinds, worlds, actions, k, k, k, ts);
    }
  }
}
