/** Snapshot isolation over whole runs: exact pruning, exact visibility, safe purging. */
module SnapshotTheorems {
  import opened Wrappers
  import opened CommitTree
  import opened Snapshot
  import opened SnapshotProof

  lemma StepKeeps(v: World, w: nat, e: Event, v': World)
    requires Inv(v.sys, v.hist) && StepTo(v, w, e, v')
    ensures Inv(v'.sys, v'.hist)
  {
    if IsPlain(e) {
      PlainKeeps(v, w, e, v');
    } else {
      match e
      case Draw => DrawKeeps(v, w, v');
      case CleanRead => CleanReadKeeps(v, w, v');
      case CleanFinish => CleanFinishKeeps(v, w, v');
      case LoadLwm => LoadLwmKeeps(v, w, v');
      case Ask(o, ts) => AskKeeps(v, w, o, ts, v');
      case Commit(_) => CommitWriteKeeps(v, w, v');
      case RefreshRead => RefreshReadKeeps(v, w, v');
      case StoreOldest => StoreOldestKeeps(v, w, v');
      case Deliver => DeliverKeeps(v, w, v');
      case EndRefresh => EndRefreshKeeps(v, w, v');
      case Purge => PurgeKeeps(v, w, v');
      case _ =>
    }
  }

  lemma InitInv(n: nat)
    requires n >= 2
    ensures Inv(Init(n), seq(n, i => []))
  {
    var (s, h: History) := (Init(n), seq(n, i => []));
    assert forall w | 0 <= w < n :: s.workers[w] == InitWorker(n) && h[w] == [];
  }

  lemma {:induction false} RunKeeps(n: nat, worlds: seq<World>, actions: seq<Action>, k: nat)
    requires n >= 2 && Run(n, worlds, actions) && k <= |actions|
    ensures Inv(worlds[k].sys, worlds[k].hist)
  {
    if k == 0 {
      InitInv(n);
    } else {
      RunKeeps(n, worlds, actions, k - 1);
      assert StepAt(worlds, actions, k - 1);
      StepKeeps(worlds[k - 1], actions[k - 1].worker, actions[k - 1].event, worlds[k]);
    }
  }

  ghost predicate Reachable(v: World) {
    exists n, worlds, actions :: n >= 2 && Run(n, worlds, actions) && v == worlds[|actions|]
  }

  lemma ReachableInv(v: World)
    requires Reachable(v)
    ensures Inv(v.sys, v.hist)
  {
    var n, worlds, actions :| n >= 2 && Run(n, worlds, actions) && v == worlds[|actions|];
    RunKeeps(n, worlds, actions, |actions|);
  }

  /**
    A pruned tree answers exactly like the full history, for every other worker's live snapshot and every future one.
   */
  lemma PrunedTreeIsExact(v: World, w: nat, o: nat, ts: nat)
    requires Reachable(v) && w < |v.hist| == |v.sys.workers| && o < |v.hist| && w != o
    requires (Live(v.sys.workers[o]) && ts == v.sys.workers[o].start) || v.sys.clock <= ts
    ensures LCB(v.sys.workers[w].tree, ts) == LCB(v.hist[w], ts)
  {
    ReachableInv(v);
    if v.sys.clock <= ts {
      InvMine(v.sys, v.hist, w);
      ExactAtClock(|v.hist|, v.sys.clock, v.sys.workers[w], v.hist[w], ts);
    } else {
      assert Exact(v.sys.workers[w], v.hist[w], ts);
    }
  }

  /** The tree never outgrows its workers + 1 slots: commit's assertion cannot fail. */
  lemma NeverOverflows(v: World, w: nat, e: Event)
    requires Reachable(v) && w < |v.hist| == |v.sys.workers|
    ensures |v.sys.workers[w].tree| <= Capacity(v.sys)
    ensures Shape(v.sys, v.hist) && !Step(v.sys, w, e).Crash?
  {
    ReachableInv(v);
    InvMine(v.sys, v.hist, w);
    NoCrash(v.sys, v.hist, w, e);
  }

  lemma NoCrash(s: Sys, h: History, w: nat, e: Event)
    requires Shape(s, h) && w < |h| && TreeOk(|h|, s.workers[w], h[w])
    ensures !Step(s, w, e).Crash?
  {
  }

  // ----- watermarks

  /** t is the start timestamp of a transaction of o that may have written: committed, or running now. */
  ghost predicate IsTransaction(s: Sys, h: History, o: nat, t: nat)
    requires o < |s.workers| == |h|
  {
    (exists e :: e in h[o] && e.start == t) || (Live(s.workers[o]) && t == s.workers[o].start)
  }

  /** Transactions of one worker commit in the order they started. */
  lemma EarlierCommitsEarlier(clock: nat, my: Worker, h: seq<Entry>, a: Entry, b: Entry)
    requires HistoryOk(clock, my, h) && a in h && b in h && a.start <= b.start
    ensures a.commit <= b.commit
  {
    var i :| 0 <= i < |h| && h[i] == a;
    var j :| 0 <= j < |h| && h[j] == b;
  }

  /** ts is the snapshot of a running transaction, or can become that of a later one. */
  ghost predicate NowOrLater(s: Sys, ts: nat) {
    s.clock <= ts || exists i :: 0 <= i < |s.workers| && Live(s.workers[i]) && s.workers[i].start == ts
  }

  /** Below a safe watermark everything committed before every live and every later snapshot. */
  lemma BelowLwm(s: Sys, h: History, o: nat, lwm: nat, t: nat, ts: nat)
    requires Inv(s, h) && o < |h| && SafeLwm(s, h[o], lwm) && t < lwm && IsTransaction(s, h, o, t) && NowOrLater(s, ts)
    ensures CommittedBefore(h[o], t, ts)
  {
    InvMine(s, h, o);
    var e :| e in h[o] && lwm <= e.start && Settled(s, e);
    var k :| 0 <= k < |h[o]| && h[o][k] == e;
    var x :| x in h[o] && x.start == t;
    EarlierCommitsEarlier(s.clock, s.workers[o], h[o], x, e);
    assert x.commit < ts;
  }

  /**
    The watermark delivered to a worker, the one below which it has purged its versions, and the global one
    are all safe: a transaction below them is in every snapshot taken now or later.
   */
  lemma LowWatermark(v: World, o: nat, t: nat, ts: nat)
    requires Reachable(v) && o < |v.hist| == |v.sys.workers| && IsTransaction(v.sys, v.hist, o, t)
    requires NowOrLater(v.sys, ts)
    requires t < v.sys.workers[o].received || t < v.sys.workers[o].purged || t < v.sys.allLwm
    ensures CommittedBefore(v.hist[o], t, ts)
  {
    ReachableInv(v);
    var (s, h) := (v.sys, v.hist);
    if t < s.workers[o].received {
      BelowLwm(s, h, o, s.workers[o].received, t, ts);
    } else if t < s.workers[o].purged {
      BelowLwm(s, h, o, s.workers[o].purged, t, ts);
    } else {
      BelowLwm(s, h, o, s.allLwm, t, ts);
    }
  }

  /** What is purged stays purged, whatever watermark is received next. */
  lemma {:induction false} PurgedStaysPurged(n: nat, worlds: seq<World>, actions: seq<Action>, o: nat, i: nat, k: nat)
    requires Run(n, worlds, actions) && i <= k <= |actions| && o < |worlds[i].sys.workers|
    ensures |worlds[k].sys.workers| == |worlds[i].sys.workers|
    ensures worlds[i].sys.workers[o].purged <= worlds[k].sys.workers[o].purged
    decreases k
  {
    if i < k {
      PurgedStaysPurged(n, worlds, actions, o, i, k - 1);
      assert StepAt(worlds, actions, k - 1);
      PurgedGrows(worlds[k - 1], actions[k - 1].worker, actions[k - 1].event, worlds[k], o);
    }
  }

  lemma PurgedGrows(v: World, w: nat, e: Event, v': World, o: nat)
    requires StepTo(v, w, e, v') && o < |v.sys.workers|
    ensures |v'.sys.workers| == |v.sys.workers| && v.sys.workers[o].purged <= v'.sys.workers[o].purged
  {
  }

  /** isVisibleForAll on a commit timestamp: below global_oldest_all_start_ts it is in every snapshot. */
  lemma VisibleForAllByCommit(v: World, commit: nat, ts: nat)
    requires Reachable(v) && commit < v.sys.oldestAll && NowOrLater(v.sys, ts)
    ensures commit < ts
  {
    ReachableInv(v);
  }

  // ----- visibility

  /** What the history says about t, through its newest commit before ts. */
  lemma HistoryAnswers(clock: nat, my: Worker, h: seq<Entry>, t: nat, ts: nat)
    requires HistoryOk(clock, my, h) && (exists e :: e in h && e.start == t)
    ensures StartLCB(h, ts) >= t <==> CommittedBefore(h, t, ts)
  {
    var x :| x in h && x.start == t;
    var j :| 0 <= j < |h| && h[j] == x;
    var r := LCB(h, ts);
    if r.Some? {
      var k :| 0 <= k < |h| && h[k] == r.value;
      if t <= r.value.start {
        EarlierCommitsEarlier(clock, my, h, x, r.value);
      }
    }
    if CommittedBefore(h, t, ts) {
      var e :| e in h && e.start == t && e.commit < ts;
      NotAfterLCB(clock, my, h, e, ts);
    }
  }

  lemma NotAfterLCB(clock: nat, my: Worker, h: seq<Entry>, e: Entry, ts: nat)
    requires HistoryOk(clock, my, h) && e in h && e.commit < ts
    ensures StartLCB(h, ts) >= e.start
  {
    LCBIsGreatest(h, ts, e);
    var k :| 0 <= k < |h| && h[k] == LCB(h, ts).value;
    var l :| 0 <= l < |h| && h[l] == e;
  }

  /** The same for a transaction that is still running. */
  lemma HistoryAnswersRunning(clock: nat, my: Worker, h: seq<Entry>, ts: nat)
    requires HistoryOk(clock, my, h) && Live(my)
    ensures StartLCB(h, ts) < my.start && !CommittedBefore(h, my.start, ts)
  {
    var r := LCB(h, ts);
    if r.Some? {
      var k :| 0 <= k < |h| && h[k] == r.value;
    }
    forall e | e in h
      ensures e.start < my.start
    {
      var k :| 0 <= k < |h| && h[k] == e;
    }
  }

  lemma HistoryAnswersAll(s: Sys, h: History, o: nat, t: nat, ts: nat)
    requires Inv(s, h) && o < |h| && IsTransaction(s, h, o, t)
    ensures StartLCB(h[o], ts) >= t <==> CommittedBefore(h[o], t, ts)
    ensures t > 0
  {
    InvMine(s, h, o);
    if exists e :: e in h[o] && e.start == t {
      HistoryAnswers(s.clock, s.workers[o], h[o], t, ts);
      var e :| e in h[o] && e.start == t;
      var k :| 0 <= k < |h[o]| && h[o][k] == e;
    } else {
      HistoryAnswersRunning(s.clock, s.workers[o], h[o], ts);
    }
  }

  /** A cached answer from an older snapshot can only say yes when yes is right. */
  lemma OldCacheIsSound(s: Sys, h: History, me: nat, o: nat, t: nat)
    requires Inv(s, h) && me < |h| && o < |h| && IsTransaction(s, h, o, t) && s.workers[me].cache[o] >= t
    ensures CommittedBefore(h[o], t, s.workers[me].start)
  {
    var my := s.workers[me];
    assert CacheOk(s, h, me, o);
    HistoryAnswersAll(s, h, o, t, my.cacheTs[o]);
    var e :| e in h[o] && e.start == my.cache[o] && e.commit < my.cacheTs[o];
    InvMine(s, h, o);
    var k :| 0 <= k < |h[o]| && h[o][k] == e;
    var x :| x in h[o] && x.start == t;
    EarlierCommitsEarlier(s.clock, s.workers[o], h[o], x, e);
  }

  /** isVisibleForMe, whichever path answers: mine, or committed before my start. */
  lemma VisibilityIsExact(v: World, me: nat, o: nat, t: nat)
    requires Reachable(v) && me < |v.hist| == |v.sys.workers| && o < |v.hist|
    requires v.sys.workers[me].phase.Active? && IsTransaction(v.sys, v.hist, o, t)
    ensures Shape(v.sys, v.hist)
    ensures IsVisibleForMe(v.sys, me, o, t).0 <==> (o == me || CommittedBefore(v.hist[o], t, v.sys.workers[me].start))
  {
    ReachableInv(v);
    var (s, h) := (v.sys, v.hist);
    var my := s.workers[me];
    if me != o {
      HistoryAnswersAll(s, h, o, t, my.start);
      if t < my.lwmCache {
        BelowLwm(s, h, o, my.lwmCache, t, my.start);
      } else if my.cacheTs[o] == my.start {
        assert CacheOk(s, h, me, o);
      } else if my.cache[o] >= t {
        OldCacheIsSound(s, h, me, o, t);
      } else {
        assert Exact(s.workers[o], h[o], my.start);
      }
    }
  }

  /** A chain walk asks the history tree for the version that an invisible writer replaced: never a purged one. */
  lemma PurgedIsNeverRequested(v: World, me: nat, o: nat, t: nat)
    requires Reachable(v) && me < |v.hist| == |v.sys.workers| && o < |v.hist|
    requires v.sys.workers[me].phase.Active? && IsTransaction(v.sys, v.hist, o, t)
    ensures Shape(v.sys, v.hist)
    ensures !IsVisibleForMe(v.sys, me, o, t).0 ==> v.sys.workers[o].purged <= t
  {
    VisibilityIsExact(v, me, o, t);
    assert NowOrLater(v.sys, v.sys.workers[me].start);
    if t < v.sys.workers[o].purged {
      LowWatermark(v, o, t, v.sys.workers[me].start);
    }
  }

  lemma {:induction false} FilterNothing(tree: seq<Entry>)
    ensures Filter(tree, {}) == []
    decreases |tree|
  {
    if tree != [] {
      FilterNothing(tree[..|tree| - 1]);
    }
  }
}
