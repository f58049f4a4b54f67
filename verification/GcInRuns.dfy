/**
  Garbage collection of a fat tuple inside a run: with watermarks and timestamps loaded one after the other, when does a
  running reader notice it.
 */
module GcInRuns {
  import opened Wrappers
  import CommitTree
  import opened Snapshot
  import opened SnapshotProof
  import opened SnapshotTheorems
  import opened SnapshotOlap
  import opened Versions
  import FatTupleGc

  /** What isVisibleForMe answers worker `me` about the writer of a version. */
  ghost predicate Sees(s: Sys, me: nat, id: Id) {
    && me < |s.workers| && |s.workers[me].cache| == |s.workers[me].cacheTs| == |s.workers|
    && id.worker < |s.workers| && IsVisibleForMe(s, me, id.worker, id.tx).0
  }

  ghost function Vision(s: Sys, me: nat): (vis: Id -> bool) {
    (id: Id) => Sees(s, me, id)
  }

  /** The writer of an older version: a transaction that committed at `commit`. */
  ghost predicate WrittenBy(h: History, id: Id, commit: nat) {
    id.worker < |h| && CommitTree.Entry(commit, id.tx) in h[id.worker]
  }

  /** Or the running transaction that has also written the newest version; it can commit at `commit`. */
  ghost predicate Pending(s: Sys, head: Id, id: Id, commit: nat) {
    && id.worker == head.worker < |s.workers| && id.tx == head.tx == s.workers[id.worker].start
    && Live(s.workers[id.worker]) && s.clock <= commit
  }

  /**
    The versions of a tuple that live in this world: each writer saw the version it replaced, and the newest one is by a
    transaction of its worker.
   */
  ghost predicate TupleOf(v: World, id: Id, ds: seq<Delta>, commits: seq<nat>) {
    && FatTupleGc.Serial(id, ds, commits)
    && (forall i | 0 <= i < |ds| :: WrittenBy(v.hist, ds[i].id, commits[i]) || Pending(v.sys, id, ds[i].id, commits[i]))
    && |v.sys.workers| == |v.hist| && id.worker < |v.hist| && IsTransaction(v.sys, v.hist, id.worker, id.tx)
  }

  /** A worker's transactions have different start timestamps. */
  lemma StartsDiffer(clock: nat, my: Worker, h: seq<CommitTree.Entry>, a: CommitTree.Entry, b: CommitTree.Entry)
    requires HistoryOk(clock, my, h) && a in h && b in h && a.start == b.start
    ensures a == b
  {
    var i :| 0 <= i < |h| && h[i] == a;
    var j :| 0 <= j < |h| && h[j] == b;
  }

  lemma OwnCommitted(clock: nat, my: Worker, h: seq<CommitTree.Entry>, e: CommitTree.Entry)
    requires HistoryOk(clock, my, h) && Live(my) && e in h
    ensures e.commit < my.start
  {
    var i :| 0 <= i < |h| && h[i] == e;
  }

  /** A version is seen exactly when its writer committed before the reader's start. */
  lemma SeenIffCommitted(v: World, me: nat, id: Id, commit: nat)
    requires Reachable(v) && Inv(v.sys, v.hist) && me < |v.hist| && v.sys.workers[me].phase.Active?
    requires WrittenBy(v.hist, id, commit)
    ensures Sees(v.sys, me, id) <==> commit < v.sys.workers[me].start
  {
    var (s, h, o, e) := (v.sys, v.hist, id.worker, CommitTree.Entry(commit, id.tx));
    var ts := s.workers[me].start;
    assert IsTransaction(s, h, o, id.tx);
    VisibilityIsExact(v, me, o, id.tx);
    InvMine(s, h, o);
    if CommittedBefore(h[o], id.tx, ts) {
      var x: CommitTree.Entry :| x in h[o] && x.start == id.tx && x.commit < ts;
      StartsDiffer(s.clock, s.workers[o], h[o], x, e);
    }
    if o == me {
      OwnCommitted(s.clock, s.workers[o], h[o], e);
    }
  }

  /** A version of a running transaction is seen by its own worker alone. */
  lemma RunningIsUnseen(v: World, me: nat, id: Id)
    requires Reachable(v) && Inv(v.sys, v.hist) && me < |v.hist| && v.sys.workers[me].phase.Active?
    requires id.worker < |v.hist| && Live(v.sys.workers[id.worker]) && id.tx == v.sys.workers[id.worker].start
    ensures Sees(v.sys, me, id) <==> id.worker == me
  {
    var o := id.worker;
    VisibilityIsExact(v, me, o, id.tx);
    InvMine(v.sys, v.hist, o);
    HistoryAnswersRunning(v.sys.clock, v.sys.workers[o], v.hist[o], v.sys.workers[me].start);
  }

  // ----- what the collector has loaded

  /** isVisibleForAll has answered from the watermarks of states from h to i, each time from another one. */
  ghost predicate Answers(worlds: seq<World>, h: nat, i: nat, all: Id -> bool) {
    forall id :: AnswersFor(worlds, h, i, all, id)
  }

  ghost predicate AnswersFor(worlds: seq<World>, h: nat, i: nat, all: Id -> bool, id: Id) {
    exists a :: h <= a <= i && a < |worlds| && (all(id) <==> id.tx < worlds[a].sys.allLwm)
  }

  /** One call of garbageCollection, by a worker that may update the tuple. */
  datatype Collection = Collection(collector: nat, id: Id, value: seq<byte>, ds: seq<Delta>, commits: seq<nat>,
                                   all: Id -> bool, zone: Option<(nat, nat)>, ds': seq<Delta>)

  /**
    The collector is running from state h to state k. It asks isVisibleForAll from state h to i, loads the oldest OLTP
    timestamp in state i and the newest OLAP one in state j, and is done in state k.
   */
  ghost predicate Collects(worlds: seq<World>, h: nat, i: nat, j: nat, k: nat, c: Collection) {
    && h <= i <= j <= k < |worlds| && DeltasOk(c.ds, |c.value|) && TupleOf(worlds[k], c.id, c.ds, c.commits)
    && (forall a | h <= a <= k ::
          c.collector < |worlds[a].sys.workers| && worlds[a].sys.workers[c.collector].phase.Active?)
    && Sees(worlds[k].sys, c.collector, c.id) && Answers(worlds, h, i, c.all)
    && var (olap, oltp) := (worlds[j].sys.newestOlap, Loaded(worlds[i].sys.oldestOltp));
       FatTupleGc.Collected(c.id, c.ds, c.all, olap, oltp, c.zone, c.ds')
  }

  /** The zone ends between two updates of one transaction. */
  ghost predicate Cuts(c: Collection) {
    c.zone.Some? && !FatTupleGc.Whole(c.ds, c.zone.value.1)
  }

  /** Slots of the zone that share a byte disagree on it, or there are more than a byte can count. */
  ghost predicate Clashes(c: Collection)
    requires LengthsOk(c.ds)
  {
    c.zone.Some? && c.zone.value.0 <= c.zone.value.1 <= |c.ds| &&
    !FatTupleGc.Mergeable(c.ds[c.zone.value.0..c.zone.value.1])
  }

  /** What worker `me` reads from the tuple is what it read before the collection. */
  ghost predicate ReadsSame(s: Sys, me: nat, c: Collection) {
    && DeltasOk(c.ds, |c.value|) && DeltasOk(c.ds', |c.value|)
    && Reads(c.id, c.value, c.ds', Vision(s, me)) == Reads(c.id, c.value, c.ds, Vision(s, me))
  }

  // ----- loads that are not torn

  lemma PrefixReachable(n: nat, worlds: seq<World>, actions: seq<Action>, k: nat)
    requires n >= 2 && Run(n, worlds, actions) && k <= |actions|
    ensures Reachable(worlds[k])
  {
    var (front, back) := (worlds[..k + 1], actions[..k]);
    forall i | 0 <= i < k
      ensures StepAt(front, back, i)
    {
      assert StepAt(worlds, actions, i);
    }
    assert Run(n, front, back) && worlds[k] == front[|back|];
  }

  /** A watermark stays safe. */
  lemma {:induction false} OldLwm(n: nat, worlds: seq<World>, actions: seq<Action>, a: nat, k: nat, o: nat)
    requires n >= 2 && Run(n, worlds, actions) && a <= k <= |actions| && o < n
    ensures |worlds[k].hist| == n && SafeLwm(worlds[k].sys, worlds[k].hist[o], worlds[a].sys.allLwm)
    decreases k
  {
    RunKeeps(n, worlds, actions, k);
    RunSize(n, worlds, actions, k);
    if a < k {
      OldLwm(n, worlds, actions, a, k - 1, o);
      RunEvolves(n, worlds, actions, k - 1);
      SafeLwmStays(worlds[k - 1].sys, worlds[k - 1].hist, worlds[k].sys, worlds[k].hist, o, worlds[a].sys.allLwm);
    }
  }

  lemma {:induction false} RunSize(n: nat, worlds: seq<World>, actions: seq<Action>, k: nat)
    requires Run(n, worlds, actions) && k <= |actions|
    ensures |worlds[k].hist| == n
    decreases k
  {
    if k > 0 {
      RunSize(n, worlds, actions, k - 1);
      assert StepAt(worlds, actions, k - 1);
    }
  }

  lemma RunEvolves(n: nat, worlds: seq<World>, actions: seq<Action>, k: nat)
    requires n >= 2 && Run(n, worlds, actions) && k < |actions|
    ensures Evolves(worlds[k].sys, worlds[k].hist, worlds[k + 1].sys, worlds[k + 1].hist)
  {
    RunKeeps(n, worlds, actions, k);
    assert StepAt(worlds, actions, k);
    StepEvolves(worlds[k], actions[k].worker, actions[k].event, worlds[k + 1]);
  }

  lemma StepEvolves(v: World, w: nat, e: Event, v': World)
    requires StepTo(v, w, e, v')
    ensures Evolves(v.sys, v.hist, v'.sys, v'.hist)
  {
    if IsPlain(e) {
      PlainShape(v, w, e, v');
      CalmEvolves(v.sys, v.hist, v'.sys);
    } else if IsLwmStep(e) {
      LwmFrame(v, w, e, v');
      CalmEvolves(v.sys, v.hist, v'.sys);
    } else {
      match e
      case Draw => DrawShape(v, w, v');
      case CleanRead => CleanReadShape(v, w, v');
      case CleanFinish => CleanFinishShape(v, w, v');
      case Ask(o, ts) => AskShape(v, w, o, ts, v');
      case Commit(_) => CommitShape(v, w, v');
      case RefreshRead => RefreshReadShape(v, w, v');
      case _ =>
    }
  }

  /** What isVisibleForAll has said yes to is in every running snapshot. */
  lemma AllIsCommitted(n: nat, worlds: seq<World>, actions: seq<Action>, h: nat, i: nat, k: nat, all: Id -> bool,
                       id: Id,
                       ts: nat)
    requires n >= 2 && Run(n, worlds, actions) && h <= i <= k <= |actions| && Answers(worlds, h, i, all) && all(id)
    requires |worlds[k].hist| == |worlds[k].sys.workers| && id.worker < |worlds[k].hist|
    requires IsTransaction(worlds[k].sys, worlds[k].hist, id.worker, id.tx) && NowOrLater(worlds[k].sys, ts)
    ensures CommittedBefore(worlds[k].hist[id.worker], id.tx, ts)
  {
    assert AnswersFor(worlds, h, i, all, id);
    var a :| h <= a <= i && a < |worlds| && (all(id) <==> id.tx < worlds[a].sys.allLwm);
    RunKeeps(n, worlds, actions, k);
    RunSize(n, worlds, actions, k);
    OldLwm(n, worlds, actions, a, k, id.worker);
    BelowLwm(worlds[k].sys, worlds[k].hist, id.worker, worlds[a].sys.allLwm, id.tx, ts);
  }

  /** One older version of a tuple, to a running reader. */
  lemma ReaderOf(n: nat, worlds: seq<World>, actions: seq<Action>, h: nat, i: nat, k: nat, me: nat, c: Collection,
                 d: nat)
    requires n >= 2 && Run(n, worlds, actions) && h <= i <= k <= |actions| && Answers(worlds, h, i, c.all)
    requires Inv(worlds[k].sys, worlds[k].hist) && Reachable(worlds[k])
    requires TupleOf(worlds[k], c.id, c.ds, c.commits) && d < |c.ds|
    requires me < |worlds[k].hist| && worlds[k].sys.workers[me].phase.Active?
    ensures Sees(worlds[k].sys, me, c.id) ||
            (Sees(worlds[k].sys, me, c.ds[d].id) <==> c.commits[d] < worlds[k].sys.workers[me].start)
    ensures c.all(c.ds[d].id) ==> c.commits[d] < worlds[k].sys.workers[me].start
  {
    var (v, id, ts) := (worlds[k], c.ds[d].id, worlds[k].sys.workers[me].start);
    assert NowOrLater(v.sys, ts);
    if WrittenBy(v.hist, id, c.commits[d]) {
      SeenIffCommitted(v, me, id, c.commits[d]);
      assert IsTransaction(v.sys, v.hist, id.worker, id.tx);
      if c.all(id) {
        AllIsCommitted(n, worlds, actions, h, i, k, c.all, id, ts);
        CommitIs(v, id, c.commits[d], ts);
      }
    } else {
      assert Pending(v.sys, c.id, id, c.commits[d]);
      RunningIsUnseen(v, me, id);
      RunningIsUnseen(v, me, c.id);
      InvMine(v.sys, v.hist, me);
      NotForAll(n, worlds, actions, h, i, k, c.all, id, ts);
    }
  }

  /** A transaction commits once. */
  lemma CommitIs(v: World, id: Id, commit: nat, ts: nat)
    requires Inv(v.sys, v.hist) && WrittenBy(v.hist, id, commit) && CommittedBefore(v.hist[id.worker], id.tx, ts)
    ensures commit < ts
  {
    var o := id.worker;
    InvMine(v.sys, v.hist, o);
    var x: CommitTree.Entry :| x in v.hist[o] && x.start == id.tx && x.commit < ts;
    StartsDiffer(v.sys.clock, v.sys.workers[o], v.hist[o], x, CommitTree.Entry(commit, id.tx));
  }

  lemma NotForAll(n: nat, worlds: seq<World>, actions: seq<Action>, h: nat, i: nat, k: nat, all: Id -> bool, id: Id,
                  ts: nat)
    requires n >= 2 && Run(n, worlds, actions) && h <= i <= k <= |actions| && Answers(worlds, h, i, all)
    requires Inv(worlds[k].sys, worlds[k].hist) && id.worker < |worlds[k].hist| && NowOrLater(worlds[k].sys, ts)
    requires Live(worlds[k].sys.workers[id.worker]) && id.tx == worlds[k].sys.workers[id.worker].start
    ensures !all(id)
  {
    InvMine(worlds[k].sys, worlds[k].hist, id.worker);
    HistoryAnswersRunning(worlds[k].sys.clock, worlds[k].sys.workers[id.worker], worlds[k].hist[id.worker], ts);
    if all(id) {
      AllIsCommitted(n, worlds, actions, h, i, k, all, id, ts);
    }
  }

  /** The newest version, if it is visible for all. */
  lemma HeadForAll(n: nat, worlds: seq<World>, actions: seq<Action>, h: nat, i: nat, k: nat, me: nat, c: Collection)
    requires n >= 2 && Run(n, worlds, actions) && h <= i <= k <= |actions| && Answers(worlds, h, i, c.all)
    requires Inv(worlds[k].sys, worlds[k].hist) && Reachable(worlds[k]) && TupleOf(worlds[k], c.id, c.ds, c.commits)
    requires me < |worlds[k].hist| && worlds[k].sys.workers[me].phase.Active? && c.all(c.id)
    ensures Sees(worlds[k].sys, me, c.id)
  {
    var ts := worlds[k].sys.workers[me].start;
    assert NowOrLater(worlds[k].sys, ts);
    AllIsCommitted(n, worlds, actions, h, i, k, c.all, c.id, ts);
    VisibilityIsExact(worlds[k], me, c.id.worker, c.id.tx);
  }

  /** A running transaction is a reader as the theorem about garbage collection wants it. */
  lemma IsReader(n: nat, worlds: seq<World>, actions: seq<Action>, h: nat, i: nat, k: nat, me: nat, c: Collection)
    requires n >= 2 && Run(n, worlds, actions) && h <= i <= k <= |actions| && Answers(worlds, h, i, c.all)
    requires TupleOf(worlds[k], c.id, c.ds, c.commits)
    requires me < |worlds[k].sys.workers| && worlds[k].sys.workers[me].phase.Active?
    ensures FatTupleGc.Reader(c.id, c.ds, c.commits, worlds[k].sys.workers[me].start, c.all, Vision(worlds[k].sys, me))
  {
    PrefixReachable(n, worlds, actions, k);
    RunKeeps(n, worlds, actions, k);
    forall d | 0 <= d < |c.ds|
      ensures Sees(worlds[k].sys, me, c.id) ||
              (Sees(worlds[k].sys, me, c.ds[d].id) <==> c.commits[d] < worlds[k].sys.workers[me].start)
      ensures c.all(c.ds[d].id) ==> c.commits[d] < worlds[k].sys.workers[me].start
    {
      ReaderOf(n, worlds, actions, h, i, k, me, c, d);
    }
    if c.all(c.id) {
      HeadForAll(n, worlds, actions, h, i, k, me, c);
    }
  }

  /** A collection with a pair that serves the reader's snapshot. */
  lemma ServedIsUnnoticed(n: nat, worlds: seq<World>, actions: seq<Action>, h: nat, i: nat, j: nat, k: nat, me: nat,
                          c: Collection)
    requires n >= 2 && Run(n, worlds, actions) && k <= |actions| && Collects(worlds, h, i, j, k, c)
    requires !Cuts(c) && !Clashes(c)
    requires me < |worlds[k].sys.workers| && worlds[k].sys.workers[me].phase.Active?
    requires var (olap, oltp) := (worlds[j].sys.newestOlap, Loaded(worlds[i].sys.oldestOltp));
             FatTupleGc.Served(worlds[k].sys.workers[me].start, olap, oltp)
    ensures ReadsSame(worlds[k].sys, me, c)
  {
    IsReader(n, worlds, actions, h, i, k, me, c);
    FatTupleGc.CollectionIsUnnoticed(c.id, c.value, c.ds, c.ds', c.commits, worlds[k].sys.workers[me].start, c.all,
                                     worlds[j].sys.newestOlap, Loaded(worlds[i].sys.oldestOltp), c.zone,
                                     Vision(worlds[k].sys, me));
  }

  /**
    When all refreshes are by OLTP transactions: a collection that cuts no transaction apart, whose slots agree, and
    whose two loads are not both between the two stores of one refresh leaves what every running transaction reads
    from the tuple as it was.
   */
  lemma CollectionInRuns(n: nat, kinds: set<Class>, worlds: seq<World>, actions: seq<Action>,
                         h: nat, i: nat, j: nat, k: nat, me: nat, c: Collection)
    requires n >= 2 && RunOf(n, kinds, worlds, actions) && Olap !in kinds && k <= |actions|
    requires Collects(worlds, h, i, j, k, c) && !Torn(worlds, i, j) && !Cuts(c) && !Clashes(c)
    requires me < |worlds[k].sys.workers| && worlds[k].sys.workers[me].phase.Active?
    ensures ReadsSame(worlds[k].sys, me, c)
  {
    var ts := worlds[k].sys.workers[me].start;
    assert NowOrLater(worlds[k].sys, ts);
    EverySnapshotIsServed(n, kinds, worlds, actions, i, j, k, ts);
    ServedIsUnnoticed(n, worlds, actions, h, i, j, k, me, c);
  }

  // ----- torn loads with two workers

  /** On the way from the second store of a refresh to the next transaction. */
  predicate Ending(p: Phase) {
    p.StoredOltp? || p.Delivering? || p.Idle? || p.Latched?
  }

  lemma StaysEnding(v: World, w: nat, e: Event, v': World, f: nat)
    requires StepTo(v, w, e, v') && f < |v.sys.workers| && Ending(v.sys.workers[f].phase)
    ensures f < |v'.sys.workers| && (Ending(v'.sys.workers[f].phase) || v.sys.clock <= v'.sys.workers[f].start)
  {
  }

  /** Its next transaction starts at the clock or later. */
  lemma {:induction false} Restarts(n: nat, kinds: set<Class>, worlds: seq<World>, actions: seq<Action>, j: nat, k: nat,
                                    f: nat)
    requires n >= 2 && RunOf(n, kinds, worlds, actions) && Olap !in kinds && j <= k <= |actions|
    requires f < |worlds[j].sys.workers| && worlds[j].sys.workers[f].phase.StoredOltp?
    ensures f < |worlds[k].sys.workers| && worlds[j].sys.clock <= worlds[k].sys.clock
    ensures Ending(worlds[k].sys.workers[f].phase) || worlds[j].sys.clock <= worlds[k].sys.workers[f].start
    decreases k
  {
    if j < k {
      Restarts(n, kinds, worlds, actions, j, k - 1, f);
      RunSides(n, kinds, worlds, actions, k);
      RestartsStep(worlds[k - 1], actions[k - 1].worker, actions[k - 1].event, worlds[k], f, worlds[j].sys.clock);
    }
  }

  lemma RestartsStep(v: World, w: nat, e: Event, v': World, f: nat, clock: nat)
    requires Stepped(v, w, e, v') && f < |v.sys.workers| && clock <= v.sys.clock
    requires Ending(v.sys.workers[f].phase) || clock <= v.sys.workers[f].start
    ensures f < |v'.sys.workers| && clock <= v'.sys.clock
    ensures Ending(v'.sys.workers[f].phase) || clock <= v'.sys.workers[f].start
  {
    if Ending(v.sys.workers[f].phase) {
      StaysEnding(v, w, e, v', f);
    } else if !v'.sys.workers[f].phase.Latched? {
      assert DriftsAt(v.sys, v'.sys, f);
    }
  }

  /** With two workers, one in the gap and one collecting, nobody is left who could notice. */
  lemma TornOfTwo(kinds: set<Class>, worlds: seq<World>, actions: seq<Action>, h: nat, i: nat, j: nat, k: nat, me: nat,
                  c: Collection)
    requires RunOf(2, kinds, worlds, actions) && Olap !in kinds && k <= |actions|
    requires Collects(worlds, h, i, j, k, c) && Torn(worlds, i, j) && !Cuts(c) && !Clashes(c)
    requires me < |worlds[k].sys.workers| && worlds[k].sys.workers[me].phase.Active?
    ensures ReadsSame(worlds[k].sys, me, c)
  {
    var f := TornAt(worlds, i, j);
    RunWorkers(2, worlds, actions, k);
    RunWorkers(2, worlds, actions, j);
    if me == c.collector {
      OwnRead(worlds, h, i, j, k, c);
    } else {
      assert worlds[j].sys.workers[c.collector].phase.Active?;
      TornRestarts(kinds, worlds, actions, i, j, k, me);
      ServedIsUnnoticed(2, worlds, actions, h, i, j, k, me, c);
    }
  }

  lemma RunWorkers(n: nat, worlds: seq<World>, actions: seq<Action>, k: nat)
    requires n >= 2 && Run(n, worlds, actions) && k <= |actions|
    ensures |worlds[k].sys.workers| == n
  {
    RunSize(n, worlds, actions, k);
    RunKeeps(n, worlds, actions, k);
  }

  /** The refresher's own next transaction is on the OLTP side of what it has stored. */
  lemma TornRestarts(kinds: set<Class>, worlds: seq<World>, actions: seq<Action>, i: nat, j: nat, k: nat, f: nat)
    requires RunOf(2, kinds, worlds, actions) && Olap !in kinds && i <= j <= k <= |actions|
    requires f < |worlds[j].sys.workers| && worlds[j].sys.workers[f].phase.StoredOltp?
    requires f < |worlds[k].sys.workers| && worlds[k].sys.workers[f].phase.Active?
    ensures Loaded(worlds[i].sys.oldestOltp) <= worlds[k].sys.workers[f].start
  {
    Restarts(2, kinds, worlds, actions, j, k, f);
    LoadedPair(2, kinds, worlds, actions, i, j);
  }

  /** The collector sees the newest version. */
  lemma OwnRead(worlds: seq<World>, h: nat, i: nat, j: nat, k: nat, c: Collection)
    requires Collects(worlds, h, i, j, k, c)
    ensures ReadsSame(worlds[k].sys, c.collector, c)
  {
    FatTupleGc.CollectedOk(c.id, |c.value|, c.ds, c.all, worlds[j].sys.newestOlap, Loaded(worlds[i].sys.oldestOltp),
                           c.zone, c.ds');
    ReadsHead(c.id, c.value, c.ds, Vision(worlds[k].sys, c.collector));
    ReadsHead(c.id, c.value, c.ds', Vision(worlds[k].sys, c.collector));
  }

  // ----- runs without refreshes

  /** Nothing is torn. */
  lemma NothingTorn(n: nat, worlds: seq<World>, actions: seq<Action>, kinds: set<Class>, i: nat, j: nat)
    requires RunOf(n, kinds, worlds, actions) && Olap !in kinds && Oltp !in kinds && i <= j <= |actions|
    ensures !Torn(worlds, i, j)
  {
    if Torn(worlds, i, j) {
      var w := TornAt(worlds, i, j);
      NobodyRefreshes(n, worlds, actions, kinds, j);
    }
  }

  /** Nobody is refreshing, and the oldest OLTP timestamp is as it was. */
  ghost predicate Untouched(s: Sys) {
    s.oldestOltp == Some(0) && forall w | 0 <= w < |s.workers| :: !Refreshing(s.workers[w].phase)
  }

  lemma {:induction false} NobodyRefreshes(n: nat, worlds: seq<World>, actions: seq<Action>, kinds: set<Class>, k: nat)
    requires RunOf(n, kinds, worlds, actions) && Olap !in kinds && Oltp !in kinds && k <= |actions|
    ensures Untouched(worlds[k].sys)
    decreases k
  {
    if k > 0 {
      NobodyRefreshes(n, worlds, actions, kinds, k - 1);
      assert StepAt(worlds, actions, k - 1) && RefresherAt(worlds, actions, kinds, k - 1);
      StepUntouched(worlds[k - 1], actions[k - 1].worker, actions[k - 1].event, worlds[k]);
    }
  }

  lemma StepUntouched(v: World, w: nat, e: Event, v': World)
    requires StepTo(v, w, e, v') && Untouched(v.sys) && !e.BeginRefresh?
    ensures Untouched(v'.sys)
  {
    if TouchesScan(e) {
      TurnShape(v, w, e, v');
    } else {
      StepAside(v, w, e, v');
    }
  }

  /** No delta is as old as the timestamp 0, so nothing is merged. */
  lemma NothingMerged(n: nat, worlds: seq<World>, actions: seq<Action>, kinds: set<Class>,
                      h: nat, i: nat, j: nat, k: nat, c: Collection)
    requires n >= 2 && RunOf(n, kinds, worlds, actions) && Olap !in kinds && Oltp !in kinds && k <= |actions|
    requires Collects(worlds, h, i, j, k, c)
    ensures c.zone == None
  {
    NobodyRefreshes(n, worlds, actions, kinds, i);
    RunKeeps(n, worlds, actions, k);
    if c.zone.Some? {
      var d := c.ds[c.zone.value.1 + 1].id;
      StartIsPositive(worlds[k], c.id, d, c.commits[c.zone.value.1 + 1]);
    }
  }

  lemma StartIsPositive(v: World, head: Id, id: Id, commit: nat)
    requires Inv(v.sys, v.hist) && (WrittenBy(v.hist, id, commit) || Pending(v.sys, head, id, commit))
    ensures 0 < id.tx
  {
    InvMine(v.sys, v.hist, id.worker);
    if WrittenBy(v.hist, id, commit) {
      var h := v.hist[id.worker];
      var x :| 0 <= x < |h| && h[x] == CommitTree.Entry(commit, id.tx);
    }
  }
}
