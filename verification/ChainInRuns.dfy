/**
  Chained tuples inside a run: while other workers purge their versions, a walk returns the value committed last before
  the reader's start.
 */
module ChainInRuns {
  import opened Wrappers
  import CommitTree
  import opened Snapshot
  import opened SnapshotProof
  import opened SnapshotTheorems
  import opened Versions
  import opened GcInRuns
  import Chain
  import RemovedTuples

  // ----- writers and their commits

  /** The writer has committed then, or it is running and can commit then. */
  ghost predicate CommitsAt(v: World, id: Id, commit: nat) {
    || WrittenBy(v.hist, id, commit)
    || (&& id.worker < |v.sys.workers| && Live(v.sys.workers[id.worker]) && id.tx == v.sys.workers[id.worker].start
        && v.sys.clock <= commit)
  }

  /**
    The snapshot of the transaction of `me` that started at `start`: its own versions and what was committed before.
   */
  ghost function SnapshotOf(me: nat, start: nat, commit: Id -> nat): (vis: Id -> bool) {
    (id: Id) => (id.worker == me && id.tx == start) || commit(id) < start
  }

  lemma IsWriter(v: World, id: Id, commit: nat)
    requires Shape(v.sys, v.hist) && CommitsAt(v, id, commit)
    ensures id.worker < |v.hist| && IsTransaction(v.sys, v.hist, id.worker, id.tx)
  {
  }

  /** The answers of isVisibleForMe do not depend on the state in which they are given. */
  lemma SeesSnapshot(v: World, me: nat, id: Id, commit: Id -> nat)
    requires Reachable(v) && Inv(v.sys, v.hist) && me < |v.hist| && v.sys.workers[me].phase.Active?
    requires CommitsAt(v, id, commit(id))
    ensures Sees(v.sys, me, id) <==> SnapshotOf(me, v.sys.workers[me].start, commit)(id)
  {
    InvMine(v.sys, v.hist, me);
    if WrittenBy(v.hist, id, commit(id)) {
      SeenIffCommitted(v, me, id, commit(id));
      if id.worker == me {
        OwnCommitted(v.sys.clock, v.sys.workers[me], v.hist[me], CommitTree.Entry(commit(id), id.tx));
      }
    } else {
      RunningIsUnseen(v, me, id);
    }
  }

  // ----- a walk over a tree that is being purged

  /** What is left of the history tree: only versions that their worker has purged are missing. */
  ghost predicate Left(v: World, full: Chain.History, tree: Chain.History) {
    && (forall k | k in tree :: k in full && tree[k] == full[k])
    && (forall k | k in full && k !in tree :: k.worker < |v.sys.workers| && k.tx < v.sys.workers[k.worker].purged)
  }

  /** One access to the history tree, and the state in which the reader then asks isVisibleForMe. */
  datatype Look = Look(state: nat, tree: Chain.History, asked: nat)

  /** The reader runs one transaction from state a to state b. */
  ghost predicate Runs(worlds: seq<World>, a: nat, b: nat, me: nat, start: nat) {
    && a <= b < |worlds|
    && forall l | a <= l <= b ::
         && me < |worlds[l].sys.workers| && worlds[l].sys.workers[me].phase.Active?
         && worlds[l].sys.workers[me].start == start
  }

  /** All versions of the tuple are by transactions of this world. */
  ghost predicate LivesIn(v: World, t: Chain.Tuple, commit: Id -> nat) {
    && CommitsAt(v, t.id, commit(t.id))
    && forall k | k in t.history :: CommitsAt(v, Chain.WriterOf(t.history[k]), commit(Chain.WriterOf(t.history[k])))
  }

  /** The tuple stays as it is from state a to state b, and each access is in one of these states. */
  ghost predicate Looks(worlds: seq<World>, a: nat, b: nat, t: Chain.Tuple, commit: Id -> nat, looks: nat -> Look) {
    && b < |worlds| && (forall l | a <= l <= b :: LivesIn(worlds[l], t, commit))
    && forall k: nat :: LookOk(worlds, a, b, t.history, looks(k))
  }

  ghost predicate LookOk(worlds: seq<World>, a: nat, b: nat, full: Chain.History, x: Look)
    requires b < |worlds|
  {
    a <= x.state <= b && a <= x.asked <= b && Left(worlds[x.state], full, x.tree)
  }

  ghost predicate WalksOk(looks: nat -> Look, id: Id, v: seq<byte>, n: nat, length: nat) {
    (forall k: nat :: Chain.HistoryOk(looks(k).tree, n)) && Chain.WalkOk(looks(length).tree, id, v, n)
  }

  /** The walk of Chain, with another tree and another state at each step. */
  ghost function WalkIn(worlds: seq<World>, me: nat, looks: nat -> Look, id: Id, v: seq<byte>, n: nat, length: nat,
                        limit: nat): (r: Chain.Found)
    requires WalksOk(looks, id, v, n, length) && forall k: nat :: looks(k).asked < |worlds|
    decreases limit - length
  {
    var x := looks(length);
    if id !in x.tree then Chain.NotFound
    else
      var (w, next) := (Chain.Follow(x.tree[id], v), Chain.WriterOf(x.tree[id]));
      if Sees(worlds[x.asked].sys, me, next) then Chain.Ok(w)
      else if length + 1 > limit then Chain.Crash
      else WalkIn(worlds, me, looks, next, w, n, length + 1, limit)
  }

  ghost function ReadIn(worlds: seq<World>, me: nat, looks: nat -> Look, t: Chain.Tuple, n: nat,
                        limit: nat): (r: Chain.Found)
    requires WalksOk(looks, t.id, t.value, n, 1) && forall k: nat :: looks(k).asked < |worlds|
  {
    if !Sees(worlds[looks(0).asked].sys, me, t.id) then WalkIn(worlds, me, looks, t.id, t.value, n, 1, limit)
    else if t.removed then Chain.NotFound
    else Chain.Ok(t.value)
  }

  lemma LeftOk(v: World, full: Chain.History, tree: Chain.History, id: Id, value: seq<byte>, n: nat)
    requires Left(v, full, tree)
    ensures Chain.HistoryOk(full, n) ==> Chain.HistoryOk(tree, n)
    ensures Chain.WalkOk(full, id, value, n) ==> Chain.WalkOk(tree, id, value, n)
  {
  }

  lemma AllLeftOk(worlds: seq<World>, a: nat, b: nat, t: Chain.Tuple, commit: Id -> nat, looks: nat -> Look, id: Id,
                  v: seq<byte>, n: nat, length: nat)
    requires Looks(worlds, a, b, t, commit, looks) && Chain.WalkOk(t.history, id, v, n)
    ensures WalksOk(looks, id, v, n, length) && forall k: nat :: looks(k).asked < |worlds|
  {
    forall k: nat
      ensures Chain.HistoryOk(looks(k).tree, n) && Chain.WalkOk(looks(k).tree, id, v, n) && looks(k).asked < |worlds|
    {
      assert LookOk(worlds, a, b, t.history, looks(k));
      LeftOk(worlds[looks(k).state], t.history, looks(k).tree, id, v, n);
    }
  }

  lemma SeesInRun(n: nat, worlds: seq<World>, actions: seq<Action>, a: nat, b: nat, me: nat, start: nat, l: nat, id: Id,
                  commit: Id -> nat)
    requires n >= 2 && Run(n, worlds, actions) && Runs(worlds, a, b, me, start) && a <= l <= b
    requires CommitsAt(worlds[l], id, commit(id))
    ensures Sees(worlds[l].sys, me, id) <==> SnapshotOf(me, start, commit)(id)
  {
    PrefixReachable(n, worlds, actions, l);
    RunKeeps(n, worlds, actions, l);
    SeesSnapshot(worlds[l], me, id, commit);
  }

  /** The version that an unseen writer has replaced is still there. */
  lemma StillThere(n: nat, worlds: seq<World>, actions: seq<Action>, a: nat, b: nat, me: nat, start: nat, l: nat,
                   id: Id, commit: Id -> nat, full: Chain.History, tree: Chain.History)
    requires n >= 2 && Run(n, worlds, actions) && Runs(worlds, a, b, me, start) && a <= l <= b
    requires CommitsAt(worlds[l], id, commit(id)) && !SnapshotOf(me, start, commit)(id) && Left(worlds[l], full, tree)
    ensures id in full <==> id in tree
  {
    var v := worlds[l];
    PrefixReachable(n, worlds, actions, l);
    RunKeeps(n, worlds, actions, l);
    SeesInRun(n, worlds, actions, a, b, me, start, l, id, commit);
    IsWriter(v, id, commit(id));
    PurgedIsNeverRequested(v, me, id.worker, id.tx);
  }

  lemma {:induction false} WalkInSame(n: nat, worlds: seq<World>, actions: seq<Action>, a: nat, b: nat, me: nat,
                                      start: nat, t: Chain.Tuple, commit: Id -> nat, looks: nat -> Look, id: Id,
                                      v: seq<byte>, size: nat, length: nat, limit: nat)
    requires n >= 2 && Run(n, worlds, actions) && Runs(worlds, a, b, me, start)
    requires Looks(worlds, a, b, t, commit, looks) && Chain.WalkOk(t.history, id, v, size)
    requires (forall l | a <= l <= b :: CommitsAt(worlds[l], id, commit(id))) && !SnapshotOf(me, start, commit)(id)
    ensures WalksOk(looks, id, v, size, length) && forall k: nat :: looks(k).asked < |worlds|
    ensures WalkIn(worlds, me, looks, id, v, size, length, limit)
         == Chain.Walk(t.history, id, v, size, SnapshotOf(me, start, commit), length, limit)
    decreases limit - length
  {
    AllLeftOk(worlds, a, b, t, commit, looks, id, v, size, length);
    var x := looks(length);
    assert LookOk(worlds, a, b, t.history, x);
    StillThere(n, worlds, actions, a, b, me, start, x.state, id, commit, t.history, x.tree);
    if id in t.history {
      var (w, next) := (Chain.Follow(t.history[id], v), Chain.WriterOf(t.history[id]));
      SeesInRun(n, worlds, actions, a, b, me, start, x.asked, next, commit);
      if !SnapshotOf(me, start, commit)(next) && length + 1 <= limit {
        WalkInSame(n, worlds, actions, a, b, me, start, t, commit, looks, next, w, size, length + 1, limit);
      }
    }
  }

  /** No reader notices the purging, whatever the tuple and whenever it looks. */
  lemma PurgeIsUnnoticed(n: nat, worlds: seq<World>, actions: seq<Action>, a: nat, b: nat, me: nat, start: nat,
                         t: Chain.Tuple, commit: Id -> nat, looks: nat -> Look, size: nat, limit: nat)
    requires n >= 2 && Run(n, worlds, actions) && Runs(worlds, a, b, me, start)
    requires Looks(worlds, a, b, t, commit, looks) && Chain.WalkOk(t.history, t.id, t.value, size)
    ensures WalksOk(looks, t.id, t.value, size, 1) && forall k: nat :: looks(k).asked < |worlds|
    ensures ReadIn(worlds, me, looks, t, size, limit)
            == Chain.ReadChained(t, size, SnapshotOf(me, start, commit), limit)
  {
    AllLeftOk(worlds, a, b, t, commit, looks, t.id, t.value, size, 1);
    assert LookOk(worlds, a, b, t.history, looks(0));
    SeesInRun(n, worlds, actions, a, b, me, start, looks(0).asked, t.id, commit);
    if !SnapshotOf(me, start, commit)(t.id) {
      WalkInSame(n, worlds, actions, a, b, me, start, t, commit, looks, t.id, t.value, size, 1, limit);
    }
  }

  /** The reader gets version j: it is the reader's own or was committed before its start, and no newer one is. */
  lemma ChainInRuns(n: nat, worlds: seq<World>, actions: seq<Action>, a: nat, b: nat, me: nat, start: nat,
                    t: Chain.Tuple, ds: seq<Delta>, vs: seq<Version>, commit: Id -> nat, looks: nat -> Look, limit: nat,
                    j: nat)
    requires n >= 2 && Run(n, worlds, actions) && Runs(worlds, a, b, me, start)
    requires Looks(worlds, a, b, t, commit, looks) && Chain.Holds(t, ds, vs) && |ds| <= limit
    requires Newest(vs, SnapshotOf(me, start, commit), j)
    ensures WalksOk(looks, t.id, t.value, |t.value|, 1) && forall k: nat :: looks(k).asked < |worlds|
    ensures ReadIn(worlds, me, looks, t, |t.value|, limit) == Chain.Ok(vs[j].value)
  {
    var vis := SnapshotOf(me, start, commit);
    PurgeIsUnnoticed(n, worlds, actions, a, b, me, start, t, commit, looks, |t.value|, limit);
    Chain.ChainReads(t.history, t.id, t.value, ds, vis, limit);
    AsOfNewest(vs, vis, j);
  }
  /**
    A removed tuple: if the removal is in the snapshot there is nothing to find; if not, the reader gets version j
    exactly when the bytes that no newer delta rewrites are those the payload of the removal begins with.
   */
  lemma RemovalInRuns(n: nat, worlds: seq<World>, actions: seq<Action>, a: nat, b: nat, me: nat, start: nat,
                      t: Chain.Tuple, ds: seq<Delta>, vs: seq<Version>, commit: Id -> nat, looks: nat -> Look,
                      limit: nat, j: nat, key: seq<byte>, writer: Id)
    requires n >= 2 && Run(n, worlds, actions) && Runs(worlds, a, b, me, start)
    requires Chain.Holds(t, ds, vs) && |ds| < limit && RemovedTuples.NewWriter(vs, writer)
    requires Looks(worlds, a, b, RemovedTuples.ChainedRemove(t, key, writer), commit, looks)
    requires Newest(vs, SnapshotOf(me, start, commit), j)
    ensures var t' := RemovedTuples.ChainedRemove(t, key, writer);
      && WalksOk(looks, t'.id, t'.value, |t.value|, 1) && (forall k: nat :: looks(k).asked < |worlds|)
      && var r := ReadIn(worlds, me, looks, t', |t.value|, limit);
         if SnapshotOf(me, start, commit)(writer) then r == Chain.NotFound
         else r == Chain.Ok(vs[j].value) <==>
                forall p | 0 <= p < |t.value| && !RemovedTuples.Rewritten(ds[j..], p) ::
                  RemovedTuples.TakenFor(key, t.value)[p] == t.value[p]
  {
    var (vis, t') := (SnapshotOf(me, start, commit), RemovedTuples.ChainedRemove(t, key, writer));
    RemovedTuples.RemovedReads(t, ds, vs, key, writer, vis, limit);
    PurgeIsUnnoticed(n, worlds, actions, a, b, me, start, t', commit, looks, |t.value|, limit);
    if !vis(writer) {
      RemovedTuples.RemovedReadsIff(t, ds, vs, key, writer, vis, limit, j);
    }
  }
}
