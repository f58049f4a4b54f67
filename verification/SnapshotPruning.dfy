/** What one cleaning of a commit tree leaves, from the snapshots that it has read, over every run. */
module SnapshotPruning {
  import opened Wrappers
  import opened CommitTree
  import opened Snapshot
  import opened SnapshotProof
  import opened SnapshotTheorems

  /** Worker w publishes its snapshot with action b and has done nothing but read other snapshots before action k. */
  ghost predicate InCleaning(worlds: seq<World>, actions: seq<Action>, w: nat, b: nat, k: nat) {
    && |worlds| == |actions| + 1 && b < k <= |actions| && actions[b] == Action(w, Publish)
    && forall i | b < i < k && actions[i].worker == w :: actions[i].event.CleanRead?
  }

  /** The snapshots it has read: the first of worker 0, the next of worker 1, and so on; its own is of no account. */
  ghost function Snapshots(worlds: seq<World>, actions: seq<Action>, w: nat, b: nat, k: nat): (r: seq<nat>)
    requires |worlds| == |actions| + 1 && b < k <= |actions|
  {
    if k == b + 1 then []
    else
      var (r, s) := (Snapshots(worlds, actions, w, b, k - 1), worlds[k - 1].sys);
      if actions[k - 1] == Action(w, CleanRead) && |r| < |s.workers| then r + [s.workers[|r|].word.ts] else r
  }

  /** A worker that has never started needs the oldest commit, any other one the newest below its start. */
  ghost predicate NeededBy(tree: seq<Entry>, ts: nat, e: Entry) {
    if ts == 0 then tree != [] && e == tree[0] else IsNewestBelow(tree, ts, e)
  }

  /** Whatever the snapshot, the newest entry is kept with it. */
  ghost predicate KeptWith(tree: seq<Entry>, ts: nat, e: Entry) {
    (tree != [] && e == tree[|tree| - 1]) || NeededBy(tree, ts, e)
  }

  ghost predicate IsNewestBelow(tree: seq<Entry>, ts: nat, e: Entry) {
    e in tree && e.commit < ts && forall x | x in tree && x.commit < ts :: x.commit <= e.commit
  }

  /** e is kept with one of these snapshots, of a worker other than w. */
  ghost predicate Kept(tree: seq<Entry>, snapshots: seq<nat>, w: nat, e: Entry) {
    exists i :: 0 <= i < |snapshots| && i != w && KeptWith(tree, snapshots[i], e)
  }

  ghost predicate Stage(my: Worker, w: nat, tree: seq<Entry>, snapshots: seq<nat>) {
    && my.tree == tree && my.phase.Cleaning? && my.phase.next == |snapshots| && Sorted(tree)
    && forall e :: e in my.phase.keep <==> Kept(tree, snapshots, w, e)
  }

  lemma NewestIsLCB(tree: seq<Entry>, ts: nat, e: Entry)
    requires Sorted(tree)
    ensures IsNewestBelow(tree, ts, e) <==> LCB(tree, ts) == Some(e)
  {
    if e in tree && e.commit < ts {
      LCBIsGreatest(tree, ts, e);
    }
  }

  lemma KeepForMeans(tree: seq<Entry>, ts: nat, e: Entry)
    requires Sorted(tree) && tree != []
    ensures e in KeepFor(tree, ts) <==> KeptWith(tree, ts, e)
  {
    NewestIsLCB(tree, ts, e);
  }

  lemma OneMore(tree: seq<Entry>, snapshots: seq<nat>, w: nat, ts: nat, e: Entry)
    requires Sorted(tree) && tree != []
    ensures Kept(tree, snapshots + [ts], w, e) <==>
              Kept(tree, snapshots, w, e) || (|snapshots| != w && e in KeepFor(tree, ts))
  {
    var more := snapshots + [ts];
    KeepForMeans(tree, ts, e);
    assert more[|snapshots|] == ts;
    if Kept(tree, snapshots, w, e) {
      var i :| 0 <= i < |snapshots| && i != w && KeptWith(tree, snapshots[i], e);
      assert more[i] == snapshots[i];
    }
    if Kept(tree, more, w, e) {
      var i :| 0 <= i < |more| && i != w && KeptWith(tree, more[i], e);
      assert i < |snapshots| ==> more[i] == snapshots[i];
    }
  }

  lemma ReadShape(v: World, w: nat, v': World)
    requires StepTo(v, w, CleanRead, v')
    ensures var (my, my') := (v.sys.workers[w], v'.sys.workers[w]);
            && |v'.sys.workers| == |v.sys.workers| && my.phase.Cleaning? && my.phase.next < |v.sys.workers|
            && my.tree != [] && my'.tree == my.tree && my'.phase.Cleaning? && my'.phase.next == my.phase.next + 1
            && my'.phase.keep == if my.phase.next == w then my.phase.keep
                                 else my.phase.keep + KeepFor(my.tree, v.sys.workers[my.phase.next].word.ts)
  {
  }

  lemma ReadStage(v: World, w: nat, v': World, tree: seq<Entry>, snapshots: seq<nat>)
    requires StepTo(v, w, CleanRead, v') && Stage(v.sys.workers[w], w, tree, snapshots)
    ensures |snapshots| < |v.sys.workers| == |v'.sys.workers|
    ensures Stage(v'.sys.workers[w], w, tree, snapshots + [v.sys.workers[|snapshots|].word.ts])
  {
    ReadShape(v, w, v');
    var ts := v.sys.workers[|snapshots|].word.ts;
    forall e
      ensures e in v'.sys.workers[w].phase.keep <==> Kept(tree, snapshots + [ts], w, e)
    {
      OneMore(tree, snapshots, w, ts, e);
    }
  }

  lemma OthersLeave(v: World, o: nat, e: Event, v': World, w: nat)
    requires StepTo(v, o, e, v') && w < |v.hist| && o != w
    ensures |v'.sys.workers| == |v.sys.workers|
    ensures v'.sys.workers[w].tree == v.sys.workers[w].tree && v'.sys.workers[w].phase == v.sys.workers[w].phase
  {
  }

  lemma FirstStage(v: World, w: nat, v': World)
    requires StepTo(v, w, Publish, v') && Sorted(v.sys.workers[w].tree)
    ensures v'.sys.workers[w].tree == v.sys.workers[w].tree && |v'.sys.workers| == |v.sys.workers|
    ensures |v.sys.workers[w].tree| <= |v.sys.workers| ==> v'.sys.workers[w].phase.Loading?
    ensures |v.sys.workers[w].tree| > |v.sys.workers| ==> Stage(v'.sys.workers[w], w, v.sys.workers[w].tree, [])
  {
  }

  lemma {:induction false} CleaningStage(n: nat, worlds: seq<World>, actions: seq<Action>, w: nat, b: nat, k: nat)
    requires Run(n, worlds, actions) && n >= 2 && InCleaning(worlds, actions, w, b, k)
    ensures w < |worlds[b].sys.workers| == |worlds[k].sys.workers|
    ensures var (my, tree) := (worlds[k].sys.workers[w], worlds[b].sys.workers[w].tree);
            if |tree| <= |worlds[b].sys.workers| then my.phase.Loading? && my.tree == tree
            else Stage(my, w, tree, Snapshots(worlds, actions, w, b, k))
    decreases k
  {
    if k == b + 1 {
      assert StepAt(worlds, actions, b);
      RunKeeps(n, worlds, actions, b);
      InvMine(worlds[b].sys, worlds[b].hist, w);
      FirstStage(worlds[b], w, worlds[k]);
    } else {
      CleaningStage(n, worlds, actions, w, b, k - 1);
      assert StepAt(worlds, actions, k - 1);
      if actions[k - 1].worker == w {
        ReadShape(worlds[k - 1], w, worlds[k]);
        ReadStage(worlds[k - 1], w, worlds[k], worlds[b].sys.workers[w].tree, Snapshots(worlds, actions, w, b, k - 1));
      } else {
        OthersLeave(worlds[k - 1], actions[k - 1].worker, actions[k - 1].event, worlds[k], w);
      }
    }
  }

  lemma FinishShape(v: World, w: nat, v': World)
    requires StepTo(v, w, CleanFinish, v')
    ensures var (my, my') := (v.sys.workers[w], v'.sys.workers[w]);
            && my.phase.Cleaning? && my.phase.next >= |v.sys.workers| == |v'.sys.workers|
            && my'.tree == Filter(my.tree, my.phase.keep)
  {
  }

  /**
    A cleaning reads every worker once and leaves exactly the entries kept with a snapshot it has read.
    The tree is cleaned exactly when it is full.
   */
  lemma CleaningLeaves(n: nat, worlds: seq<World>, actions: seq<Action>, w: nat, b: nat, k: nat)
    requires Run(n, worlds, actions) && n >= 2 && InCleaning(worlds, actions, w, b, k)
    requires k < |actions| && actions[k] == Action(w, CleanFinish)
    ensures w < |worlds[b].sys.workers| == |worlds[k + 1].sys.workers|
    ensures |worlds[b].sys.workers| < |worlds[b].sys.workers[w].tree|
    ensures |Snapshots(worlds, actions, w, b, k)| == |worlds[b].sys.workers|
    ensures var (tree, tree') := (worlds[b].sys.workers[w].tree, worlds[k + 1].sys.workers[w].tree);
            && Sorted(tree')
            && forall e :: e in tree' <==> e in tree && Kept(tree, Snapshots(worlds, actions, w, b, k), w, e)
  {
    CleaningStage(n, worlds, actions, w, b, k);
    assert StepAt(worlds, actions, k);
    FinishShape(worlds[k], w, worlds[k + 1]);
    RunKeeps(n, worlds, actions, k);
    assert CleaningOk(worlds[k].sys, w);
    FilterMembers(worlds[k].sys.workers[w].tree, worlds[k].sys.workers[w].phase.keep);
    FilterSorted(worlds[k].sys.workers[w].tree, worlds[k].sys.workers[w].phase.keep);
  }
}
