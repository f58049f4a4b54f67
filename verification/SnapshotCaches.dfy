/** What isVisibleForMe remembers: an answer once given, and everything below the watermark, need no commit tree. */
module SnapshotCaches {
  import opened Wrappers
  import opened CommitTree
  import opened Snapshot
  import opened SnapshotProof
  import opened SnapshotTheorems

  /** The same state, but worker o has another commit tree. */
  function WithTree(s: Sys, o: nat, tree: seq<Entry>): (r: Sys)
    requires o < |s.workers|
  {
    Put(s, o, s.workers[o].(tree := tree))
  }

  /** Worker me answers every question about o alike, whatever o's tree holds. */
  ghost predicate NeedsNoTree(s: Sys, h: History, me: nat, o: nat, t: nat)
    requires Shape(s, h) && me < |h| && o < |h|
  {
    me != o ==>
      forall tree: seq<Entry> :: IsVisibleForMe(WithTree(s, o, tree), me, o, t) == IsVisibleForMe(s, me, o, t)
  }

  ghost predicate HasCommit(h: seq<Entry>, ts: nat) {
    exists e :: e in h && e.commit < ts
  }

  lemma NewestCommit(clock: nat, my: Worker, h: seq<Entry>, ts: nat)
    requires HistoryOk(clock, my, h) && HasCommit(h, ts)
    ensures StartLCB(h, ts) > 0
  {
    var e :| e in h && e.commit < ts;
    var k :| 0 <= k < |h| && h[k] == e;
    NotAfterLCB(clock, my, h, e, ts);
  }

  lemma AskFacts(s: Sys, h: History, me: nat, o: nat)
    requires Inv(s, h) && me < |h| && o < |h| && me != o && s.workers[me].phase.Active?
    ensures CacheOk(s, h, me, o) && HistoryOk(s.clock, s.workers[o], h[o])
    ensures StartLCB(s.workers[o].tree, s.workers[me].start) == StartLCB(h[o], s.workers[me].start)
  {
    InvMine(s, h, o);
    assert Exact(s.workers[o], h[o], s.workers[me].start);
  }

  lemma CanAsk(v: World, me: nat, o: nat, t: nat) returns (v': World)
    requires Shape(v.sys, v.hist) && me < |v.hist| && o < |v.hist| && v.sys.workers[me].phase.Active?
    ensures StepTo(v, me, Ask(o, t), v')
  {
    v' := World(Step(v.sys, me, Ask(o, t)).sys, v.hist);
  }

  lemma AskStep(v: World, me: nat, o: nat, t: nat, v': World)
    requires StepTo(v, me, Ask(o, t), v')
    ensures v.sys.workers[me].phase.Active? && o < |v.hist| && v'.hist == v.hist && Shape(v'.sys, v'.hist)
    ensures v'.sys.workers[me] == IsVisibleForMe(v.sys, me, o, t).1
    ensures v'.sys.workers[me].start == v.sys.workers[me].start
  {
  }

  /** A worker that had to look a transaction up has the newest commit of o below its start in its cache. */
  lemma AskFindsNewest(s: Sys, h: History, me: nat, o: nat, t: nat)
    requires Inv(s, h) && me < |h| && o < |h| && me != o && s.workers[me].phase.Active?
    requires s.workers[me].lwmCache <= t && s.workers[me].cache[o] < t && HasCommit(h[o], s.workers[me].start)
    ensures var my' := IsVisibleForMe(s, me, o, t).1;
            && |my'.cache| == |my'.cacheTs| == |h| && my'.cacheTs[o] == s.workers[me].start
            && my'.cache[o] == StartLCB(h[o], s.workers[me].start)
  {
    AskFacts(s, h, me, o);
    NewestCommit(s.clock, s.workers[o], h[o], s.workers[me].start);
    LooksUp(s, h, me, o, t, StartLCB(h[o], s.workers[me].start));
  }

  lemma LooksUp(s: Sys, h: History, me: nat, o: nat, t: nat, newest: nat)
    requires Shape(s, h) && me < |h| && o < |h| && me != o && newest > 0
    requires s.workers[me].lwmCache <= t && s.workers[me].cache[o] < t
    requires s.workers[me].cacheTs[o] == s.workers[me].start ==> s.workers[me].cache[o] == newest
    requires StartLCB(s.workers[o].tree, s.workers[me].start) == newest
    ensures var my' := IsVisibleForMe(s, me, o, t).1;
            |my'.cache| == |my'.cacheTs| == |h| && my'.cacheTs[o] == s.workers[me].start && my'.cache[o] == newest
  {
  }

  lemma CachedNeedsNoTree(s: Sys, h: History, me: nat, o: nat, t: nat)
    requires Shape(s, h) && me < |h| && o < |h| && s.workers[me].cacheTs[o] == s.workers[me].start
    ensures NeedsNoTree(s, h, me, o, t)
  {
  }

  /**
    A question that neither the watermark nor an older answer settles is answered from the other worker's tree at
    most once: afterwards the newest transaction that committed before the start is cached, and no question about that
    worker reads its tree again.
   */
  lemma AnswerIsRemembered(v: World, me: nat, o: nat, t: nat) returns (v': World)
    requires Reachable(v) && me < |v.hist| == |v.sys.workers| && o < |v.hist| && me != o
    requires v.sys.workers[me].phase.Active? && Shape(v.sys, v.hist)
    requires v.sys.workers[me].lwmCache <= t && v.sys.workers[me].cache[o] < t
    requires HasCommit(v.hist[o], v.sys.workers[me].start)
    ensures StepTo(v, me, Ask(o, t), v') && Shape(v'.sys, v'.hist) && v'.hist == v.hist
    ensures v'.sys.workers[me].start == v.sys.workers[me].start
    ensures v'.sys.workers[me].cache[o] == StartLCB(v.hist[o], v.sys.workers[me].start)
    ensures forall u :: NeedsNoTree(v'.sys, v'.hist, me, o, u)
  {
    ReachableInv(v);
    v' := CanAsk(v, me, o, t);
    AskStep(v, me, o, t, v');
    AskFindsNewest(v.sys, v.hist, me, o, t);
    forall u
      ensures NeedsNoTree(v'.sys, v'.hist, me, o, u)
    {
      CachedNeedsNoTree(v'.sys, v'.hist, me, o, u);
    }
  }

  // ----- answers of earlier transactions

  /** A look at a tree never replaces an answer by an older one. */
  lemma AskGrows(s: Sys, h: History, me: nat, a: nat, t: nat, o: nat)
    requires Inv(s, h) && me < |h| && a < |h| && o < |h| && s.workers[me].phase.Active?
    ensures var my' := IsVisibleForMe(s, me, a, t).1;
            |my'.cache| == |h| && s.workers[me].cache[o] <= my'.cache[o]
  {
    if me != a {
      AskFacts(s, h, me, a);
      CachedIsOlder(s, h, me, a);
    }
    LookGrows(s, h, me, a, t, o);
  }

  lemma LookGrows(s: Sys, h: History, me: nat, a: nat, t: nat, o: nat)
    requires Shape(s, h) && me < |h| && a < |h| && o < |h|
    requires me != a ==> s.workers[me].cache[a] <= StartLCB(s.workers[a].tree, s.workers[me].start)
    ensures var my' := IsVisibleForMe(s, me, a, t).1;
            |my'.cache| == |h| && s.workers[me].cache[o] <= my'.cache[o]
  {
  }

  lemma CachedIsOlder(s: Sys, h: History, me: nat, o: nat)
    requires Shape(s, h) && me < |h| && o < |h| && CacheOk(s, h, me, o) && HistoryOk(s.clock, s.workers[o], h[o])
    ensures s.workers[me].cache[o] <= StartLCB(h[o], s.workers[me].start)
  {
    if s.workers[me].cache[o] != 0 {
      var e :| e in h[o] && e.start == s.workers[me].cache[o] && e.commit < s.workers[me].cacheTs[o];
      NotAfterLCB(s.clock, s.workers[o], h[o], e, s.workers[me].start);
    }
  }

  lemma CacheStays(v: World, a: nat, e: Event, v': World, w: nat)
    requires StepTo(v, a, e, v') && w < |v.hist| && !(a == w && e.Ask?)
    ensures |v'.sys.workers| == |v.sys.workers| && v'.sys.workers[w].cache == v.sys.workers[w].cache
  {
  }

  lemma {:induction false} CacheGrows(n: nat, worlds: seq<World>, actions: seq<Action>, w: nat, o: nat, i: nat, k: nat)
    requires n >= 2 && Run(n, worlds, actions) && i <= k <= |actions| && w < |worlds[i].hist| && o < |worlds[i].hist|
    ensures Shape(worlds[i].sys, worlds[i].hist) && Shape(worlds[k].sys, worlds[k].hist)
    ensures |worlds[k].hist| == |worlds[i].hist|
    ensures worlds[i].sys.workers[w].cache[o] <= worlds[k].sys.workers[w].cache[o]
    decreases k
  {
    ShapeAt(n, worlds, actions, k);
    if i < k {
      CacheGrows(n, worlds, actions, w, o, i, k - 1);
      CacheGrowsAt(n, worlds, actions, w, o, k - 1);
    }
  }

  lemma ShapeAt(n: nat, worlds: seq<World>, actions: seq<Action>, k: nat)
    requires n >= 2 && Run(n, worlds, actions) && k <= |actions|
    ensures Shape(worlds[k].sys, worlds[k].hist)
  {
    RunKeeps(n, worlds, actions, k);
  }

  lemma CacheGrowsAt(n: nat, worlds: seq<World>, actions: seq<Action>, w: nat, o: nat, k: nat)
    requires n >= 2 && Run(n, worlds, actions) && k < |actions| && w < |worlds[k].hist| && o < |worlds[k].hist|
    requires Shape(worlds[k].sys, worlds[k].hist) && Shape(worlds[k + 1].sys, worlds[k + 1].hist)
    ensures |worlds[k + 1].hist| == |worlds[k].hist|
    ensures worlds[k].sys.workers[w].cache[o] <= worlds[k + 1].sys.workers[w].cache[o]
  {
    RunKeeps(n, worlds, actions, k);
    assert StepAt(worlds, actions, k);
    CacheGrowsOnce(worlds[k], actions[k].worker, actions[k].event, worlds[k + 1], w, o);
  }

  lemma CacheGrowsOnce(v: World, a: nat, e: Event, v': World, w: nat, o: nat)
    requires Inv(v.sys, v.hist) && StepTo(v, a, e, v') && w < |v.hist| && o < |v.hist|
    ensures |v'.sys.workers| == |v.sys.workers| && |v'.sys.workers[w].cache| == |v.hist| == |v'.hist|
    ensures v.sys.workers[w].cache[o] <= v'.sys.workers[w].cache[o]
  {
    if a == w && e.Ask? {
      AskStep(v, w, e.other, e.ts, v');
      AskGrows(v.sys, v.hist, w, e.other, e.ts, o);
    } else {
      CacheStays(v, a, e, v', w);
    }
  }

  /** What a worker has found committed, all its later transactions find visible without a look at a tree. */
  lemma EarlierAnswerHolds(n: nat, worlds: seq<World>, actions: seq<Action>, w: nat, o: nat, i: nat, k: nat, t: nat)
    requires n >= 2 && Run(n, worlds, actions) && i <= k <= |actions| && w < |worlds[i].hist| && o < |worlds[i].hist|
    requires Shape(worlds[i].sys, worlds[i].hist) && t <= worlds[i].sys.workers[w].cache[o]
    requires w < |worlds[k].sys.workers| && worlds[k].sys.workers[w].phase.Active?
    ensures Shape(worlds[k].sys, worlds[k].hist) && |worlds[k].hist| == |worlds[i].hist|
    ensures IsVisibleForMe(worlds[k].sys, w, o, t).0 && NeedsNoTree(worlds[k].sys, worlds[k].hist, w, o, t)
  {
    CacheGrows(n, worlds, actions, w, o, i, k);
    OldAnswer(worlds[k].sys, worlds[k].hist, w, o, t);
  }

  lemma OldAnswer(s: Sys, h: History, me: nat, o: nat, t: nat)
    requires Shape(s, h) && me < |h| && o < |h| && t <= s.workers[me].cache[o]
    ensures IsVisibleForMe(s, me, o, t).0 && NeedsNoTree(s, h, me, o, t)
  {
  }

  // ----- the watermark that a transaction works with

  /** The watermark of a running transaction is the global one as it was at its own load. */
  lemma {:induction false} LoadedAt(n: nat, worlds: seq<World>, actions: seq<Action>, w: nat, k: nat) returns (j: nat)
    requires Run(n, worlds, actions) && k <= |actions| && w < |worlds[k].sys.workers|
    requires worlds[k].sys.workers[w].phase.Active?
    ensures j < k && actions[j] == Action(w, LoadLwm) && worlds[k].sys.workers[w].lwmCache == worlds[j].sys.allLwm
    ensures forall i | j < i < k && actions[i].worker == w :: actions[i].event.Ask?
    decreases k
  {
    if k == 0 {
      assert false;
    } else {
      assert StepAt(worlds, actions, k - 1);
      var a := actions[k - 1];
      StaysActive(worlds[k - 1], a.worker, a.event, worlds[k], w);
      if a == Action(w, LoadLwm) {
        j := k - 1;
      } else {
        j := LoadedAt(n, worlds, actions, w, k - 1);
      }
    }
  }

  lemma StaysActive(v: World, a: nat, e: Event, v': World, w: nat)
    requires StepTo(v, a, e, v') && w < |v'.sys.workers| && v'.sys.workers[w].phase.Active?
    ensures |v.sys.workers| == |v'.sys.workers|
    ensures if a == w && e.LoadLwm? then v'.sys.workers[w].lwmCache == v.sys.allLwm
            else v.sys.workers[w].phase.Active? && v.sys.workers[w].lwmCache == v'.sys.workers[w].lwmCache
                 && (a == w ==> e.Ask?)
  {
  }

  /** Whatever was below the global watermark when a transaction loaded it is visible to it without a look at a tree. */
  lemma SettledNeedsNoTree(n: nat, worlds: seq<World>, actions: seq<Action>, w: nat, k: nat, o: nat, t: nat)
    returns (j: nat)
    requires Run(n, worlds, actions) && k <= |actions| && w < |worlds[k].sys.workers| && o < |worlds[k].sys.workers|
    requires worlds[k].sys.workers[w].phase.Active? && Shape(worlds[k].sys, worlds[k].hist)
    ensures j < k && actions[j] == Action(w, LoadLwm)
    ensures forall i | j < i < k && actions[i].worker == w :: actions[i].event.Ask?
    ensures t < worlds[j].sys.allLwm ==>
              IsVisibleForMe(worlds[k].sys, w, o, t).0 && NeedsNoTree(worlds[k].sys, worlds[k].hist, w, o, t)
  {
    j := LoadedAt(n, worlds, actions, w, k);
  }

  /** commit's assertion is made: it fails exactly where a writer commits into a full tree. */
  lemma CommitCrashesIff(v: World, w: nat, e: Event)
    requires Shape(v.sys, v.hist) && w < |v.hist|
    ensures Step(v.sys, w, e).Crash? <==>
              e == Commit(true) && v.sys.workers[w].phase.Active? && |v.hist| + 1 <= |v.sys.workers[w].tree|
  {
  }
}
