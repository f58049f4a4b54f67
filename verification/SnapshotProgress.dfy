/**
  No worker waits for ever: from every state of every run of two workers or more, everything started so far can come
  below the global watermark and be purged.
 */
module SnapshotProgress {
  import opened Wrappers
  import opened CommitTree
  import opened Snapshot
  import opened SnapshotProof
  import opened SnapshotTheorems
  import SnapshotRefresh

  // ----- going on

  ghost predicate Path(worlds: seq<World>, actions: seq<Action>) {
    |worlds| == |actions| + 1 && forall i | 0 <= i < |actions| :: StepAt(worlds, actions, i)
  }

  /** Some continuation leads from v to v'. */
  ghost predicate Leads(v: World, v': World) {
    exists worlds, actions :: Path(worlds, actions) && worlds[0] == v && worlds[|actions|] == v'
  }

  /** Commits are in the past. */
  ghost predicate ClockOk(s: Sys) {
    0 < s.clock && forall w | 0 <= w < |s.workers| ::
      s.workers[w].latestWrite < s.clock && s.workers[w].lwmForTx < s.clock
  }

  lemma ClockKeeps(v: World, w: nat, e: Event, v': World)
    requires ClockOk(v.sys) && StepTo(v, w, e, v')
    ensures ClockOk(v'.sys) && v.sys.clock <= v'.sys.clock
  {
    if e.Deliver? {
      DeliverClock(v, w, v');
    }
  }

  lemma DeliverClock(v: World, w: nat, v': World)
    requires ClockOk(v.sys) && StepTo(v, w, Deliver, v')
    ensures ClockOk(v'.sys) && v.sys.clock == v'.sys.clock
  {
  }

  /** A world on the way from a. */
  ghost predicate On(a: World, v: World) {
    && Leads(a, v) && Inv(v.sys, v.hist) && ClockOk(v.sys) && SnapshotRefresh.MutexOk(v.sys)
    && a.sys.clock <= v.sys.clock
  }

  lemma LeadsFurther(a: World, b: World, w: nat, e: Event, c: World)
    requires Leads(a, b) && StepTo(b, w, e, c)
    ensures Leads(a, c)
  {
    var worlds, actions :| Path(worlds, actions) && worlds[0] == a && worlds[|actions|] == b;
    var (worlds', actions') := (worlds + [c], actions + [Action(w, e)]);
    forall i | 0 <= i < |actions'|
      ensures StepAt(worlds', actions', i)
    {
      assert i < |actions| ==> StepAt(worlds, actions, i);
    }
    assert Path(worlds', actions') && worlds'[0] == a && worlds'[|actions'|] == c;
  }

  lemma OnHere(v: World)
    requires Inv(v.sys, v.hist) && ClockOk(v.sys) && SnapshotRefresh.MutexOk(v.sys)
    ensures On(v, v)
  {
    var none: seq<Action> := [];
    assert Path([v], none) && [v][0] == v && [v][|none|] == v;
  }

  /** Worker w can do this now. */
  ghost predicate Can(v: World, w: nat, e: Event) {
    Shape(v.sys, v.hist) && w < |v.hist| && Step(v.sys, w, e).Next?
  }

  ghost function After(v: World, w: nat, e: Event): (v': World)
    requires Can(v, w, e)
  {
    World(Step(v.sys, w, e).sys, HistoryStep(v.sys, v.hist, w, e))
  }

  lemma Goes(a: World, v: World, w: nat, e: Event) returns (v': World)
    requires On(a, v) && Can(v, w, e)
    ensures On(a, v') && v' == After(v, w, e)
  {
    v' := After(v, w, e);
    LeadsFurther(a, v, w, e, v');
    StepKeeps(v, w, e, v');
    ClockKeeps(v, w, e, v');
    SnapshotRefresh.MutexKeeps(v, w, e, v');
  }

  lemma OnShape(a: World, v: World)
    requires On(a, v)
    ensures Shape(v.sys, v.hist) && 2 <= |v.hist|
  {
  }

  /** Only worker w is different. */
  ghost predicate OnlyOne(v: World, v': World, w: nat) {
    && w < |v.sys.workers| == |v'.sys.workers| && v'.hist == v.hist && v'.sys.mutex == v.sys.mutex
    && v'.sys == v.sys.(workers := v.sys.workers[w := v'.sys.workers[w]], clock := v'.sys.clock)
  }

  lemma OnlyOneTwice(u: World, v: World, v': World, w: nat)
    requires OnlyOne(u, v, w) && OnlyOne(v, v', w)
    ensures OnlyOne(u, v', w)
  {
    assert u.sys.workers[w := v.sys.workers[w]][w := v'.sys.workers[w]] == u.sys.workers[w := v'.sys.workers[w]];
  }

  // ----- words

  predicate Open(p: Phase) {
    p.Latched? || p.Drawn?
  }

  ghost predicate AllPublished(v: World) {
    forall o | 0 <= o < |v.sys.workers| :: !Open(v.sys.workers[o].phase)
  }

  lemma Unlatched(v: World, o: nat)
    requires Inv(v.sys, v.hist) && o < |v.hist| && !Open(v.sys.workers[o].phase)
    ensures !v.sys.workers[o].word.latched && v.sys.workers[o].word.ts == v.sys.workers[o].start
  {
    InvMine(v.sys, v.hist, o);
  }

  lemma DrawShape(v: World, w: nat)
    requires Shape(v.sys, v.hist) && w < |v.hist| && v.sys.workers[w].phase.Latched?
    ensures Can(v, w, Draw) && OnlyOne(v, After(v, w, Draw), w) && After(v, w, Draw).sys.workers[w].phase.Drawn?
  {
  }

  lemma PublishShape(v: World, w: nat)
    requires Shape(v.sys, v.hist) && w < |v.hist| && v.sys.workers[w].phase.Drawn?
    ensures Can(v, w, Publish)
    ensures var v' := After(v, w, Publish);
      && OnlyOne(v, v', w) && (v'.sys.workers[w].phase.Cleaning? || v'.sys.workers[w].phase.Loading?)
      && v'.sys.clock == v.sys.clock
  {
  }

  lemma NoChange(v: World, w: nat)
    requires w < |v.sys.workers|
    ensures OnlyOne(v, v, w)
  {
    assert v.sys.workers[w := v.sys.workers[w]] == v.sys.workers;
  }

  lemma Publishes(a: World, v: World, w: nat) returns (v': World)
    requires On(a, v) && w < |v.hist|
    ensures On(a, v') && OnlyOne(v, v', w) && !Open(v'.sys.workers[w].phase)
  {
    v' := v;
    OnShape(a, v);
    NoChange(v, w);
    if v.sys.workers[w].phase.Latched? {
      DrawShape(v, w);
      v' := Goes(a, v, w, Draw);
    }
    if v'.sys.workers[w].phase.Drawn? {
      var u := v';
      OnShape(a, u);
      PublishShape(u, w);
      v' := Goes(a, u, w, Publish);
      OnlyOneTwice(v, u, v', w);
    }
  }

  lemma {:induction false} PublishAll(a: World, v: World, i: nat) returns (v': World)
    requires On(a, v) && i <= |v.hist|
    ensures On(a, v') && |v'.hist| == |v.hist| == |v'.sys.workers|
    ensures forall o | 0 <= o < i :: !Open(v'.sys.workers[o].phase)
    decreases i
  {
    if i == 0 {
      v' := v;
    } else {
      var u := PublishAll(a, v, i - 1);
      v' := Publishes(a, u, i - 1);
    }
  }

  // ----- one worker, up to Active

  /** What a transaction in progress keeps of its worker, whatever it still has to do. */
  ghost predicate SameTx(my: Worker, my': Worker) {
    && my'.start == my.start && my'.olap == my.olap && my'.word == my.word && my'.received == my.received
    && my'.latestWrite == my.latestWrite && my'.lwmForTx == my.lwmForTx && my'.purged == my.purged
  }

  lemma CleanReadShape(v: World, w: nat)
    requires Shape(v.sys, v.hist) && w < |v.hist| && v.sys.workers[w].phase.Cleaning? && v.sys.workers[w].tree != []
    requires v.sys.workers[w].phase.next < |v.hist| && !v.sys.workers[v.sys.workers[w].phase.next].word.latched
    ensures Can(v, w, CleanRead)
    ensures var (my, v') := (v.sys.workers[w], After(v, w, CleanRead));
      && OnlyOne(v, v', w) && v'.sys.clock == v.sys.clock && SameTx(my, v'.sys.workers[w])
      && v'.sys.workers[w].phase.Cleaning? && v'.sys.workers[w].phase.next == my.phase.next + 1
  {
  }

  lemma CleanFinishShape(v: World, w: nat)
    requires Shape(v.sys, v.hist) && w < |v.hist| && v.sys.workers[w].phase.Cleaning?
    requires v.sys.workers[w].phase.next == |v.hist|
    ensures Can(v, w, CleanFinish)
    ensures var v' := After(v, w, CleanFinish);
      && OnlyOne(v, v', w) && v'.sys.clock == v.sys.clock && SameTx(v.sys.workers[w], v'.sys.workers[w])
      && v'.sys.workers[w].phase.Loading?
  {
  }

  lemma CleanFacts(a: World, v: World, w: nat)
    requires On(a, v) && w < |v.hist| && AllPublished(v) && v.sys.workers[w].phase.Cleaning?
    ensures Shape(v.sys, v.hist) && v.sys.workers[w].phase.next <= |v.hist| && v.sys.workers[w].tree != []
    ensures forall o | 0 <= o < |v.hist| :: !v.sys.workers[o].word.latched
  {
    InvMine(v.sys, v.hist, w);
    forall o | 0 <= o < |v.hist|
      ensures !v.sys.workers[o].word.latched
    {
      Unlatched(v, o);
    }
  }

  lemma {:induction false} Cleans(a: World, v: World, w: nat) returns (v': World)
    requires On(a, v) && w < |v.hist| && AllPublished(v) && v.sys.workers[w].phase.Cleaning?
    requires v.sys.workers[w].phase.next <= |v.hist|
    ensures On(a, v') && OnlyOne(v, v', w) && v'.sys.clock == v.sys.clock
    ensures SameTx(v.sys.workers[w], v'.sys.workers[w]) && v'.sys.workers[w].phase.Loading?
    decreases |v.hist| - v.sys.workers[w].phase.next
  {
    CleanFacts(a, v, w);
    if v.sys.workers[w].phase.next == |v.hist| {
      CleanFinishShape(v, w);
      v' := Goes(a, v, w, CleanFinish);
    } else {
      CleanReadShape(v, w);
      var u := Goes(a, v, w, CleanRead);
      v' := Cleans(a, u, w);
      OnlyOneTwice(v, u, v', w);
    }
  }

  lemma LoadShape(v: World, w: nat)
    requires Shape(v.sys, v.hist) && w < |v.hist| && v.sys.workers[w].phase.Loading?
    ensures Can(v, w, LoadLwm)
    ensures var v' := After(v, w, LoadLwm);
      && OnlyOne(v, v', w) && v'.sys.clock == v.sys.clock && SameTx(v.sys.workers[w], v'.sys.workers[w])
      && v'.sys.workers[w].phase.Active? && v'.sys.workers[w].lwmCache == v.sys.allLwm
  {
  }

  /** A published transaction gets to run. */
  lemma Activates(a: World, v: World, w: nat) returns (v': World)
    requires On(a, v) && w < |v.hist| && AllPublished(v)
    requires v.sys.workers[w].phase.Cleaning? || v.sys.workers[w].phase.Loading?
    ensures On(a, v') && OnlyOne(v, v', w) && v'.sys.clock == v.sys.clock
    ensures SameTx(v.sys.workers[w], v'.sys.workers[w]) && v'.sys.workers[w].phase.Active?
    ensures v'.sys.workers[w].lwmCache == v.sys.allLwm
  {
    var u := v;
    NoChange(v, w);
    if v.sys.workers[w].phase.Cleaning? {
      CleanFacts(a, v, w);
      u := Cleans(a, v, w);
    }
    OnShape(a, u);
    LoadShape(u, w);
    v' := Goes(a, u, w, LoadLwm);
    OnlyOneTwice(v, u, v', w);
  }

  // ----- back to Idle

  lemma CommitShape(v: World, w: nat)
    requires Shape(v.sys, v.hist) && w < |v.hist| && v.sys.workers[w].phase.Active?
    ensures Can(v, w, Commit(false))
    ensures var v' := After(v, w, Commit(false));
      && OnlyOne(v, v', w) && v'.sys.clock == v.sys.clock
      && v'.sys.workers[w] == v.sys.workers[w].(phase := Committed)
  {
  }

  lemma SkipShape(v: World, w: nat)
    requires Shape(v.sys, v.hist) && w < |v.hist| && v.sys.workers[w].phase.Committed?
    ensures Can(v, w, SkipRefresh)
    ensures var v' := After(v, w, SkipRefresh);
      && OnlyOne(v, v', w) && v'.sys.clock == v.sys.clock && v'.sys.workers[w] == v.sys.workers[w].(phase := Idle)
  {
  }

  lemma Leaves(a: World, v: World, w: nat) returns (v': World)
    requires On(a, v) && w < |v.hist| && v.sys.workers[w].phase.Committed?
    ensures On(a, v') && OnlyOne(v, v', w) && v'.sys.clock == v.sys.clock
    ensures v'.sys.workers[w] == v.sys.workers[w].(phase := Idle)
  {
    OnShape(a, v);
    SkipShape(v, w);
    v' := Goes(a, v, w, SkipRefresh);
  }

  lemma Finishes(a: World, v: World, w: nat) returns (v': World)
    requires On(a, v) && w < |v.hist| && v.sys.workers[w].phase.Active?
    ensures On(a, v') && OnlyOne(v, v', w) && v'.sys.clock == v.sys.clock
    ensures v'.sys.workers[w] == v.sys.workers[w].(phase := Committed)
  {
    OnShape(a, v);
    CommitShape(v, w);
    v' := Goes(a, v, w, Commit(false));
  }

  /** What worker w's refresh leaves alone. */
  ghost predicate Refreshed(v: World, v': World, w: nat) {
    && v'.hist == v.hist && |v'.sys.workers| == |v.sys.workers| && v'.sys.clock == v.sys.clock
    && forall o | 0 <= o < |v.sys.workers| :: SameBut(v.sys.workers[o], v'.sys.workers[o], o == w)
  }

  ghost predicate SameBut(my: Worker, my': Worker, moves: bool) {
    && my'.start == my.start && my'.olap == my.olap && my'.word == my.word && my'.tree == my.tree
    && my'.latestWrite == my.latestWrite && my'.purged == my.purged && (moves || my'.phase == my.phase)
  }

  lemma RefreshedTwice(u: World, v: World, v': World, w: nat)
    requires Refreshed(u, v, w) && Refreshed(v, v', w)
    ensures Refreshed(u, v', w)
  {
    forall o | 0 <= o < |u.sys.workers|
      ensures SameBut(u.sys.workers[o], v'.sys.workers[o], o == w)
    {
      assert SameBut(u.sys.workers[o], v.sys.workers[o], o == w);
      assert SameBut(v.sys.workers[o], v'.sys.workers[o], o == w);
    }
  }

  lemma OneIsRefreshed(v: World, v': World, w: nat)
    requires OnlyOne(v, v', w) && v'.sys.clock == v.sys.clock && SameBut(v.sys.workers[w], v'.sys.workers[w], true)
    ensures Refreshed(v, v', w)
  {
  }

  // ----- the scan, with a lower bound on what it finds

  predicate Scanned(p: Phase, low: nat) {
    p.Scanning? && (p.oldest.Some? ==> low <= p.oldest.value) && (p.next > 0 ==> p.oldest.Some?)
  }

  ghost predicate WordsFrom(v: World, low: nat) {
    forall o | 0 <= o < |v.sys.workers| :: !v.sys.workers[o].word.latched && low <= v.sys.workers[o].word.ts
  }

  lemma ReadShape(v: World, w: nat, low: nat)
    requires Shape(v.sys, v.hist) && w < |v.hist| && Scanned(v.sys.workers[w].phase, low) && WordsFrom(v, low)
    requires v.sys.workers[w].phase.next < |v.hist|
    ensures Can(v, w, RefreshRead)
    ensures var (my, v') := (v.sys.workers[w], After(v, w, RefreshRead));
      && OnlyOne(v, v', w) && v'.sys.clock == v.sys.clock && v'.sys.workers[w] == my.(phase := v'.sys.workers[w].phase)
      && Scanned(v'.sys.workers[w].phase, low) && v'.sys.workers[w].phase.next == my.phase.next + 1
  {
  }

  lemma {:induction false} Scans(a: World, v: World, w: nat, low: nat) returns (v': World)
    requires On(a, v) && w < |v.hist| && Scanned(v.sys.workers[w].phase, low) && WordsFrom(v, low)
    requires v.sys.workers[w].phase.next <= |v.hist|
    ensures On(a, v') && OnlyOne(v, v', w) && v'.sys.clock == v.sys.clock
    ensures v'.sys.workers[w] == v.sys.workers[w].(phase := v'.sys.workers[w].phase)
    ensures Scanned(v'.sys.workers[w].phase, low) && v'.sys.workers[w].phase.next == |v.hist|
    decreases |v.hist| - v.sys.workers[w].phase.next
  {
    OnShape(a, v);
    if v.sys.workers[w].phase.next == |v.hist| {
      v' := v;
      NoChange(v, w);
    } else {
      ReadShape(v, w, low);
      var u := Goes(a, v, w, RefreshRead);
      v' := Scans(a, u, w, low);
      OnlyOneTwice(v, u, v', w);
    }
  }

  // ----- the stores

  lemma StoreOldestShape(v: World, w: nat)
    requires Shape(v.sys, v.hist) && w < |v.hist| && v.sys.workers[w].phase.Scanning?
    requires v.sys.workers[w].phase.next == |v.hist| && v.sys.workers[w].phase.oldest.Some?
    ensures Can(v, w, StoreOldest)
    ensures var v' := After(v, w, StoreOldest);
      && Refreshed(v, v', w) && v'.sys.workers[w].phase.StoredAll?
      && v'.sys.oldestAll == v.sys.workers[w].phase.oldest.value
      && v'.sys.workers == v.sys.workers[w := v.sys.workers[w].(phase := v'.sys.workers[w].phase)]
  {
  }

  lemma StoreOltpShape(v: World, w: nat)
    requires Shape(v.sys, v.hist) && w < |v.hist| && v.sys.workers[w].phase.StoredAll?
    ensures Can(v, w, StoreOltp)
    ensures var v' := After(v, w, StoreOltp);
      && Refreshed(v, v', w) && v'.sys.workers[w].phase.StoredOltp? && v'.sys.oldestAll == v.sys.oldestAll
      && v'.sys.workers == v.sys.workers[w := v.sys.workers[w].(phase := v'.sys.workers[w].phase)]
  {
  }

  lemma StoreOlapShape(v: World, w: nat)
    requires Shape(v.sys, v.hist) && w < |v.hist| && v.sys.workers[w].phase.StoredOltp?
    ensures Can(v, w, StoreOlap)
    ensures var v' := After(v, w, StoreOlap);
      && Refreshed(v, v', w) && v'.sys.oldestAll == v.sys.oldestAll
      && v'.sys.workers == v.sys.workers[w := v.sys.workers[w].(phase := Delivering(0, None, false))]
  {
  }

  /** The worker's phase is all that has changed among the workers. */
  ghost predicate OnlyPhase(v: World, v': World, w: nat) {
    && w < |v.sys.workers| && Refreshed(v, v', w)
    && v'.sys.workers == v.sys.workers[w := v.sys.workers[w].(phase := v'.sys.workers[w].phase)]
  }

  lemma OnlyPhaseTwice(u: World, v: World, v': World, w: nat)
    requires OnlyPhase(u, v, w) && OnlyPhase(v, v', w)
    ensures OnlyPhase(u, v', w)
  {
    RefreshedTwice(u, v, v', w);
    assert v'.sys.workers == u.sys.workers[w := u.sys.workers[w].(phase := v'.sys.workers[w].phase)];
  }

  /** From any of the stores to the second loop. */
  lemma Stores(a: World, v: World, w: nat) returns (v': World)
    requires On(a, v) && w < |v.hist|
    requires v.sys.workers[w].phase.StoredAll? || v.sys.workers[w].phase.StoredOltp?
    ensures On(a, v') && OnlyPhase(v, v', w) && v'.sys.oldestAll == v.sys.oldestAll
    ensures v'.sys.workers[w].phase == Delivering(0, None, false)
  {
    var u := v;
    OnShape(a, v);
    if v.sys.workers[w].phase.StoredAll? {
      StoreOltpShape(v, w);
      u := Goes(a, v, w, StoreOltp);
    } else {
      assert OnlyPhase(v, u, w);
    }
    OnShape(a, u);
    StoreOlapShape(u, w);
    v' := Goes(a, u, w, StoreOlap);
    OnlyPhaseTwice(v, u, v', w);
  }

  // ----- the second loop

  /** A worker that gets a watermark of at least m. */
  ghost predicate Ripe(my: Worker, oldest: nat, m: nat) {
    my.lwmForTx != my.latestWrite && m <= StartLCB(my.tree, oldest)
  }

  /** If all are ripe: what has been given and is still to give. */
  ghost predicate Giving(s: Sys, w: nat, ripe: bool, m: nat)
    requires w < |s.workers|
  {
    var p := s.workers[w].phase;
    && p.Delivering? && p.next <= |s.workers|
    && (ripe ==>
          && !p.skipped && (p.next > 0 ==> p.lwm.Some?) && (p.lwm.Some? ==> m <= p.lwm.value)
          && (forall o | 0 <= o < p.next && o < |s.workers| :: m <= s.workers[o].received)
          && (forall o | p.next <= o < |s.workers| :: Ripe(s.workers[o], s.oldestAll, m)))
  }

  lemma GiveShape(v: World, w: nat, ripe: bool, m: nat)
    requires Shape(v.sys, v.hist) && w < |v.hist| && Giving(v.sys, w, ripe, m)
    requires v.sys.workers[w].phase.next < |v.hist|
    ensures Can(v, w, Deliver)
    ensures var v' := After(v, w, Deliver);
      && Refreshed(v, v', w) && Giving(v'.sys, w, ripe, m)
      && v'.sys.workers[w].phase.next == v.sys.workers[w].phase.next + 1
  {
    if ripe {
      assert Ripe(v.sys.workers[v.sys.workers[w].phase.next], v.sys.oldestAll, m);
    }
  }

  lemma EndShape(v: World, w: nat, ripe: bool, m: nat)
    requires Shape(v.sys, v.hist) && w < |v.hist| && Giving(v.sys, w, ripe, m)
    requires v.sys.workers[w].phase.next == |v.hist|
    ensures Can(v, w, EndRefresh)
    ensures var v' := After(v, w, EndRefresh);
      && OnlyPhase(v, v', w) && v'.sys.workers[w].phase.Idle? && v'.sys.mutex.None? && (ripe ==> m <= v'.sys.allLwm)
  {
  }

  lemma {:induction false} Gives(a: World, v: World, w: nat, ripe: bool, m: nat) returns (v': World)
    requires On(a, v) && w < |v.hist| && Giving(v.sys, w, ripe, m)
    ensures On(a, v') && Refreshed(v, v', w) && v'.sys.workers[w].phase.Idle? && v'.sys.mutex.None?
    ensures ripe ==> m <= v'.sys.allLwm && forall o | 0 <= o < |v'.sys.workers| :: m <= v'.sys.workers[o].received
    decreases |v.hist| - v.sys.workers[w].phase.next
  {
    OnShape(a, v);
    if v.sys.workers[w].phase.next == |v.hist| {
      EndShape(v, w, ripe, m);
      v' := Goes(a, v, w, EndRefresh);
    } else {
      GiveShape(v, w, ripe, m);
      var u := Goes(a, v, w, Deliver);
      v' := Gives(a, u, w, ripe, m);
      RefreshedTwice(v, u, v', w);
    }
  }

  // ----- everybody rests

  lemma StoresOldest(a: World, v: World, w: nat) returns (v': World)
    requires On(a, v) && w < |v.hist| && v.sys.workers[w].phase.Scanning?
    requires v.sys.workers[w].phase.next == |v.hist| && v.sys.workers[w].phase.oldest.Some?
    ensures On(a, v') && OnlyPhase(v, v', w) && v'.sys.workers[w].phase == Delivering(0, None, false)
    ensures v'.sys.oldestAll == v.sys.workers[w].phase.oldest.value
  {
    OnShape(a, v);
    StoreOldestShape(v, w);
    var u := Goes(a, v, w, StoreOldest);
    v' := Stores(a, u, w);
    OnlyPhaseTwice(v, u, v', w);
  }

  lemma ScanFacts(a: World, v: World, w: nat)
    requires On(a, v) && w < |v.hist| && AllPublished(v)
    ensures WordsFrom(v, 0)
    ensures v.sys.workers[w].phase.Scanning? ==>
              Scanned(v.sys.workers[w].phase, 0) && v.sys.workers[w].phase.next <= |v.hist|
    ensures v.sys.workers[w].phase.Delivering? ==> v.sys.workers[w].phase.next <= |v.hist|
  {
    InvMine(v.sys, v.hist, w);
    forall o | 0 <= o < |v.hist|
      ensures !v.sys.workers[o].word.latched
    {
      Unlatched(v, o);
    }
  }

  lemma OnlyOneIsPhase(v: World, v': World, w: nat)
    requires OnlyOne(v, v', w) && v'.sys.clock == v.sys.clock
    requires v'.sys.workers[w] == v.sys.workers[w].(phase := v'.sys.workers[w].phase)
    ensures OnlyPhase(v, v', w)
  {
    OneIsRefreshed(v, v', w);
  }

  /** A refresh in progress comes to its end. */
  lemma RefreshFinishes(a: World, v: World, w: nat) returns (v': World)
    requires On(a, v) && w < |v.hist| && AllPublished(v) && SnapshotRefresh.Refreshing(v.sys.workers[w].phase)
    ensures On(a, v') && Refreshed(v, v', w) && v'.sys.workers[w].phase.Idle?
  {
    var u := v;
    OnShape(a, v);
    ScanFacts(a, v, w);
    if v.sys.workers[w].phase.Scanning? {
      var u1 := Scans(a, v, w, 0);
      OnlyOneIsPhase(v, u1, w);
      u := StoresOldest(a, u1, w);
      OnlyPhaseTwice(v, u1, u, w);
    } else if !v.sys.workers[w].phase.Delivering? {
      u := Stores(a, v, w);
    }
    v' := Gives(a, u, w, false, 0);
    RefreshedTwice(v, u, v', w);
  }

  /** Everything but w's own phase and tree, and the clock, is as it was, as far as it matters for others. */
  ghost predicate OthersWait(v: World, v': World, w: nat) {
    && v'.hist == v.hist && |v'.sys.workers| == |v.sys.workers|
    && forall o | 0 <= o < |v.sys.workers| && o != w :: v'.sys.workers[o].phase == v.sys.workers[o].phase
  }

  lemma Rests(a: World, v: World, w: nat) returns (v': World)
    requires On(a, v) && w < |v.hist| && AllPublished(v)
    ensures On(a, v') && OthersWait(v, v', w) && v'.sys.workers[w].phase.Idle?
  {
    OnShape(a, v);
    var p := v.sys.workers[w].phase;
    assert !Open(p);
    if SnapshotRefresh.Refreshing(p) {
      v' := RefreshFinishes(a, v, w);
      assert forall o | 0 <= o < |v.sys.workers| :: SameBut(v.sys.workers[o], v'.sys.workers[o], o == w);
    } else if p.Cleaning? || p.Loading? {
      var u := Activates(a, v, w);
      v' := RunsOut(a, u, w);
    } else {
      v' := RunsOut(a, v, w);
    }
  }

  lemma RunsOut(a: World, v: World, w: nat) returns (v': World)
    requires On(a, v) && w < |v.hist|
    requires var p := v.sys.workers[w].phase; p.Active? || p.Committed? || p.Idle?
    ensures On(a, v') && OthersWait(v, v', w) && v'.sys.workers[w].phase.Idle?
  {
    OnShape(a, v);
    var u := v;
    if v.sys.workers[w].phase.Active? {
      u := Finishes(a, v, w);
    }
    v' := u;
    if u.sys.workers[w].phase.Committed? {
      v' := Leaves(a, u, w);
    }
  }

  ghost predicate AllIdle(v: World) {
    forall o | 0 <= o < |v.sys.workers| :: v.sys.workers[o].phase.Idle?
  }

  lemma {:induction false} RestAll(a: World, v: World, i: nat) returns (v': World)
    requires On(a, v) && i <= |v.hist| && AllPublished(v)
    ensures On(a, v') && |v'.hist| == |v.hist| == |v'.sys.workers| && AllPublished(v')
    ensures forall o | 0 <= o < i :: v'.sys.workers[o].phase.Idle?
    decreases i
  {
    OnShape(a, v);
    if i == 0 {
      v' := v;
    } else {
      var u := RestAll(a, v, i - 1);
      v' := Rests(a, u, i - 1);
    }
  }

  /** From every state, a state in which no transaction and no refresh is in progress. */
  lemma ComesToRest(a: World, v: World) returns (v': World)
    requires On(a, v)
    ensures On(a, v') && |v'.hist| == |v.hist| && AllIdle(v') && v'.sys.mutex.None?
  {
    OnShape(a, v);
    var u := PublishAll(a, v, |v.hist|);
    v' := RestAll(a, u, |v.hist|);
    MutexFree(a, v');
  }

  lemma MutexFree(a: World, v: World)
    requires On(a, v) && AllIdle(v)
    ensures v.sys.mutex.None?
  {
    if v.sys.mutex.Some? {
      HolderRefreshes(v.sys);
    }
  }

  lemma HolderRefreshes(s: Sys)
    requires SnapshotRefresh.MutexOk(s) && s.mutex.Some?
    ensures s.mutex.value < |s.workers| && SnapshotRefresh.Refreshing(s.workers[s.mutex.value].phase)
  {
  }

  // ----- one more transaction

  lemma LatchShape(v: World, w: nat)
    requires Shape(v.sys, v.hist) && w < |v.hist| && v.sys.workers[w].phase.Idle?
    ensures Can(v, w, Latch(false))
    ensures var v' := After(v, w, Latch(false));
      && OnlyOne(v, v', w) && v'.sys.clock == v.sys.clock && v'.sys.workers[w].phase.Latched?
      && v'.sys.workers[w] == v.sys.workers[w].(phase := Latched, olap := false, word := v'.sys.workers[w].word)
  {
  }

  lemma DrawGives(v: World, w: nat)
    requires Can(v, w, Draw)
    ensures var v' := After(v, w, Draw);
      v'.sys.workers[w] == v.sys.workers[w].(phase := Drawn, start := v.sys.clock) && v'.sys.clock == v.sys.clock + 1
  {
  }

  lemma PublishGives(v: World, w: nat)
    requires Can(v, w, Publish)
    ensures var (my, v') := (v.sys.workers[w], After(v, w, Publish));
      v'.sys.workers[w] == my.(phase := v'.sys.workers[w].phase, word := Word(false, my.olap, my.start))
  {
  }

  /** The next transaction of w: it starts now. */
  ghost predicate Began(v: World, v': World, w: nat)
    requires w < |v.sys.workers| == |v'.sys.workers|
  {
    var (my, my') := (v.sys.workers[w], v'.sys.workers[w]);
    && my'.start == v.sys.clock && my'.word == Word(false, false, v.sys.clock) && v.sys.clock < v'.sys.clock
    && my'.received == my.received && my'.latestWrite == my.latestWrite && my'.lwmForTx == my.lwmForTx
    && my'.purged == my.purged
  }

  lemma Starts(a: World, v: World, w: nat) returns (v': World)
    requires On(a, v) && w < |v.hist| && AllPublished(v) && v.sys.workers[w].phase.Idle?
    ensures On(a, v') && OnlyOne(v, v', w) && Began(v, v', w) && AllPublished(v')
    ensures v'.sys.workers[w].phase.Cleaning? || v'.sys.workers[w].phase.Loading?
  {
    OnShape(a, v);
    LatchShape(v, w);
    var u1 := Goes(a, v, w, Latch(false));
    OnShape(a, u1);
    DrawShape(u1, w);
    DrawGives(u1, w);
    var u2 := Goes(a, u1, w, Draw);
    OnlyOneTwice(v, u1, u2, w);
    OnShape(a, u2);
    PublishShape(u2, w);
    PublishGives(u2, w);
    v' := Goes(a, u2, w, Publish);
    OnlyOneTwice(v, u2, v', w);
  }

  lemma Begins(a: World, v: World, w: nat) returns (v': World)
    requires On(a, v) && w < |v.hist| && AllPublished(v) && v.sys.workers[w].phase.Idle?
    ensures On(a, v') && OnlyOne(v, v', w) && Began(v, v', w) && v'.sys.workers[w].phase.Active?
    ensures v'.sys.workers[w].lwmCache == v.sys.allLwm
  {
    OnShape(a, v);
    var u := Starts(a, v, w);
    v' := Activates(a, u, w);
    OnlyOneTwice(v, u, v', w);
  }

  /** What is in the tree of a running worker. */
  lemma ActiveFacts(a: World, v: World, w: nat)
    requires On(a, v) && w < |v.hist| && v.sys.workers[w].phase.Active?
    ensures Shape(v.sys, v.hist) && |v.sys.workers[w].tree| < Capacity(v.sys)
    ensures v.hist[w] != [] ==> v.hist[w][|v.hist[w]| - 1] in v.sys.workers[w].tree
  {
    InvMine(v.sys, v.hist, w);
  }

  lemma WriteShape(v: World, w: nat)
    requires Shape(v.sys, v.hist) && w < |v.hist| && v.sys.workers[w].phase.Active?
    requires |v.sys.workers[w].tree| < Capacity(v.sys)
    ensures Can(v, w, Commit(true))
    ensures var (my, v', e) :=
            (v.sys.workers[w], After(v, w, Commit(true)), Entry(v.sys.clock, v.sys.workers[w].start));
      && v'.hist == v.hist[w := v.hist[w] + [e]] && v'.sys.clock == v.sys.clock + 1
      && v'.sys.workers
         == v.sys.workers[w := my.(phase := Committed, tree := my.tree + [e], latestWrite := v.sys.clock)]
      && v'.sys.allLwm == v.sys.allLwm && v'.sys.mutex == v.sys.mutex
  {
  }

  /** Worker w has written e, which started at t or later, and has everything to get a watermark. */
  ghost predicate HasWritten(v: World, w: nat, t: nat, e: Entry) {
    && w < |v.sys.workers| == |v.hist| && v.hist[w] != [] && v.hist[w][|v.hist[w]| - 1] == e
    && t <= e.start && e.commit < v.sys.clock && e in v.sys.workers[w].tree
    && v.sys.workers[w].word == Word(false, false, e.start) && v.sys.workers[w].lwmForTx < v.sys.workers[w].latestWrite
  }

  /** Worker w alone has moved, except for clock and history. */
  ghost predicate OneWrote(v: World, v': World, w: nat) {
    && |v'.hist| == |v.hist| == |v'.sys.workers| == |v.sys.workers| && v'.sys.allLwm == v.sys.allLwm
    && v.sys.clock <= v'.sys.clock && v'.sys.mutex == v.sys.mutex
    && forall o | 0 <= o < |v.hist| && o != w :: v'.sys.workers[o] == v.sys.workers[o] && v'.hist[o] == v.hist[o]
  }

  function Last(v: World, o: nat): (e: Entry)
    requires o < |v.hist| && v.hist[o] != []
  {
    v.hist[o][|v.hist[o]| - 1]
  }

  /** A transaction that writes, up to its commit. */
  lemma WritesUntil(a: World, v: World, w: nat) returns (v': World)
    requires On(a, v) && w < |v.hist| && AllIdle(v)
    ensures On(a, v') && OneWrote(v, v', w) && v'.sys.workers[w].phase.Committed? && v'.hist[w] != []
    ensures HasWritten(v', w, v.sys.clock, Last(v', w))
    ensures v.hist[w] != [] ==> Last(v, w) in v'.sys.workers[w].tree
  {
    OnShape(a, v);
    LwmBefore(a, v, w);
    var u := Begins(a, v, w);
    ActiveFacts(a, u, w);
    WriteShape(u, w);
    v' := Goes(a, u, w, Commit(true));
  }

  /** A whole transaction that writes. */
  lemma Writes(a: World, v: World, w: nat) returns (v': World)
    requires On(a, v) && w < |v.hist| && AllIdle(v)
    ensures On(a, v') && OneWrote(v, v', w) && AllIdle(v') && v'.hist[w] != []
    ensures HasWritten(v', w, v.sys.clock, Last(v', w))
    ensures v.hist[w] != [] ==> Last(v, w) in v'.sys.workers[w].tree
  {
    OnShape(a, v);
    var u := WritesUntil(a, v, w);
    v' := Leaves(a, u, w);
    LeftWritten(v, u, v', w, v.sys.clock);
  }

  lemma LeftWritten(v: World, u: World, v': World, w: nat, t: nat)
    requires AllIdle(v) && OneWrote(v, u, w) && w < |u.hist| && u.hist[w] != [] && HasWritten(u, w, t, Last(u, w))
    requires OnlyOne(u, v', w) && v'.sys.clock == u.sys.clock
    requires v'.sys.workers[w] == u.sys.workers[w].(phase := Idle)
    ensures OneWrote(v, v', w) && AllIdle(v') && HasWritten(v', w, t, Last(v', w))
  {
  }

  lemma LwmBefore(a: World, v: World, w: nat)
    requires On(a, v) && w < |v.hist|
    ensures v.sys.workers[w].lwmForTx < v.sys.clock
  {
  }

  /** The first i workers have written since v, and still have what they wrote last before that. */
  ghost predicate RoundDone(v: World, v': World, i: nat) {
    && |v'.hist| == |v.hist| == |v'.sys.workers| == |v.sys.workers| && i <= |v.hist| && v.sys.clock <= v'.sys.clock
    && forall o | 0 <= o < i :: WroteSince(v, v', o)
  }

  ghost predicate WroteSince(v: World, v': World, o: nat) {
    && o < |v.hist| == |v'.hist| == |v'.sys.workers| && v'.hist[o] != []
    && HasWritten(v', o, v.sys.clock, Last(v', o)) && (v.hist[o] != [] ==> Last(v, o) in v'.sys.workers[o].tree)
  }

  lemma StillWritten(v: World, u: World, v': World, o: nat, w: nat)
    requires WroteSince(v, u, o) && OneWrote(u, v', w) && o != w
    ensures WroteSince(v, v', o)
  {
  }

  lemma LaterWritten(v: World, u: World, v': World, w: nat)
    requires w < |v.hist| == |u.hist| == |v'.hist| && u.hist[w] == v.hist[w] && v'.hist[w] != []
    requires v.sys.clock <= u.sys.clock && HasWritten(v', w, u.sys.clock, Last(v', w)) && OneWrote(u, v', w)
    requires v.hist[w] != [] ==> Last(u, w) in v'.sys.workers[w].tree
    ensures WroteSince(v, v', w)
  {
  }

  lemma {:induction false} Round(a: World, v: World, i: nat) returns (v': World)
    requires On(a, v) && i <= |v.hist| && AllIdle(v)
    ensures On(a, v') && AllIdle(v') && RoundDone(v, v', i)
    ensures forall o | i <= o < |v.hist| :: v'.hist[o] == v.hist[o]
    decreases i
  {
    OnShape(a, v);
    if i == 0 {
      v' := v;
    } else {
      var u := Round(a, v, i - 1);
      v' := Writes(a, u, i - 1);
      forall o | 0 <= o < i
        ensures WroteSince(v, v', o)
      {
        if o < i - 1 {
          StillWritten(v, u, v', o, i - 1);
        } else {
          LaterWritten(v, u, v', o);
        }
      }
    }
  }

  /** All workers but the last, and then the last one up to its commit. */
  lemma LastRound(a: World, v: World) returns (v': World)
    requires On(a, v) && AllIdle(v) && v.sys.mutex.None?
    ensures On(a, v') && |v.hist| > 0 && RoundDone(v, v', |v.hist|) && v'.sys.mutex.None?
    ensures v'.sys.workers[|v.hist| - 1].phase.Committed?
    ensures forall o | 0 <= o < |v'.sys.workers| && o != |v.hist| - 1 :: v'.sys.workers[o].phase.Idle?
  {
    OnShape(a, v);
    var n := |v.hist| - 1;
    var u := Round(a, v, n);
    MutexFree(a, u);
    v' := WritesUntil(a, u, n);
    forall o | 0 <= o <= n
      ensures WroteSince(v, v', o)
    {
      if o < n {
        StillWritten(v, u, v', o, n);
      } else {
        LaterWritten(v, u, v', o);
      }
    }
  }

  // ----- a refresh that raises the watermarks

  /** A commit before the oldest snapshot that is still in the tree bounds the watermark from below. */
  lemma RipeFrom(a: World, v: World, o: nat, e: Entry, oldest: nat, m: nat)
    requires On(a, v) && o < |v.hist| && e in v.sys.workers[o].tree && e.commit < oldest && m <= e.start
    requires v.sys.workers[o].lwmForTx < v.sys.workers[o].latestWrite
    ensures Ripe(v.sys.workers[o], oldest, m)
  {
    InvMine(v.sys, v.hist, o);
    TreeLCB(v.sys.clock, v.sys.workers[o], v.hist[o], |v.hist|, e, oldest);
  }

  lemma TreeLCB(clock: nat, my: Worker, h: seq<Entry>, n: nat, e: Entry, ts: nat)
    requires HistoryOk(clock, my, h) && TreeOk(n, my, h) && e in my.tree && e.commit < ts
    ensures StartLCB(my.tree, ts) >= e.start
  {
    LCBIsGreatest(my.tree, ts, e);
    var r := LCB(my.tree, ts).value;
    EarlierStarts(clock, my, h, e, r);
  }

  lemma EarlierStarts(clock: nat, my: Worker, h: seq<Entry>, a: Entry, b: Entry)
    requires HistoryOk(clock, my, h) && a in h && b in h && a.commit <= b.commit
    ensures a.start <= b.start
  {
    var i :| 0 <= i < |h| && h[i] == a;
    var j :| 0 <= j < |h| && h[j] == b;
  }

  lemma BeginShape(v: World, w: nat)
    requires Shape(v.sys, v.hist) && w < |v.hist| && v.sys.workers[w].phase.Committed? && v.sys.mutex.None?
    ensures Can(v, w, BeginRefresh)
    ensures var v' := After(v, w, BeginRefresh);
      OnlyPhase(v, v', w) && v'.sys.workers[w].phase == Scanning(0, None, 0, None)
  {
  }

  lemma OnlyPhaseWords(v: World, v': World, w: nat, low: nat)
    requires OnlyPhase(v, v', w) && WordsFrom(v, low)
    ensures WordsFrom(v', low)
  {
  }

  /** Up to the second loop: the oldest snapshot found is not older than any word. */
  lemma RefreshStores(a: World, v: World, w: nat, low: nat) returns (v': World)
    requires On(a, v) && w < |v.hist| && v.sys.workers[w].phase.Committed? && v.sys.mutex.None? && WordsFrom(v, low)
    ensures On(a, v') && OnlyPhase(v, v', w) && v'.sys.workers[w].phase == Delivering(0, None, false)
    ensures low <= v'.sys.oldestAll
  {
    OnShape(a, v);
    BeginShape(v, w);
    var u1 := Goes(a, v, w, BeginRefresh);
    OnlyPhaseWords(v, u1, w, low);
    OnShape(a, u1);
    var u2 := Scans(a, u1, w, low);
    OnlyOneIsPhase(u1, u2, w);
    OnlyPhaseTwice(v, u1, u2, w);
    v' := StoresOldest(a, u2, w);
    OnlyPhaseTwice(v, u2, v', w);
  }

  lemma WordsAfter(v: World, v': World)
    requires RoundDone(v, v', |v.hist|)
    ensures WordsFrom(v', v.sys.clock)
  {
    forall o | 0 <= o < |v'.sys.workers|
      ensures !v'.sys.workers[o].word.latched && v.sys.clock <= v'.sys.workers[o].word.ts
    {
      assert WroteSince(v, v', o);
    }
  }

  /** What worker o wrote in the first of two rounds makes it ripe after the second. */
  lemma RipeAfter(a: World, v0: World, v1: World, v2: World, u: World, w: nat, o: nat)
    requires On(a, u) && WroteSince(v0, v1, o) && WroteSince(v1, v2, o) && OnlyPhase(v2, u, w)
    requires v1.sys.clock <= u.sys.oldestAll
    ensures o < |u.sys.workers| && Ripe(u.sys.workers[o], u.sys.oldestAll, v0.sys.clock)
  {
    OnShape(a, u);
    RipeFrom(a, u, o, Last(v1, o), u.sys.oldestAll, v0.sys.clock);
  }

  /** After two rounds a refresh finds watermarks from the first of them on. */
  lemma RaisesLwm(a: World, v0: World, v1: World, v2: World) returns (v': World)
    requires On(a, v2) && RoundDone(v0, v1, |v0.hist|) && RoundDone(v1, v2, |v0.hist|) && |v0.hist| > 0
    requires v2.sys.workers[|v0.hist| - 1].phase.Committed? && v2.sys.mutex.None?
    ensures On(a, v') && Refreshed(v2, v', |v0.hist| - 1) && v'.sys.workers[|v0.hist| - 1].phase.Idle?
    ensures v0.sys.clock <= v'.sys.allLwm
    ensures forall o | 0 <= o < |v'.sys.workers| :: v0.sys.clock <= v'.sys.workers[o].received
  {
    var w := |v0.hist| - 1;
    WordsAfter(v1, v2);
    var u := RefreshStores(a, v2, w, v1.sys.clock);
    RipeAll(a, v0, v1, v2, u, w);
    v' := Gives(a, u, w, true, v0.sys.clock);
    RefreshedTwice(v2, u, v', w);
  }

  lemma RipeAll(a: World, v0: World, v1: World, v2: World, u: World, w: nat)
    requires On(a, u) && RoundDone(v0, v1, |v0.hist|) && RoundDone(v1, v2, |v0.hist|) && OnlyPhase(v2, u, w)
    requires v1.sys.clock <= u.sys.oldestAll && u.sys.workers[w].phase == Delivering(0, None, false)
    ensures w < |u.hist| == |v2.hist| && Giving(u.sys, w, true, v0.sys.clock)
  {
    OnShape(a, u);
    forall o | 0 <= o < |u.sys.workers|
      ensures Ripe(u.sys.workers[o], u.sys.oldestAll, v0.sys.clock)
    {
      assert WroteSince(v0, v1, o) && WroteSince(v1, v2, o);
      RipeAfter(a, v0, v1, v2, u, w, o);
    }
  }

  // ----- and purges

  lemma PurgeShape(v: World, w: nat)
    requires Shape(v.sys, v.hist) && w < |v.hist| && v.sys.workers[w].phase.Idle?
    ensures Can(v, w, Purge)
    ensures var (my, v') := (v.sys.workers[w], After(v, w, Purge));
      && OnlyOne(v, v', w) && v'.sys.clock == v.sys.clock && my.received <= v'.sys.workers[w].purged
      && v'.sys.workers[w] == my.(purged := v'.sys.workers[w].purged)
  {
  }

  lemma {:induction false} PurgeAll(a: World, v: World, i: nat, m: nat) returns (v': World)
    requires On(a, v) && AllIdle(v) && i <= |v.hist|
    requires forall o | 0 <= o < |v.sys.workers| :: m <= v.sys.workers[o].received
    ensures On(a, v') && AllIdle(v') && |v'.hist| == |v.hist| == |v'.sys.workers| && v'.sys.allLwm == v.sys.allLwm
    ensures forall o | 0 <= o < |v.hist| :: m <= v'.sys.workers[o].received
    ensures forall o | 0 <= o < i :: m <= v'.sys.workers[o].purged
    decreases i
  {
    OnShape(a, v);
    if i == 0 {
      v' := v;
    } else {
      var u := PurgeAll(a, v, i - 1, m);
      OnShape(a, u);
      PurgeShape(u, i - 1);
      v' := Goes(a, u, i - 1, Purge);
    }
  }

  lemma RefreshedIdle(v: World, v': World, w: nat)
    requires Refreshed(v, v', w) && w < |v'.sys.workers| && v'.sys.workers[w].phase.Idle?
    requires forall o | 0 <= o < |v.sys.workers| && o != w :: v.sys.workers[o].phase.Idle?
    ensures AllIdle(v')
  {
    forall o | 0 <= o < |v'.sys.workers|
      ensures v'.sys.workers[o].phase.Idle?
    {
      assert SameBut(v.sys.workers[o], v'.sys.workers[o], o == w);
    }
  }

  lemma ClockOkInRuns(n: nat, worlds: seq<World>, actions: seq<Action>, k: nat)
    requires n >= 2 && Run(n, worlds, actions) && k <= |actions|
    ensures ClockOk(worlds[k].sys)
  {
    if k == 0 {
      assert forall w | 0 <= w < n :: Init(n).workers[w] == InitWorker(n);
    } else {
      ClockOkInRuns(n, worlds, actions, k - 1);
      assert StepAt(worlds, actions, k - 1);
      ClockKeeps(worlds[k - 1], actions[k - 1].worker, actions[k - 1].event, worlds[k]);
    }
  }

  lemma OnInRuns(n: nat, worlds: seq<World>, actions: seq<Action>, k: nat)
    requires n >= 2 && Run(n, worlds, actions) && k <= |actions|
    ensures On(worlds[k], worlds[k])
  {
    RunKeeps(n, worlds, actions, k);
    ClockOkInRuns(n, worlds, actions, k);
    SnapshotRefresh.RunMutex(n, worlds, actions, k);
    OnHere(worlds[k]);
  }

  /** Two rounds and a refresh. */
  lemma WatermarkRises(a: World, v: World) returns (v': World)
    requires On(a, v) && AllIdle(v)
    ensures On(a, v') && AllIdle(v') && |v'.hist| == |v.hist| == |v'.sys.workers| && v.sys.clock <= v'.sys.allLwm
    ensures forall o | 0 <= o < |v'.sys.workers| :: v.sys.clock <= v'.sys.workers[o].received
  {
    OnShape(a, v);
    var v1 := Round(a, v, |v.hist|);
    MutexFree(a, v1);
    var v2 := LastRound(a, v1);
    v' := RaisesLwm(a, v, v1, v2);
    RefreshedIdle(v2, v', |v.hist| - 1);
    OnShape(a, v');
  }

  lemma PurgesAndBegins(a: World, v: World, m: nat) returns (v': World)
    requires On(a, v) && AllIdle(v) && |v.hist| == |v.sys.workers| > 0 && m <= v.sys.allLwm
    requires forall o | 0 <= o < |v.sys.workers| :: m <= v.sys.workers[o].received
    ensures On(a, v') && |v'.sys.workers| == |v.hist| && m <= v'.sys.allLwm
    ensures v'.sys.workers[0].phase.Active? && m <= v'.sys.workers[0].lwmCache
    ensures forall o | 0 <= o < |v'.sys.workers| :: m <= v'.sys.workers[o].purged
  {
    var u := PurgeAll(a, v, |v.hist|, m);
    v' := Begins(a, u, 0);
  }

  /**
    From every state of every run there is a continuation after which everything started so far is below the global
    watermark and purged, and a new transaction of worker 0 knows that watermark.
   */
  lemma EverythingSettles(n: nat, worlds: seq<World>, actions: seq<Action>, k: nat) returns (v': World)
    requires n >= 2 && Run(n, worlds, actions) && k <= |actions|
    ensures Leads(worlds[k], v') && |v'.sys.workers| > 0
    ensures var t := worlds[k].sys.clock;
      && t <= v'.sys.allLwm && v'.sys.workers[0].phase.Active? && t <= v'.sys.workers[0].lwmCache
      && (forall o | 0 <= o < |v'.sys.workers| :: t <= v'.sys.workers[o].purged)
  {
    var a := worlds[k];
    OnInRuns(n, worlds, actions, k);
    var v0 := ComesToRest(a, a);
    OnShape(a, v0);
    var v1 := WatermarkRises(a, v0);
    v' := PurgesAndBegins(a, v1, v0.sys.clock);
  }
}
