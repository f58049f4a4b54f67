/** Building runs of the snapshot machine, transaction by transaction and refresh by refresh. */
module SnapshotRuns {
  import opened Wrappers
  import opened CommitTree
  import opened Snapshot
  import opened SnapshotOlap

  /** A run of n workers leads to this world, with only transactions of these classes refreshing. */
  ghost predicate Reaches(n: nat, kinds: set<Class>, v: World) {
    exists worlds, actions :: RunOf(n, kinds, worlds, actions) && v == worlds[|actions|]
  }

  lemma ReachesInit(n: nat, kinds: set<Class>)
    ensures Reaches(n, kinds, World(Init(n), seq(n, i => [])))
  {
    var v := World(Init(n), seq(n, i => []));
    var none: seq<Action> := [];
    assert RunOf(n, kinds, [v], none) && v == [v][|none|];
  }

  lemma RunLonger(n: nat, worlds: seq<World>, actions: seq<Action>, a: Action, v': World)
    requires Run(n, worlds, actions) && StepTo(worlds[|actions|], a.worker, a.event, v')
    ensures Run(n, worlds + [v'], actions + [a])
  {
    forall i | 0 <= i < |actions + [a]|
      ensures StepAt(worlds + [v'], actions + [a], i)
    {
      if i < |actions| {
        assert StepAt(worlds, actions, i);
      }
    }
  }

  lemma RefreshersLonger(n: nat, kinds: set<Class>, worlds: seq<World>, actions: seq<Action>, a: Action, v': World)
    requires RunOf(n, kinds, worlds, actions) && a.worker < |worlds[|actions|].sys.workers|
    requires a.event.BeginRefresh? ==> ClassOf(worlds[|actions|].sys.workers[a.worker]) in kinds
    ensures forall i | 0 <= i < |actions + [a]| :: RefresherAt(worlds + [v'], actions + [a], kinds, i)
  {
    forall i | 0 <= i < |actions + [a]|
      ensures RefresherAt(worlds + [v'], actions + [a], kinds, i)
    {
      if i < |actions| {
        assert RefresherAt(worlds, actions, kinds, i);
      }
    }
  }

  /** One more step. */
  lemma Extend(n: nat, kinds: set<Class>, v: World, w: nat, e: Event, v': World)
    requires Reaches(n, kinds, v) && StepTo(v, w, e, v')
    requires e.BeginRefresh? ==> ClassOf(v.sys.workers[w]) in kinds
    ensures Reaches(n, kinds, v')
  {
    var worlds, actions :| RunOf(n, kinds, worlds, actions) && v == worlds[|actions|];
    RunLonger(n, worlds, actions, Action(w, e), v');
    RefreshersLonger(n, kinds, worlds, actions, Action(w, e), v');
    var (worlds', actions') := (worlds + [v'], actions + [Action(w, e)]);
    assert RunOf(n, kinds, worlds', actions') && v' == worlds'[|actions'|];
  }

  /** What every lemma below asks of a world. */
  ghost predicate At(n: nat, kinds: set<Class>, v: World, w: nat) {
    Reaches(n, kinds, v) && Shape(v.sys, v.hist) && w < |v.hist|
  }

  /** The same world with another state of worker w, and another clock. */
  function With(v: World, w: nat, my: Worker, clock: nat): (r: World)
    requires w < |v.sys.workers|
  {
    World(Put(v.sys, w, my).(clock := clock), v.hist)
  }

  lemma WithTwice(v: World, w: nat, a: Worker, x: nat, b: Worker, y: nat)
    requires w < |v.sys.workers|
    ensures With(With(v, w, a, x), w, b, y) == With(v, w, b, y)
  {
  }

  /** Worker w in a transaction that starts now. */
  function Started(s: Sys, w: nat, olap: bool): (my: Worker)
    requires w < |s.workers|
  {
    s.workers[w].(phase := Active, start := s.clock, olap := olap, word := Word(false, olap, s.clock),
      lwmCache := s.allLwm)
  }

  /** startTX of a worker with room in its commit tree. */
  lemma Begin(n: nat, kinds: set<Class>, v: World, w: nat, olap: bool) returns (v': World)
    requires At(n, kinds, v, w) && v.sys.workers[w].phase.Idle? && |v.sys.workers[w].tree| < Capacity(v.sys)
    ensures At(n, kinds, v', w) && v' == With(v, w, Started(v.sys, w, olap), v.sys.clock + 1)
  {
    var v1 := DrawStart(n, kinds, v, w, olap);
    v' := Load(n, kinds, v1, w);
    WithTwice(v, w, v1.sys.workers[w], v.sys.clock + 1, v'.sys.workers[w], v.sys.clock + 1);
  }

  lemma DrawStart(n: nat, kinds: set<Class>, v: World, w: nat, olap: bool) returns (v': World)
    requires At(n, kinds, v, w) && v.sys.workers[w].phase.Idle?
    ensures At(n, kinds, v', w)
    ensures var my := v.sys.workers[w];
            v' == With(v, w,
              my.(phase := Drawn, olap := olap, start := v.sys.clock, word := Word(true, false, my.start)),
                       v.sys.clock + 1)
  {
    var my := v.sys.workers[w];
    var a := my.(phase := Latched, olap := olap, word := Word(true, false, my.start));
    var b := a.(phase := Drawn, start := v.sys.clock);
    Extend(n, kinds, v, w, Latch(olap), With(v, w, a, v.sys.clock));
    WithTwice(v, w, a, v.sys.clock, b, v.sys.clock + 1);
    v' := With(v, w, b, v.sys.clock + 1);
    Extend(n, kinds, With(v, w, a, v.sys.clock), w, Event.Draw, v');
  }

  lemma Load(n: nat, kinds: set<Class>, v: World, w: nat) returns (v': World)
    requires At(n, kinds, v, w) && v.sys.workers[w].phase.Drawn? && |v.sys.workers[w].tree| < Capacity(v.sys)
    ensures At(n, kinds, v', w)
    ensures var my := v.sys.workers[w];
            v' == With(v, w, my.(phase := Active, word := Word(false, my.olap, my.start), lwmCache := v.sys.allLwm),
              v.sys.clock)
  {
    var (my, c) := (v.sys.workers[w], v.sys.clock);
    var a := my.(phase := Loading, word := Word(false, my.olap, my.start));
    var b := a.(phase := Active, lwmCache := v.sys.allLwm);
    Extend(n, kinds, v, w, Publish, With(v, w, a, c));
    WithTwice(v, w, a, c, b, c);
    v' := With(v, w, b, c);
    Extend(n, kinds, With(v, w, a, c), w, LoadLwm, v');
  }

  /** commitTX of a transaction that wrote nothing. */
  lemma Finish(n: nat, kinds: set<Class>, v: World, w: nat) returns (v': World)
    requires At(n, kinds, v, w) && v.sys.workers[w].phase.Active?
    ensures At(n, kinds, v', w) && v' == With(v, w, v.sys.workers[w].(phase := Committed), v.sys.clock)
  {
    v' := With(v, w, v.sys.workers[w].(phase := Committed), v.sys.clock);
    Extend(n, kinds, v, w, Commit(false), v');
  }

  /** No refresh after a commit. */
  lemma Leave(n: nat, kinds: set<Class>, v: World, w: nat) returns (v': World)
    requires At(n, kinds, v, w) && v.sys.workers[w].phase.Committed?
    ensures At(n, kinds, v', w) && v' == With(v, w, v.sys.workers[w].(phase := Idle), v.sys.clock)
  {
    v' := With(v, w, v.sys.workers[w].(phase := Idle), v.sys.clock);
    Extend(n, kinds, v, w, SkipRefresh, v');
  }

  /** The worker after a transaction that began in s and wrote nothing. */
  function Ran(s: Sys, w: nat, olap: bool): (my: Worker)
    requires w < |s.workers|
  {
    Started(s, w, olap).(phase := Idle)
  }

  /** A whole transaction that writes nothing. */
  lemma Pass(n: nat, kinds: set<Class>, v: World, w: nat, olap: bool) returns (v': World)
    requires At(n, kinds, v, w) && v.sys.workers[w].phase.Idle? && |v.sys.workers[w].tree| < Capacity(v.sys)
    ensures At(n, kinds, v', w) && v' == With(v, w, Ran(v.sys, w, olap), v.sys.clock + 1)
  {
    var (a, c) := (Started(v.sys, w, olap), v.sys.clock + 1);
    var v1 := Begin(n, kinds, v, w, olap);
    var v2 := Finish(n, kinds, v1, w);
    WithTwice(v, w, a, c, a.(phase := Committed), c);
    v' := Leave(n, kinds, v2, w);
    WithTwice(v, w, a.(phase := Committed), c, a.(phase := Idle), c);
  }

  /** The worker and the world after a transaction that wrote. */
  function Wrote(s: Sys, w: nat): (my: Worker)
    requires w < |s.workers|
  {
    var my := Ran(s, w, false);
    my.(tree := my.tree + [Entry(s.clock + 1, s.clock)], latestWrite := s.clock + 1)
  }

  function AfterWrite(v: World, w: nat): (r: World)
    requires w < |v.sys.workers| == |v.hist|
  {
    World(Put(v.sys, w, Wrote(v.sys, w)).(clock := v.sys.clock + 2),
          v.hist[w := v.hist[w] + [Entry(v.sys.clock + 1, v.sys.clock)]])
  }

  /** A whole OLTP transaction that writes. */
  lemma Write(n: nat, kinds: set<Class>, v: World, w: nat) returns (v': World)
    requires At(n, kinds, v, w) && v.sys.workers[w].phase.Idle? && |v.sys.workers[w].tree| < Capacity(v.sys)
    ensures At(n, kinds, v', w) && v' == AfterWrite(v, w)
  {
    var v1 := Begin(n, kinds, v, w, false);
    var v2 := FinishWrite(n, kinds, v1, w);
    v' := Leave(n, kinds, v2, w);
    WroteState(v, w, v1, v2, v');
  }

  lemma WroteState(v: World, w: nat, v1: World, v2: World, v': World)
    requires w < |v.sys.workers| == |v.hist|
    requires v1 == With(v, w, Started(v.sys, w, false), v.sys.clock + 1)
    requires v2 == Finished(v1, w) && v' == With(v2, w, v2.sys.workers[w].(phase := Idle), v2.sys.clock)
    ensures v' == AfterWrite(v, w)
  {
    assert v'.sys.workers == AfterWrite(v, w).sys.workers;
  }

  function Finished(v: World, w: nat): (r: World)
    requires w < |v.sys.workers| == |v.hist|
  {
    var (my, e) := (v.sys.workers[w], Entry(v.sys.clock, v.sys.workers[w].start));
    World(Put(v.sys, w, my.(phase := Committed, tree := my.tree + [e], latestWrite := v.sys.clock))
      .(clock := v.sys.clock + 1),
          v.hist[w := v.hist[w] + [e]])
  }

  lemma FinishWrite(n: nat, kinds: set<Class>, v: World, w: nat) returns (v': World)
    requires At(n, kinds, v, w) && v.sys.workers[w].phase.Active? && |v.sys.workers[w].tree| < Capacity(v.sys)
    ensures At(n, kinds, v', w) && v' == Finished(v, w)
  {
    v' := Finished(v, w);
    Extend(n, kinds, v, w, Commit(true), v');
  }

  // ----- refreshes

  /** A transaction that has just committed starts a refresh. */
  lemma Enter(n: nat, kinds: set<Class>, v: World, w: nat) returns (v': World)
    requires At(n, kinds, v, w) && v.sys.workers[w].phase.Committed? && v.sys.mutex.None?
    requires ClassOf(v.sys.workers[w]) in kinds
    ensures At(n, kinds, v', w)
    ensures v' == World(Put(v.sys, w, v.sys.workers[w].(phase := Scanning(0, None, 0, None))).(mutex := Some(w)),
            v.hist)
  {
    v' := World(Put(v.sys, w, v.sys.workers[w].(phase := Scanning(0, None, 0, None))).(mutex := Some(w)), v.hist);
    Extend(n, kinds, v, w, BeginRefresh, v');
  }

  /** One more word of a scan. */
  lemma ReadOne(n: nat, kinds: set<Class>, v: World, w: nat) returns (v': World)
    requires At(n, kinds, v, w) && v.sys.workers[w].phase.Scanning? && v.sys.workers[w].phase.next < |v.hist|
    requires !v.sys.workers[v.sys.workers[w].phase.next].word.latched
    ensures At(n, kinds, v', w)
    ensures var my := v.sys.workers[w];
            v' == With(v, w, my.(phase := ScanWord(my.phase, v.sys.workers[my.phase.next].word)), v.sys.clock)
  {
    var my := v.sys.workers[w];
    v' := With(v, w, my.(phase := ScanWord(my.phase, v.sys.workers[my.phase.next].word)), v.sys.clock);
    Extend(n, kinds, v, w, RefreshRead, v');
  }

  /** A word on the OLAP side of b or on the OLTP side of t. */
  predicate OnSide(word: Word, b: nat, t: nat) {
    !word.latched && if word.olap then word.ts <= b else t <= word.ts
  }

  /**
    What a scan has found after its first word: the newest OLAP timestamp is from `low` to `olap`, no OLTP one is below
    `oltp` and there is one if worker x has been passed, and the oldest is at most `top`.
   */
  datatype Bounds = Bounds(low: nat, olap: nat, oltp: nat, x: nat, top: nat)

  predicate Found(p: Phase, f: Bounds) {
    && p.Scanning? && p.next > 0 && f.low <= p.newestOlap <= f.olap && p.oldest.Some? && p.oldest.value <= f.top
    && (p.oldestOltp.Some? ==> f.oltp <= p.oldestOltp.value) && (f.x < p.next ==> p.oldestOltp.Some?)
  }

  /** The rest of a scan, of words that are all on one of the two sides. */
  lemma {:induction false} ReadRest(n: nat, kinds: set<Class>, v: World, w: nat, f: Bounds) returns (v': World)
    requires At(n, kinds, v, w) && Found(v.sys.workers[w].phase, f) && v.sys.workers[w].phase.next <= |v.hist|
    requires forall o | v.sys.workers[w].phase.next <= o < |v.hist| :: OnSide(v.sys.workers[o].word, f.olap, f.oltp)
    requires f.x < |v.hist| ==> !v.sys.workers[f.x].word.olap
    ensures At(n, kinds, v', w) && Found(v'.sys.workers[w].phase, f) && v'.sys.workers[w].phase.next == |v.hist|
    ensures v' == With(v, w, v.sys.workers[w].(phase := v'.sys.workers[w].phase), v.sys.clock)
    decreases |v.hist| - v.sys.workers[w].phase.next
  {
    var (my, c) := (v.sys.workers[w], v.sys.clock);
    if my.phase.next == |v.hist| {
      v' := v;
      assert v.sys.workers[w := my] == v.sys.workers;
    } else {
      var v1 := ReadOne(n, kinds, v, w);
      assert OnSide(v.sys.workers[my.phase.next].word, f.olap, f.oltp);
      FoundNext(my.phase, v.sys.workers[my.phase.next].word, f);
      WordsSame(v, w, v1);
      v' := ReadRest(n, kinds, v1, w, f);
      WithTwice(v, w, v1.sys.workers[w], c, v'.sys.workers[w], c);
    }
  }

  lemma FoundNext(p: Phase, word: Word, f: Bounds)
    requires Found(p, f) && OnSide(word, f.olap, f.oltp) && (f.x == p.next ==> !word.olap)
    ensures Found(ScanWord(p, word), f)
  {
  }

  /** A whole scan. */
  lemma ReadAll(n: nat, kinds: set<Class>, v: World, w: nat, f: Bounds) returns (v': World)
    requires At(n, kinds, v, w) && v.sys.workers[w].phase == Scanning(0, None, 0, None)
    requires forall o | 0 <= o < |v.hist| :: OnSide(v.sys.workers[o].word, f.olap, f.oltp)
    requires f.x < |v.hist| ==> !v.sys.workers[f.x].word.olap
    requires var word := v.sys.workers[0].word; word.ts <= f.top && (if word.olap then f.low <= word.ts else f.low == 0)
    ensures At(n, kinds, v', w) && Found(v'.sys.workers[w].phase, f) && v'.sys.workers[w].phase.next == |v.hist|
    ensures v' == With(v, w, v.sys.workers[w].(phase := v'.sys.workers[w].phase), v.sys.clock)
  {
    var (my, c) := (v.sys.workers[w], v.sys.clock);
    var v1 := ReadOne(n, kinds, v, w);
    assert OnSide(v.sys.workers[0].word, f.olap, f.oltp);
    WordsSame(v, w, v1);
    v' := ReadRest(n, kinds, v1, w, f);
    WithTwice(v, w, v1.sys.workers[w], c, v'.sys.workers[w], c);
  }

  lemma WordsSame(v: World, w: nat, v1: World)
    requires |v.sys.workers| == |v1.sys.workers| && w < |v.sys.workers|
    requires v1.sys.workers[w].word == v.sys.workers[w].word
    requires forall o | 0 <= o < |v.sys.workers| && o != w :: v1.sys.workers[o] == v.sys.workers[o]
    ensures forall o | 0 <= o < |v.sys.workers| :: v1.sys.workers[o].word == v.sys.workers[o].word
  {
  }

  /** The first two stores at the end of a scan. */
  lemma StoreTwo(n: nat, kinds: set<Class>, v: World, w: nat) returns (v': World)
    requires At(n, kinds, v, w) && v.sys.workers[w].phase.Scanning?
    requires v.sys.workers[w].phase.next == |v.hist| && v.sys.workers[w].phase.oldest.Some?
    ensures At(n, kinds, v', w)
    ensures var (my, p) := (v.sys.workers[w], v.sys.workers[w].phase);
            v' == World(Put(v.sys, w, my.(phase := StoredOltp(p.newestOlap))).(oldestAll := p.oldest.value,
                                                                                 oldestOltp := p.oldestOltp), v.hist)
  {
    var (my, p) := (v.sys.workers[w], v.sys.workers[w].phase);
    var a := my.(phase := StoredAll(p.newestOlap, p.oldestOltp));
    var v1 := World(Put(v.sys, w, a).(oldestAll := p.oldest.value), v.hist);
    Extend(n, kinds, v, w, StoreOldest, v1);
    var b := my.(phase := StoredOltp(p.newestOlap));
    v' := World(Put(v1.sys, w, b).(oldestOltp := p.oldestOltp), v.hist);
    Extend(n, kinds, v1, w, StoreOltp, v');
    assert v.sys.workers[w := a][w := b] == v.sys.workers[w := b];
  }

  /** The last one. */
  lemma StoreLast(n: nat, kinds: set<Class>, v: World, w: nat) returns (v': World)
    requires At(n, kinds, v, w) && v.sys.workers[w].phase.StoredOltp?
    ensures At(n, kinds, v', w)
    ensures v' == World(Put(v.sys, w, v.sys.workers[w].(phase := Delivering(0, None, false)))
                          .(newestOlap := v.sys.workers[w].phase.newestOlap), v.hist)
  {
    v' := World(Put(v.sys, w, v.sys.workers[w].(phase := Delivering(0, None, false)))
                  .(newestOlap := v.sys.workers[w].phase.newestOlap), v.hist);
    Extend(n, kinds, v, w, StoreOlap, v');
  }

  // ----- the second loop

  /** What delivering leaves alone. */
  ghost predicate Undisturbed(v: World, v': World, w: nat) {
    && v'.hist == v.hist && |v'.sys.workers| == |v.sys.workers| && v'.sys.clock == v.sys.clock
    && v'.sys.newestOlap == v.sys.newestOlap && v'.sys.oldestOltp == v.sys.oldestOltp
    && v'.sys.oldestAll == v.sys.oldestAll
    && forall o | 0 <= o < |v.sys.workers| :: SameWorker(v.sys.workers[o], v'.sys.workers[o], o == w)
  }

  ghost predicate SameWorker(my: Worker, my': Worker, moves: bool) {
    && my'.start == my.start && my'.olap == my.olap && my'.word == my.word && my'.tree == my.tree
    && my'.cache == my.cache && my'.cacheTs == my.cacheTs && (moves || my'.phase == my.phase)
  }

  lemma UndisturbedTwice(a: World, b: World, c: World, w: nat)
    requires Undisturbed(a, b, w) && Undisturbed(b, c, w)
    ensures Undisturbed(a, c, w)
  {
    forall o | 0 <= o < |a.sys.workers|
      ensures SameWorker(a.sys.workers[o], c.sys.workers[o], o == w)
    {
      assert SameWorker(a.sys.workers[o], b.sys.workers[o], o == w);
      assert SameWorker(b.sys.workers[o], c.sys.workers[o], o == w);
    }
  }

  /** The watermark computed so far is 0, unless a worker was skipped. */
  predicate Low(p: Phase, x: nat) {
    p.Delivering? && (x < p.next && !p.skipped ==> p.lwm == Some(0))
  }

  lemma DeliverOne(n: nat, kinds: set<Class>, v: World, w: nat, x: nat) returns (v': World)
    requires At(n, kinds, v, w) && v.sys.workers[w].phase.Delivering? && v.sys.workers[w].phase.next < |v.hist|
    requires Low(v.sys.workers[w].phase, x) && x < |v.hist| && StartLCB(v.sys.workers[x].tree, v.sys.oldestAll) == 0
    ensures At(n, kinds, v', w) && Undisturbed(v, v', w) && Low(v'.sys.workers[w].phase, x)
    ensures v'.sys.workers[w].phase.next == v.sys.workers[w].phase.next + 1
    ensures v'.sys.allLwm == v.sys.allLwm && v'.sys.mutex == v.sys.mutex
  {
    v' := World(Step(v.sys, w, Deliver).sys, v.hist);
    Extend(n, kinds, v, w, Deliver, v');
  }

  lemma {:induction false} DeliverAll(n: nat, kinds: set<Class>, v: World, w: nat, x: nat) returns (v': World)
    requires At(n, kinds, v, w) && v.sys.workers[w].phase.Delivering? && v.sys.workers[w].phase.next <= |v.hist|
    requires Low(v.sys.workers[w].phase, x) && x < |v.hist| && StartLCB(v.sys.workers[x].tree, v.sys.oldestAll) == 0
    ensures At(n, kinds, v', w) && Undisturbed(v, v', w) && Low(v'.sys.workers[w].phase, x)
    ensures v'.sys.workers[w].phase.next == |v.hist|
    ensures v'.sys.allLwm == v.sys.allLwm && v'.sys.mutex == v.sys.mutex
    decreases |v.hist| - v.sys.workers[w].phase.next
  {
    if v.sys.workers[w].phase.next == |v.hist| {
      v' := v;
    } else {
      var v1 := DeliverOne(n, kinds, v, w, x);
      assert SameWorker(v.sys.workers[x], v1.sys.workers[x], x == w);
      v' := DeliverAll(n, kinds, v1, w, x);
      UndisturbedTwice(v, v1, v', w);
    }
  }

  /** The end of a refresh that leaves the global watermark at 0. */
  lemma End(n: nat, kinds: set<Class>, v: World, w: nat, x: nat) returns (v': World)
    requires At(n, kinds, v, w) && v.sys.workers[w].phase.Delivering? && v.sys.workers[w].phase.next == |v.hist|
    requires Low(v.sys.workers[w].phase, x) && x < |v.hist| && v.sys.allLwm == 0
    ensures At(n, kinds, v', w) && Undisturbed(v, v', w) && v'.sys.workers[w].phase.Idle?
    ensures v'.sys.allLwm == 0 && v'.sys.mutex == None
  {
    v' := World(Step(v.sys, w, EndRefresh).sys, v.hist);
    Extend(n, kinds, v, w, EndRefresh, v');
  }

  /** From the last store to the end. */
  lemma FinishRefresh(n: nat, kinds: set<Class>, v: World, w: nat, x: nat) returns (v': World)
    requires At(n, kinds, v, w) && v.sys.workers[w].phase == Delivering(0, None, false) && v.sys.allLwm == 0
    requires x < |v.hist| && StartLCB(v.sys.workers[x].tree, v.sys.oldestAll) == 0
    ensures At(n, kinds, v', w) && Undisturbed(v, v', w) && v'.sys.workers[w].phase.Idle?
    ensures v'.sys.allLwm == 0 && v'.sys.mutex == None
  {
    var v1 := DeliverAll(n, kinds, v, w, x);
    v' := End(n, kinds, v1, w, x);
    UndisturbedTwice(v, v1, v', w);
  }
}
