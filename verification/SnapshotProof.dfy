/** Every step of the snapshot machine keeps its invariant. */
module SnapshotProof {
  import opened Wrappers
  import opened CommitTree
  import opened Snapshot

  // ----- what survives any step

  /** Histories only grow, and a snapshot that was not live before starts at the clock or later. */
  ghost predicate Evolves(s: Sys, h: History, s': Sys, h': History) {
    && |s.workers| == |h| == |s'.workers| == |h'| && s.clock <= s'.clock
    && (forall o, e | 0 <= o < |h| && e in h[o] :: e in h'[o])
    && (forall o | 0 <= o < |h| && Live(s'.workers[o]) ::
          (Live(s.workers[o]) && s'.workers[o].start == s.workers[o].start) || s.clock <= s'.workers[o].start)
  }

  lemma SafeLwmStays(s: Sys, h: History, s': Sys, h': History, o: nat, lwm: nat)
    requires Evolves(s, h, s', h') && o < |h| && SafeLwm(s, h[o], lwm)
    ensures SafeLwm(s', h'[o], lwm)
  {
    if lwm != 0 {
      var e :| e in h[o] && lwm <= e.start && Settled(s, e);
      assert e in h'[o] && Settled(s', e);
    }
  }

  lemma LwmsStay(s: Sys, h: History, s': Sys, h': History)
    requires Evolves(s, h, s', h') && Lwms(s, h)
    ensures forall o, lwm | 0 <= o < |h| && SafeLwm(s, h[o], lwm) :: SafeLwm(s', h'[o], lwm)
    ensures forall ts | NotYounger(s, ts) :: NotYounger(s', ts)
  {
    forall o, lwm | 0 <= o < |h| && SafeLwm(s, h[o], lwm)
      ensures SafeLwm(s', h'[o], lwm)
    {
      SafeLwmStays(s, h, s', h', o, lwm);
    }
  }

  lemma SafeLwmDown(s: Sys, h: seq<Entry>, lwm: nat, lower: nat)
    requires SafeLwm(s, h, lwm) && lower <= lwm
    ensures SafeLwm(s, h, lower)
  {
  }

  /** A worker that does not move keeps its part of the refresh. */
  lemma RefreshStays(s: Sys, h: History, s': Sys, h': History, w: nat)
    requires Evolves(s, h, s', h') && Lwms(s, h) && w < |h| && RefreshOk(s, h, w)
    requires s'.workers[w].phase == s.workers[w].phase
    ensures RefreshOk(s', h', w)
  {
    LwmsStay(s, h, s', h');
  }

  lemma CoveredByLast(tree: seq<Entry>, keep: set<Entry>, ts: nat)
    requires tree != [] && tree[|tree| - 1].commit < ts && tree[|tree| - 1] in keep
    ensures Covered(tree, keep, ts)
  {
  }

  lemma TreeBelowClock(s: Sys, h: History, w: nat)
    requires |s.workers| == |h| && Locals(s, h) && w < |h| && s.workers[w].tree != []
    ensures s.workers[w].tree[|s.workers[w].tree| - 1].commit < s.clock
  {
    assert TreeOk(|h|, s.workers[w], h[w]) && HistoryOk(s.clock, s.workers[w], h[w]);
  }

  /** A cleaner that does not move keeps what it collected, although the workers it has read move on. */
  lemma CleaningStays(s: Sys, h: History, s': Sys, h': History, w: nat)
    requires Evolves(s, h, s', h') && w < |h| && CleaningOk(s, w)
    requires s.workers[w].tree != [] ==> s.workers[w].tree[|s.workers[w].tree| - 1].commit < s.clock
    requires s'.workers[w].phase == s.workers[w].phase && s'.workers[w].tree == s.workers[w].tree
    ensures CleaningOk(s', w)
  {
    var my := s.workers[w];
    if my.phase.Cleaning? {
      forall o | 0 <= o < my.phase.next && o != w && Live(s'.workers[o])
        ensures Covered(my.tree, my.phase.keep, s'.workers[o].start)
      {
        if s.clock <= s'.workers[o].start {
          CoveredByLast(my.tree, my.phase.keep, s'.workers[o].start);
        }
      }
    }
  }

  /** No tree, history, start timestamp or clock changes, and no snapshot comes to life. */
  ghost predicate Calm(s: Sys, s': Sys) {
    && |s'.workers| == |s.workers| && s'.clock == s.clock
    && forall o | 0 <= o < |s.workers| ::
         && s'.workers[o].start == s.workers[o].start && s'.workers[o].tree == s.workers[o].tree
         && (Live(s'.workers[o]) ==> Live(s.workers[o]))
  }

  ghost predicate CachesKept(s: Sys, s': Sys) {
    forall o | 0 <= o < |s.workers| && o < |s'.workers| ::
      s'.workers[o].cache == s.workers[o].cache && s'.workers[o].cacheTs == s.workers[o].cacheTs
  }

  /** Only worker w has moved. */
  ghost predicate Moves(s: Sys, s': Sys, w: nat) {
    && |s'.workers| == |s.workers|
    && forall o | 0 <= o < |s.workers| && o != w ::
         && s'.workers[o].phase == s.workers[o].phase && s'.workers[o].word == s.workers[o].word
         && s'.workers[o].olap == s.workers[o].olap
  }

  lemma CalmLocals(s: Sys, h: History, s': Sys, w: nat)
    requires |s.workers| == |h| && Locals(s, h) && w < |h| && Calm(s, s') && Moves(s, s', w)
    requires WordOk(s'.workers[w]) && TreeOk(|h|, s'.workers[w], h[w])
    ensures Locals(s', h)
  {
    forall o | 0 <= o < |h|
      ensures HistoryOk(s'.clock, s'.workers[o], h[o]) && WordOk(s'.workers[o]) && TreeOk(|h|, s'.workers[o], h[o])
    {
      assert HistoryOk(s.clock, s.workers[o], h[o]) && WordOk(s.workers[o]) && TreeOk(|h|, s.workers[o], h[o]);
    }
  }

  lemma CalmExacts(s: Sys, h: History, s': Sys)
    requires |s.workers| == |h| && Exacts(s, h) && Calm(s, s')
    ensures Exacts(s', h)
  {
    forall w, o | 0 <= w < |h| && 0 <= o < |h| && o != w && Live(s'.workers[o])
      ensures Exact(s'.workers[w], h[w], s'.workers[o].start)
    {
      assert Exact(s.workers[w], h[w], s.workers[o].start);
    }
  }

  lemma CalmEvolves(s: Sys, h: History, s': Sys)
    requires |s.workers| == |h| && Calm(s, s')
    ensures Evolves(s, h, s', h)
  {
  }

  lemma CalmCaches(s: Sys, h: History, s': Sys)
    requires Shape(s, h) && Caches(s, h) && Calm(s, s') && Shape(s', h) && CachesKept(s, s')
    ensures Caches(s', h)
  {
    forall i, o | 0 <= i < |h| && 0 <= o < |h|
      ensures CacheOk(s', h, i, o)
    {
      assert CacheOk(s, h, i, o);
    }
  }

  lemma CalmOthers(s: Sys, h: History, s': Sys, w: nat)
    requires |s.workers| == |h| && Locals(s, h) && Cleanings(s) && Refreshes(s, h) && Lwms(s, h)
    requires Evolves(s, h, s', h) && Calm(s, s') && Moves(s, s', w)
    ensures forall o | 0 <= o < |h| && o != w :: CleaningOk(s', o) && RefreshOk(s', h, o)
  {
    forall o | 0 <= o < |h| && o != w
      ensures CleaningOk(s', o) && RefreshOk(s', h, o)
    {
      if s.workers[o].tree != [] {
        TreeBelowClock(s, h, o);
      }
      CleaningStays(s, h, s', h, o);
      RefreshStays(s, h, s', h, o);
    }
  }

  lemma CalmKeeps(s: Sys, h: History, s': Sys, w: nat)
    requires Inv(s, h) && w < |h| && Calm(s, s') && Moves(s, s', w)
    requires WordOk(s'.workers[w]) && TreeOk(|h|, s'.workers[w], h[w])
    ensures Evolves(s, h, s', h)
    ensures Locals(s', h) && Exacts(s', h)
    ensures forall o | 0 <= o < |h| && o != w :: CleaningOk(s', o) && RefreshOk(s', h, o)
    ensures forall o, lwm | 0 <= o < |h| && SafeLwm(s, h[o], lwm) :: SafeLwm(s', h[o], lwm)
    ensures forall ts | NotYounger(s, ts) :: NotYounger(s', ts)
    ensures Shape(s', h) && CachesKept(s, s') ==> Caches(s', h)
  {
    CalmEvolves(s, h, s');
    LwmsStay(s, h, s', h);
    CalmLocals(s, h, s', w);
    CalmExacts(s, h, s');
    CalmOthers(s, h, s', w);
    if Shape(s', h) && CachesKept(s, s') {
      CalmCaches(s, h, s');
    }
  }

  /** The parts of the invariant, put together. */
  lemma Assemble(s': Sys, h: History, w: nat)
    requires 2 <= |h| && Shape(s', h) && w < |h| && Locals(s', h) && Exacts(s', h) && Lwms(s', h) && Caches(s', h)
    requires CleaningOk(s', w) && RefreshOk(s', h, w)
    requires forall o | 0 <= o < |h| && o != w :: CleaningOk(s', o) && RefreshOk(s', h, o)
    ensures Inv(s', h)
  {
  }

  ghost predicate LwmsKept(s: Sys, s': Sys) {
    && |s'.workers| == |s.workers| && s'.oldestAll == s.oldestAll && s'.allLwm == s.allLwm
    && forall o | 0 <= o < |s.workers| ::
         && s'.workers[o].received == s.workers[o].received && s'.workers[o].purged == s.workers[o].purged
         && s'.workers[o].lwmCache == s.workers[o].lwmCache
  }

  /** The parts of the invariant that speak of worker w alone. */
  ghost predicate MineOk(s: Sys, h: History, w: nat)
    requires w < |s.workers| == |h|
  {
    && WordOk(s.workers[w]) && TreeOk(|h|, s.workers[w], h[w]) && CleaningOk(s, w) && RefreshOk(s, h, w)
  }

  lemma InvMine(s: Sys, h: History, w: nat)
    requires Inv(s, h) && w < |h|
    ensures MineOk(s, h, w) && HistoryOk(s.clock, s.workers[w], h[w])
  {
  }

  /** A step that moves only w, and no watermark. */
  ghost predicate Quiet(s: Sys, s': Sys, w: nat) {
    Calm(s, s') && Moves(s, s', w) && CachesKept(s, s') && LwmsKept(s, s')
  }

  lemma LwmsFromKept(s: Sys, h: History, s': Sys)
    requires |s.workers| == |h| && Lwms(s, h) && LwmsKept(s, s')
    requires forall o, lwm | 0 <= o < |h| && SafeLwm(s, h[o], lwm) :: SafeLwm(s', h[o], lwm)
    requires forall ts | NotYounger(s, ts) :: NotYounger(s', ts)
    ensures Lwms(s', h)
  {
  }

  lemma QuietKeeps(s: Sys, h: History, s': Sys, w: nat)
    requires Inv(s, h) && w < |h| && Quiet(s, s', w) && MineOk(s', h, w)
    ensures Inv(s', h)
  {
    CalmKeeps(s, h, s', w);
    LwmsFromKept(s, h, s');
    Assemble(s', h, w);
  }

  // ----- steps that move one worker from phase to phase

  predicate IsPlain(e: Event) {
    e.Latch? || e.Publish? || e == Commit(false) || e.SkipRefresh? || e.BeginRefresh? || e.StoreOltp? || e.StoreOlap?
  }

  lemma PlainShape(v: World, w: nat, e: Event, v': World)
    requires StepTo(v, w, e, v') && IsPlain(e)
    ensures Quiet(v.sys, v'.sys, w) && v'.hist == v.hist
  {
  }

  lemma PlainMine(v: World, w: nat, e: Event, v': World)
    requires StepTo(v, w, e, v') && IsPlain(e) && MineOk(v.sys, v.hist, w)
    ensures |v'.sys.workers| == |v.hist| && MineOk(v'.sys, v.hist, w)
  {
    PlainWord(v, w, e, v');
    PlainPhase(v, w, e, v');
  }

  lemma PlainWord(v: World, w: nat, e: Event, v': World)
    requires StepTo(v, w, e, v') && IsPlain(e) && WordOk(v.sys.workers[w])
    requires TreeOk(|v.hist|, v.sys.workers[w], v.hist[w])
    ensures |v'.sys.workers| == |v.hist| && WordOk(v'.sys.workers[w]) && TreeOk(|v.hist|, v'.sys.workers[w], v.hist[w])
  {
  }

  lemma PlainPhase(v: World, w: nat, e: Event, v': World)
    requires StepTo(v, w, e, v') && IsPlain(e) && TreeOk(|v.hist|, v.sys.workers[w], v.hist[w])
    ensures |v'.sys.workers| == |v.hist| && CleaningOk(v'.sys, w) && RefreshOk(v'.sys, v.hist, w)
  {
  }

  lemma PlainKeeps(v: World, w: nat, e: Event, v': World)
    requires Inv(v.sys, v.hist) && StepTo(v, w, e, v') && IsPlain(e)
    ensures Inv(v'.sys, v'.hist)
  {
    InvMine(v.sys, v.hist, w);
    PlainShape(v, w, e, v');
    PlainMine(v, w, e, v');
    QuietKeeps(v.sys, v.hist, v'.sys, w);
  }

  // ----- cleaning

  lemma CleanReadShape(v: World, w: nat, v': World)
    requires StepTo(v, w, CleanRead, v')
    ensures Quiet(v.sys, v'.sys, w) && v'.hist == v.hist
    ensures var my := v.sys.workers[w];
            && my.phase.Cleaning? && my.phase.next < |v.sys.workers| && my.tree != []
            && var it := v.sys.workers[my.phase.next];
            && (my.phase.next != w ==> !it.word.latched)
            && v'.sys.workers[w] == my.(phase := Cleaning(my.phase.next + 1,
                 if my.phase.next == w then my.phase.keep else my.phase.keep + KeepFor(my.tree, it.word.ts)))
  {
  }

  lemma AddOne(keep: set<Entry>, more: set<Entry>, last: Entry, x: Entry)
    requires more <= {last, x}
    ensures |keep + more + {last}| <= |keep + {last}| + 1
  {
    var (all, base) := (keep + more + {last}, keep + {last});
    assert all <= base + {x};
    SubsetSize(all, base + {x});
  }

  lemma {:induction false} SubsetSize(a: set<Entry>, b: set<Entry>)
    requires a <= b
    ensures |a| <= |b|
    decreases |a|
  {
    if a != {} {
      var x :| x in a;
      SubsetSize(a - {x}, b - {x});
    }
  }

  /** Reading one more snapshot covers it and costs at most one slot. */
  lemma KeepForCovers(tree: seq<Entry>, keep: set<Entry>, ts: nat)
    requires tree != [] && (forall e | e in keep :: e in tree)
    ensures var (keep', last) := (keep + KeepFor(tree, ts), tree[|tree| - 1]);
            && (ts != 0 ==> Covered(tree, keep', ts))
            && last in keep' && (forall e | e in keep' :: e in tree)
            && |keep' + {last}| <= |keep + {last}| + 1
            && forall t | Covered(tree, keep, t) :: Covered(tree, keep', t)
  {
    var last := tree[|tree| - 1];
    var x := if ts == 0 then tree[0] else match LCB(tree, ts) case None => last case Some(e) => e;
    AddOne(keep, KeepFor(tree, ts), last, x);
  }

  /** The collected set after one read, for a cleaner whose worker list has not come to life meanwhile. */
  lemma CleaningGrows(s: Sys, s': Sys, w: nat)
    requires w < |s.workers| && CleaningOk(s, w) && Calm(s, s')
    requires var my := s.workers[w];
             && my.phase.Cleaning? && my.phase.next < |s.workers|
             && var i := my.phase.next;
             && WordOk(s.workers[i])
             && (i != w ==> !s.workers[i].word.latched)
             && (i != w && Live(s.workers[i]) ==> s.workers[i].start != 0)
             && s'.workers[w] == my.(phase := Cleaning(i + 1,
                  if i == w then my.phase.keep else my.phase.keep + KeepFor(my.tree, s.workers[i].word.ts)))
    ensures CleaningOk(s', w)
  {
    var my := s.workers[w];
    var i := my.phase.next;
    KeepForCovers(my.tree, my.phase.keep, s.workers[i].word.ts);
    forall o | 0 <= o < i + 1 && o != w && Live(s'.workers[o])
      ensures Covered(my.tree, s'.workers[w].phase.keep, s'.workers[o].start)
    {
      assert o < i ==> Covered(my.tree, my.phase.keep, s.workers[o].start);
    }
  }

  lemma CleanReadMine(v: World, w: nat, v': World)
    requires StepTo(v, w, CleanRead, v') && MineOk(v.sys, v.hist, w)
    requires forall i | 0 <= i < |v.hist| ::
             WordOk(v.sys.workers[i]) && HistoryOk(v.sys.clock, v.sys.workers[i], v.hist[i])
    ensures MineOk(v'.sys, v.hist, w)
  {
    CleanReadShape(v, w, v');
    CleanReadGrows(v, w, v');
    CleaningMine(v.hist, v.sys.workers[w], v'.sys.workers[w], w);
  }

  lemma CleanReadGrows(v: World, w: nat, v': World)
    requires StepTo(v, w, CleanRead, v') && CleaningOk(v.sys, w)
    requires forall i | 0 <= i < |v.hist| ::
             WordOk(v.sys.workers[i]) && HistoryOk(v.sys.clock, v.sys.workers[i], v.hist[i])
    ensures CleaningOk(v'.sys, w)
  {
    CleanReadShape(v, w, v');
    CleaningGrows(v.sys, v'.sys, w);
  }

  lemma CleaningMine(h: History, my: Worker, my': Worker, w: nat)
    requires w < |h| && WordOk(my) && TreeOk(|h|, my, h[w]) && my.phase.Cleaning? && my'.phase.Cleaning?
    requires my' == my.(phase := my'.phase)
    ensures WordOk(my') && TreeOk(|h|, my', h[w])
  {
  }

  lemma CleanReadKeeps(v: World, w: nat, v': World)
    requires Inv(v.sys, v.hist) && StepTo(v, w, CleanRead, v')
    ensures Inv(v'.sys, v'.hist)
  {
    CleanReadShape(v, w, v');
    InvMine(v.sys, v.hist, w);
    CleanReadMine(v, w, v');
    QuietKeeps(v.sys, v.hist, v'.sys, w);
  }

  // ----- refreshing the watermarks

  lemma RefreshReadShape(v: World, w: nat, v': World)
    requires StepTo(v, w, RefreshRead, v')
    ensures Quiet(v.sys, v'.sys, w) && v'.hist == v.hist
    ensures var my := v.sys.workers[w];
            && my.phase.Scanning? && my.phase.next < |v.sys.workers|
            && v'.sys.workers[w] == my.(phase := ScanWord(my.phase, v.sys.workers[my.phase.next].word))
  {
  }

  lemma RefreshReadMine(v: World, w: nat, v': World)
    requires Inv(v.sys, v.hist) && StepTo(v, w, RefreshRead, v')
    ensures MineOk(v'.sys, v.hist, w)
  {
    RefreshReadShape(v, w, v');
    InvMine(v.sys, v.hist, w);
    InvMine(v.sys, v.hist, v.sys.workers[w].phase.next);
    RefreshReadScan(v.sys, v.hist, w, v'.sys);
    RefreshReadSame(v.hist, v.sys.workers[w], v'.sys.workers[w], w);
  }

  lemma RefreshReadScan(s: Sys, h: History, w: nat, s': Sys)
    requires |s.workers| == |h| && w < |h| && Calm(s, s') && RefreshOk(s, h, w)
    requires var my := s.workers[w];
             && my.phase.Scanning? && my.phase.next < |h|
             && var it := s.workers[my.phase.next];
             && WordOk(it) && HistoryOk(s.clock, it, h[my.phase.next])
             && s'.workers[w] == my.(phase := ScanWord(my.phase, it.word))
    ensures RefreshOk(s', h, w)
  {
  }

  lemma RefreshReadSame(h: History, my: Worker, my': Worker, w: nat)
    requires w < |h| && WordOk(my) && TreeOk(|h|, my, h[w]) && my.phase.Scanning? && my'.phase.Scanning?
    requires my' == my.(phase := my'.phase)
    ensures WordOk(my') && TreeOk(|h|, my', h[w])
  {
  }

  lemma RefreshReadKeeps(v: World, w: nat, v': World)
    requires Inv(v.sys, v.hist) && StepTo(v, w, RefreshRead, v')
    ensures Inv(v'.sys, v'.hist)
  {
    RefreshReadShape(v, w, v');
    RefreshReadMine(v, w, v');
    QuietKeeps(v.sys, v.hist, v'.sys, w);
  }

  predicate IsLwmStep(e: Event) {
    e.LoadLwm? || e.StoreOldest? || e.EndRefresh? || e.Purge? || e.Deliver?
  }

  lemma LwmFrame(v: World, w: nat, e: Event, v': World)
    requires StepTo(v, w, e, v') && IsLwmStep(e)
    ensures Calm(v.sys, v'.sys) && Moves(v.sys, v'.sys, w) && CachesKept(v.sys, v'.sys) && v'.hist == v.hist
  {
    if e.Deliver? {
      DeliverFrame(v, w, v');
    } else {
      OtherLwmFrame(v, w, e, v');
    }
  }

  lemma DeliverFrame(v: World, w: nat, v': World)
    requires StepTo(v, w, Deliver, v')
    ensures Calm(v.sys, v'.sys) && Moves(v.sys, v'.sys, w) && CachesKept(v.sys, v'.sys) && v'.hist == v.hist
  {
  }

  lemma OtherLwmFrame(v: World, w: nat, e: Event, v': World)
    requires StepTo(v, w, e, v') && IsLwmStep(e) && !e.Deliver?
    ensures Calm(v.sys, v'.sys) && Moves(v.sys, v'.sys, w) && CachesKept(v.sys, v'.sys) && v'.hist == v.hist
  {
  }

  lemma LwmMine(v: World, w: nat, e: Event, v': World)
    requires StepTo(v, w, e, v') && IsLwmStep(e)
    ensures |v'.sys.workers| == |v.hist|
    ensures MineOk(v.sys, v.hist, w) ==> WordOk(v'.sys.workers[w]) && TreeOk(|v.hist|, v'.sys.workers[w], v.hist[w])
  {
    if e.LoadLwm? {
      LoadLwmMine(v, w, v');
    } else {
      LwmOwn(v, w, e, v');
      if MineOk(v.sys, v.hist, w) {
        StillOk(|v.hist|, v.sys.workers[w], v'.sys.workers[w], v.hist[w]);
      }
    }
  }

  lemma LoadLwmMine(v: World, w: nat, v': World)
    requires StepTo(v, w, LoadLwm, v')
    ensures |v'.sys.workers| == |v.hist|
    ensures MineOk(v.sys, v.hist, w) ==> WordOk(v'.sys.workers[w]) && TreeOk(|v.hist|, v'.sys.workers[w], v.hist[w])
  {
  }

  /** Neither a transaction nor its begin. */
  predicate Outside(my: Worker) {
    !Live(my) && !my.phase.Latched?
  }

  lemma LwmOwn(v: World, w: nat, e: Event, v': World)
    requires StepTo(v, w, e, v') && IsLwmStep(e) && !e.LoadLwm?
    ensures |v'.sys.workers| == |v.hist| && Outside(v.sys.workers[w]) && Outside(v'.sys.workers[w])
    ensures var (my, my') := (v.sys.workers[w], v'.sys.workers[w]);
            my'.tree == my.tree && my'.word == my.word && my'.olap == my.olap && my'.start == my.start
  {
  }

  lemma StillOk(n: nat, my: Worker, my': Worker, h: seq<Entry>)
    requires Outside(my) && Outside(my') && WordOk(my) && TreeOk(n, my, h)
    requires my'.tree == my.tree && my'.word == my.word && my'.olap == my.olap && my'.start == my.start
    ensures WordOk(my') && TreeOk(n, my', h)
  {
  }

  lemma LwmCleaning(v: World, w: nat, e: Event, v': World)
    requires StepTo(v, w, e, v') && IsLwmStep(e)
    ensures CleaningOk(v'.sys, w)
  {
  }

  lemma LwmRefresh(v: World, w: nat, e: Event, v': World)
    requires StepTo(v, w, e, v') && IsLwmStep(e) && !e.Deliver?
    ensures |v'.sys.workers| == |v.hist| && RefreshOk(v'.sys, v.hist, w)
  {
  }

  lemma LwmShape(v: World, w: nat, e: Event, v': World)
    requires StepTo(v, w, e, v') && IsLwmStep(e)
    ensures Calm(v.sys, v'.sys) && Moves(v.sys, v'.sys, w) && CachesKept(v.sys, v'.sys) && v'.hist == v.hist
    ensures MineOk(v.sys, v.hist, w) ==> WordOk(v'.sys.workers[w]) && TreeOk(|v.hist|, v'.sys.workers[w], v.hist[w])
    ensures CleaningOk(v'.sys, w)
    ensures !e.Deliver? ==> RefreshOk(v'.sys, v.hist, w)
  {
    LwmFrame(v, w, e, v');
    LwmMine(v, w, e, v');
    LwmCleaning(v, w, e, v');
    if !e.Deliver? {
      LwmRefresh(v, w, e, v');
    }
  }

  /** The watermark computed for one worker is safe for its history. */
  lemma DeliveredIsSafe(s: Sys, h: History, o: nat, lwm: nat)
    requires Inv(s, h) && o < |h| && lwm == StartLCB(s.workers[o].tree, s.oldestAll)
    ensures SafeLwm(s, h[o], lwm)
  {
    var r := LCB(s.workers[o].tree, s.oldestAll);
    if r.Some? {
      assert TreeOk(|h|, s.workers[o], h[o]);
      assert r.value in h[o] && Settled(s, r.value);
    }
  }

  /** Every watermark after the step is safe before it. */
  ghost predicate LwmsBefore(s: Sys, h: History, s': Sys)
    requires |s.workers| == |h| == |s'.workers|
  {
    && NotYounger(s, s'.oldestAll)
    && (forall o | 0 <= o < |h| ::
          && SafeLwm(s, h[o], s'.workers[o].received) && SafeLwm(s, h[o], s'.workers[o].purged)
          && SafeLwm(s, h[o], s'.allLwm))
    && (forall i, o | 0 <= i < |h| && 0 <= o < |h| :: SafeLwm(s, h[o], s'.workers[i].lwmCache))
  }

  lemma LwmStepKeeps(v: World, w: nat, e: Event, v': World)
    requires Inv(v.sys, v.hist) && StepTo(v, w, e, v') && IsLwmStep(e)
    requires |v'.sys.workers| == |v.hist| && LwmsBefore(v.sys, v.hist, v'.sys) && RefreshOk(v'.sys, v.hist, w)
    ensures Inv(v'.sys, v'.hist)
  {
    InvMine(v.sys, v.hist, w);
    LwmShape(v, w, e, v');
    CalmKeeps(v.sys, v.hist, v'.sys, w);
  }

  lemma LoadLwmKeeps(v: World, w: nat, v': World)
    requires Inv(v.sys, v.hist) && StepTo(v, w, LoadLwm, v')
    ensures Inv(v'.sys, v'.hist)
  {
    LwmShape(v, w, LoadLwm, v');
    LwmValues(v, w, LoadLwm, v');
    LwmStepKeeps(v, w, LoadLwm, v');
  }

  lemma PurgeKeeps(v: World, w: nat, v': World)
    requires Inv(v.sys, v.hist) && StepTo(v, w, Purge, v')
    ensures Inv(v'.sys, v'.hist)
  {
    LwmShape(v, w, Purge, v');
    LwmValues(v, w, Purge, v');
    LwmStepKeeps(v, w, Purge, v');
  }

  lemma StoreOldestKeeps(v: World, w: nat, v': World)
    requires Inv(v.sys, v.hist) && StepTo(v, w, StoreOldest, v')
    ensures Inv(v'.sys, v'.hist)
  {
    LwmShape(v, w, StoreOldest, v');
    LwmValues(v, w, StoreOldest, v');
    LwmStepKeeps(v, w, StoreOldest, v');
  }

  lemma EndRefreshKeeps(v: World, w: nat, v': World)
    requires Inv(v.sys, v.hist) && StepTo(v, w, EndRefresh, v')
    ensures Inv(v'.sys, v'.hist)
  {
    LwmShape(v, w, EndRefresh, v');
    LwmValues(v, w, EndRefresh, v');
    LwmStepKeeps(v, w, EndRefresh, v');
  }

  lemma LwmValues(v: World, w: nat, e: Event, v': World)
    requires StepTo(v, w, e, v') && IsLwmStep(e) && !e.Deliver?
    requires Lwms(v.sys, v.hist) && RefreshOk(v.sys, v.hist, w)
    ensures |v'.sys.workers| == |v.hist| && LwmsBefore(v.sys, v.hist, v'.sys)
  {
  }

  lemma DeliverShape(v: World, w: nat, v': World)
    requires StepTo(v, w, Deliver, v')
    ensures var (s, s') := (v.sys, v'.sys);
            && s.workers[w].phase.Delivering? && s.workers[w].phase.next < |s.workers| == |s'.workers|
            && var (i, phase) := (s.workers[w].phase.next, s.workers[w].phase);
            && var it := s.workers[i];
            && var lwm := StartLCB(it.tree, s.oldestAll);
            && s'.oldestAll == s.oldestAll && s'.allLwm == s.allLwm
            && (forall o | 0 <= o < |s.workers| ::
                  && s'.workers[o].purged == s.workers[o].purged && s'.workers[o].lwmCache == s.workers[o].lwmCache
                  && s'.workers[o].received == if o == i && it.lwmForTx != it.latestWrite then lwm
                     else s.workers[o].received)
            && s'.workers[w].phase == (if it.lwmForTx == it.latestWrite then Delivering(i + 1, phase.lwm, true)
                                       else Delivering(i + 1, Some(MinOf(phase.lwm, lwm)), phase.skipped))
  {
  }

  lemma DeliverKeeps(v: World, w: nat, v': World)
    requires Inv(v.sys, v.hist) && StepTo(v, w, Deliver, v')
    ensures Inv(v'.sys, v'.hist)
  {
    DeliverShape(v, w, v');
    LwmShape(v, w, Deliver, v');
    var (s, h, s') := (v.sys, v.hist, v'.sys);
    var i := s.workers[w].phase.next;
    DeliveredIsSafe(s, h, i, StartLCB(s.workers[i].tree, s.oldestAll));
    InvMine(s, h, w);
    DeliverRefresh(s, h, s', w);
    LwmStepKeeps(v, w, Deliver, v');
  }

  lemma DeliverRefresh(s: Sys, h: History, s': Sys, w: nat)
    requires Evolves(s, h, s', h) && Lwms(s, h) && w < |h| && RefreshOk(s, h, w)
    requires s.workers[w].phase.Delivering? && s.workers[w].phase.next < |h|
    requires var (i, phase) := (s.workers[w].phase.next, s.workers[w].phase);
             var lwm := StartLCB(s.workers[i].tree, s.oldestAll);
             && SafeLwm(s, h[i], lwm)
             && (|| s'.workers[w].phase == Delivering(i + 1, phase.lwm, true)
                 || s'.workers[w].phase == Delivering(i + 1, Some(MinOf(phase.lwm, lwm)), phase.skipped))
    ensures RefreshOk(s', h, w)
  {
    var (i, phase) := (s.workers[w].phase.next, s.workers[w].phase);
    var lwm := StartLCB(s.workers[i].tree, s.oldestAll);
    if !phase.skipped {
      forall o | 0 <= o < i + 1
        ensures SafeLwm(s', h[o], MinOf(phase.lwm, lwm))
      {
        DeliveredMin(s, h, s', o, if o < i then phase.lwm.value else lwm, MinOf(phase.lwm, lwm));
      }
    }
  }

  lemma DeliveredMin(s: Sys, h: History, s': Sys, o: nat, lwm: nat, low: nat)
    requires Evolves(s, h, s', h) && o < |h| && SafeLwm(s, h[o], lwm) && low <= lwm
    ensures SafeLwm(s', h[o], low)
  {
    SafeLwmDown(s, h[o], lwm, low);
    SafeLwmStays(s, h, s', h, o, low);
  }

  // ----- asking

  lemma AskShape(v: World, w: nat, o: nat, ts: nat, v': World)
    requires StepTo(v, w, Ask(o, ts), v')
    ensures Calm(v.sys, v'.sys) && Moves(v.sys, v'.sys, w) && LwmsKept(v.sys, v'.sys) && v'.hist == v.hist
    ensures var (my, my') := (v.sys.workers[w], v'.sys.workers[w]);
            && my.phase.Active? && my'.phase == my.phase && my'.word == my.word && o < |v.hist|
            && (forall i | 0 <= i < |v.hist| && i != w :: v'.sys.workers[i] == v.sys.workers[i])
            && (|| (my'.cache == my.cache && my'.cacheTs == my.cacheTs)
                || (&& o != w && StartLCB(v.sys.workers[o].tree, my.start) != 0
                    && my'.cache == my.cache[o := StartLCB(v.sys.workers[o].tree, my.start)]
                    && my'.cacheTs == my.cacheTs[o := my.start]))
  {
  }

  /** An answer read from the tree is the answer of the history. */
  lemma FreshCacheOk(s: Sys, h: History, w: nat, o: nat, c: nat)
    requires |s.workers| == |h| && w < |h| && o < |h| && w != o && Exacts(s, h) && Live(s.workers[w])
    requires c != 0 && c == StartLCB(s.workers[o].tree, s.workers[w].start)
    ensures c == StartLCB(h[o], s.workers[w].start)
    ensures exists e :: e in h[o] && e.start == c && e.commit < s.workers[w].start
  {
    assert Exact(s.workers[o], h[o], s.workers[w].start);
    var r := LCB(h[o], s.workers[w].start);
    assert r.Some? && r.value in h[o];
  }

  lemma AskCaches(s: Sys, h: History, s': Sys, w: nat, o: nat)
    requires Shape(s, h) && Exacts(s, h) && Caches(s, h) && w < |h| && o < |h|
    requires Calm(s, s') && s'.workers[w].phase == s.workers[w].phase == Active
    requires forall i | 0 <= i < |h| && i != w :: s'.workers[i] == s.workers[i]
    requires var (my, my') := (s.workers[w], s'.workers[w]);
             (|| (my'.cache == my.cache && my'.cacheTs == my.cacheTs)
              || (&& o != w && StartLCB(s.workers[o].tree, my.start) != 0
                  && my'.cache == my.cache[o := StartLCB(s.workers[o].tree, my.start)]
                  && my'.cacheTs == my.cacheTs[o := my.start]))
    ensures Shape(s', h) && Caches(s', h)
  {
    var c := StartLCB(s.workers[o].tree, s.workers[w].start);
    if o != w && c != 0 {
      FreshCacheOk(s, h, w, o, c);
    }
    forall i, j | 0 <= i < |h| && 0 <= j < |h|
      ensures CacheOk(s', h, i, j)
    {
      assert CacheOk(s, h, i, j);
    }
  }

  lemma AskKeeps(v: World, w: nat, o: nat, ts: nat, v': World)
    requires Inv(v.sys, v.hist) && StepTo(v, w, Ask(o, ts), v')
    ensures Inv(v'.sys, v'.hist)
  {
    AskShape(v, w, o, ts, v');
    AskCaches(v.sys, v.hist, v'.sys, w, o);
    InvMine(v.sys, v.hist, w);
    AskMine(v, w, o, ts, v');
    CalmKeeps(v.sys, v.hist, v'.sys, w);
    LwmsFromKept(v.sys, v.hist, v'.sys);
    Assemble(v'.sys, v'.hist, w);
  }

  lemma AskMine(v: World, w: nat, o: nat, ts: nat, v': World)
    requires StepTo(v, w, Ask(o, ts), v') && MineOk(v.sys, v.hist, w)
    ensures |v'.sys.workers| == |v.hist| && MineOk(v'.sys, v.hist, w)
  {
    AskShape(v, w, o, ts, v');
  }

  // ----- drawing a start timestamp

  lemma DrawShape(v: World, w: nat, v': World)
    requires StepTo(v, w, Draw, v')
    ensures var my := v.sys.workers[w];
            && my.phase.Latched? && v'.hist == v.hist
            && v'.sys == Put(v.sys, w, my.(phase := Drawn, start := v.sys.clock)).(clock := v.sys.clock + 1)
  {
  }

  lemma DrawLocals(s: Sys, h: History, s': Sys, w: nat)
    requires |s.workers| == |h| && Locals(s, h) && w < |h| && s.workers[w].phase.Latched?
    requires s' == Put(s, w, s.workers[w].(phase := Drawn, start := s.clock)).(clock := s.clock + 1)
    ensures Locals(s', h)
  {
    forall o | 0 <= o < |h|
      ensures HistoryOk(s'.clock, s'.workers[o], h[o]) && WordOk(s'.workers[o]) && TreeOk(|h|, s'.workers[o], h[o])
    {
      assert HistoryOk(s.clock, s.workers[o], h[o]) && WordOk(s.workers[o]) && TreeOk(|h|, s.workers[o], h[o]);
    }
  }

  /** A snapshot at the clock sees all commits, in the tree as in the history. */
  lemma ExactAtClock(n: nat, clock: nat, my: Worker, h: seq<Entry>, ts: nat)
    requires HistoryOk(clock, my, h) && TreeOk(n, my, h) && clock <= ts
    ensures Exact(my, h, ts)
  {
  }

  lemma DrawExacts(s: Sys, h: History, s': Sys, w: nat)
    requires |s.workers| == |h| && Locals(s, h) && Exacts(s, h) && w < |h|
    requires s' == Put(s, w, s.workers[w].(phase := Drawn, start := s.clock)).(clock := s.clock + 1)
    ensures Exacts(s', h)
  {
    forall i, o | 0 <= i < |h| && 0 <= o < |h| && o != i && Live(s'.workers[o])
      ensures Exact(s'.workers[i], h[i], s'.workers[o].start)
    {
      if o == w {
        ExactAtClock(|h|, s.clock, s.workers[i], h[i], s.clock);
      } else {
        assert Exact(s.workers[i], h[i], s.workers[o].start);
      }
      assert s'.workers[i].tree == s.workers[i].tree;
    }
  }

  lemma DrawCaches(s: Sys, h: History, s': Sys, w: nat)
    requires Shape(s, h) && Locals(s, h) && Caches(s, h) && w < |h|
    requires s' == Put(s, w, s.workers[w].(phase := Drawn, start := s.clock)).(clock := s.clock + 1)
    ensures Shape(s', h) && Caches(s', h)
  {
    forall i, j | 0 <= i < |h| && 0 <= j < |h|
      ensures CacheOk(s', h, i, j)
    {
      assert CacheOk(s, h, i, j) && HistoryOk(s.clock, s.workers[i], h[i]);
    }
  }

  /** The parts of the invariant about phases and watermarks, for a step that touches no watermark. */
  lemma OthersStay(s: Sys, h: History, s': Sys, h': History, w: nat)
    requires Inv(s, h) && Evolves(s, h, s', h') && w < |h| && LwmsKept(s, s') && CleaningOk(s', w)
    requires RefreshOk(s', h', w)
    requires forall o | 0 <= o < |h| && o != w ::
             s'.workers[o].phase == s.workers[o].phase && s'.workers[o].tree == s.workers[o].tree
    ensures Cleanings(s') && Refreshes(s', h') && Lwms(s', h')
  {
    LwmsStay(s, h, s', h');
    forall o | 0 <= o < |h| && o != w
      ensures CleaningOk(s', o) && RefreshOk(s', h', o)
    {
      if s.workers[o].tree != [] {
        TreeBelowClock(s, h, o);
      }
      CleaningStays(s, h, s', h', o);
      RefreshStays(s, h, s', h', o);
    }
  }

  lemma DrawKeeps(v: World, w: nat, v': World)
    requires Inv(v.sys, v.hist) && StepTo(v, w, Draw, v')
    ensures Inv(v'.sys, v'.hist)
  {
    DrawShape(v, w, v');
    DrawLocals(v.sys, v.hist, v'.sys, w);
    DrawExacts(v.sys, v.hist, v'.sys, w);
    DrawCaches(v.sys, v.hist, v'.sys, w);
    OthersStay(v.sys, v.hist, v'.sys, v'.hist, w);
  }

  // ----- committing a write

  lemma CommitShape(v: World, w: nat, v': World)
    requires StepTo(v, w, Commit(true), v')
    ensures var (my, e) := (v.sys.workers[w], Entry(v.sys.clock, v.sys.workers[w].start));
            && my.phase.Active? && |my.tree| <= |v.sys.workers|
            && v'.hist == v.hist[w := v.hist[w] + [e]]
            && v'.sys == Put(v.sys, w, my.(phase := Committed, tree := my.tree + [e], latestWrite := v.sys.clock))
                           .(clock := v.sys.clock + 1)
  {
  }

  lemma CommitMine(n: nat, clock: nat, my: Worker, h: seq<Entry>, my': Worker)
    requires HistoryOk(clock, my, h) && WordOk(my) && TreeOk(n, my, h) && my.phase.Active?
    requires my' == my.(phase := Committed, tree := my.tree + [Entry(clock, my.start)], latestWrite := clock)
    ensures HistoryOk(clock + 1, my', h + [Entry(clock, my.start)])
    ensures WordOk(my') && TreeOk(n, my', h + [Entry(clock, my.start)])
  {
    assert forall i | 0 <= i < |my.tree| :: my.tree[i] in h;
  }

  lemma CommitExacts(s: Sys, h: History, s': Sys, h': History, w: nat, e: Entry)
    requires |s.workers| == |h| && Locals(s, h) && Exacts(s, h) && w < |h| && e.commit == s.clock
    requires |s'.workers| == |h| && h' == h[w := h[w] + [e]] && s'.workers[w].tree == s.workers[w].tree + [e]
    requires !Live(s'.workers[w]) && forall o | 0 <= o < |h| && o != w :: s'.workers[o] == s.workers[o]
    ensures Exacts(s', h')
  {
    forall i, o | 0 <= i < |h| && 0 <= o < |h| && o != i && Live(s'.workers[o])
      ensures Exact(s'.workers[i], h'[i], s'.workers[o].start)
    {
      assert Exact(s.workers[i], h[i], s.workers[o].start) && HistoryOk(s.clock, s.workers[o], h[o]);
      LCBIgnoresLater(h[w], e, s.workers[o].start);
      LCBIgnoresLater(s.workers[w].tree, e, s.workers[o].start);
    }
  }

  lemma CommitCaches(s: Sys, h: History, s': Sys, h': History, w: nat, e: Entry)
    requires Shape(s, h) && Locals(s, h) && Caches(s, h) && w < |h| && e.commit == s.clock
    requires Shape(s', h') && h' == h[w := h[w] + [e]] && CachesKept(s, s') && s'.workers[w].start == s.workers[w].start
    requires !Live(s'.workers[w]) && forall o | 0 <= o < |h| && o != w :: s'.workers[o] == s.workers[o]
    ensures Caches(s', h')
  {
    forall i, j | 0 <= i < |h| && 0 <= j < |h|
      ensures CacheOk(s', h', i, j)
    {
      assert CacheOk(s, h, i, j) && HistoryOk(s.clock, s.workers[i], h[i]);
      CommitCacheAt(s, h, s', h', i, j, w, e);
    }
  }

  lemma CommitCacheAt(s: Sys, h: History, s': Sys, h': History, i: nat, j: nat, w: nat, e: Entry)
    requires Shape(s, h) && Shape(s', h') && i < |h| && j < |h| && w < |h| && CacheOk(s, h, i, j)
    requires e.commit == s.clock && h' == h[w := h[w] + [e]] && s.workers[i].start < s.clock
    requires s'.workers[i].cache == s.workers[i].cache && s'.workers[i].cacheTs == s.workers[i].cacheTs
    requires s'.workers[i].start == s.workers[i].start && (Live(s'.workers[i]) ==> Live(s.workers[i]))
    ensures CacheOk(s', h', i, j)
  {
    assert forall x :: x in h[j] ==> x in h'[j];
    LCBIgnoresLater(h[w], e, s.workers[i].start);
  }

  lemma CommitWriteKeeps(v: World, w: nat, v': World)
    requires Inv(v.sys, v.hist) && StepTo(v, w, Commit(true), v')
    ensures Inv(v'.sys, v'.hist)
  {
    CommitShape(v, w, v');
    InvMine(v.sys, v.hist, w);
    var (s, h, s', h') := (v.sys, v.hist, v'.sys, v'.hist);
    var e := Entry(s.clock, s.workers[w].start);
    CommitMine(|h|, s.clock, s.workers[w], h[w], s'.workers[w]);
    CommittedKeeps(s, h, s', h', w, e);
  }

  lemma CommittedKeeps(s: Sys, h: History, s': Sys, h': History, w: nat, e: Entry)
    requires Inv(s, h) && w < |h| && e == Entry(s.clock, s.workers[w].start) && h' == h[w := h[w] + [e]]
    requires var my := s.workers[w];
             s' == Put(s, w, my.(phase := Committed, tree := my.tree + [e], latestWrite := s.clock))
               .(clock := s.clock + 1)
    requires HistoryOk(s'.clock, s'.workers[w], h'[w]) && WordOk(s'.workers[w]) && TreeOk(|h|, s'.workers[w], h'[w])
    ensures Inv(s', h')
  {
    CommitLocals(s, h, s', h', w);
    CommitExacts(s, h, s', h', w, e);
    CommitCaches(s, h, s', h', w, e);
    OthersStay(s, h, s', h', w);
  }

  lemma CommitLocals(s: Sys, h: History, s': Sys, h': History, w: nat)
    requires |s.workers| == |h| == |s'.workers| == |h'| && Locals(s, h) && w < |h| && s'.clock == s.clock + 1
    requires forall o | 0 <= o < |h| && o != w :: s'.workers[o] == s.workers[o] && h'[o] == h[o]
    requires HistoryOk(s'.clock, s'.workers[w], h'[w]) && WordOk(s'.workers[w]) && TreeOk(|h|, s'.workers[w], h'[w])
    ensures Locals(s', h')
  {
    forall o | 0 <= o < |h|
      ensures HistoryOk(s'.clock, s'.workers[o], h'[o]) && WordOk(s'.workers[o]) && TreeOk(|h|, s'.workers[o], h'[o])
    {
      assert HistoryOk(s.clock, s.workers[o], h[o]) && WordOk(s.workers[o]) && TreeOk(|h|, s.workers[o], h[o]);
    }
  }

  // ----- pruning

  lemma CleanFinishShape(v: World, w: nat, v': World)
    requires StepTo(v, w, CleanFinish, v')
    ensures var my := v.sys.workers[w];
            && my.phase.Cleaning? && my.phase.next >= |v.sys.workers| && v'.hist == v.hist
            && v'.sys == Put(v.sys, w, my.(phase := Loading, tree := Filter(my.tree, my.phase.keep)))
  {
  }

  /** The pruned tree is sorted, ends as before and has room for the coming commit. */
  lemma Pruned(tree: seq<Entry>, keep: set<Entry>, n: nat)
    requires Sorted(tree) && tree != [] && tree[|tree| - 1] in keep && |keep + {tree[|tree| - 1]}| <= n
    ensures var r := Filter(tree, keep);
            && Sorted(r) && r != [] && r[|r| - 1] == tree[|tree| - 1] && |r| <= n && forall e | e in r :: e in tree
  {
    FilterMembers(tree, keep);
    FilterSorted(tree, keep);
    FilterSize(tree, keep);
    FilterLast(tree, keep);
    SubsetSize(keep, keep + {tree[|tree| - 1]});
  }

  lemma CleanFinishMine(s: Sys, h: History, w: nat, my': Worker)
    requires 2 <= |h| && Shape(s, h) && w < |h| && MineOk(s, h, w)
    requires var my := s.workers[w];
             && my.phase.Cleaning? && my.phase.next == |h|
             && my' == my.(phase := Loading, tree := Filter(my.tree, my.phase.keep))
    ensures WordOk(my') && TreeOk(|h|, my', h[w])
  {
    Pruned(s.workers[w].tree, s.workers[w].phase.keep, |h|);
  }

  lemma CleanFinishExacts(s: Sys, h: History, s': Sys, w: nat)
    requires |s.workers| == |h| == |s'.workers| && Exacts(s, h) && w < |h| && CleaningOk(s, w)
    requires s.workers[w].phase.Cleaning? && s.workers[w].phase.next == |h|
    requires s'.workers[w].tree == Filter(s.workers[w].tree, s.workers[w].phase.keep)
    requires Live(s.workers[w]) && s'.workers[w].start == s.workers[w].start
    requires forall o | 0 <= o < |h| && o != w :: s'.workers[o] == s.workers[o]
    ensures Exacts(s', h)
  {
    var my := s.workers[w];
    forall i, o | 0 <= i < |h| && 0 <= o < |h| && o != i && Live(s'.workers[o])
      ensures Exact(s'.workers[i], h[i], s'.workers[o].start)
    {
      assert Exact(s.workers[i], h[i], s.workers[o].start);
      if i == w {
        assert Covered(my.tree, my.phase.keep, s.workers[o].start);
        FilterKeepsLCB(my.tree, my.phase.keep, s.workers[o].start);
      }
    }
  }

  lemma CleanFinishCaches(s: Sys, h: History, s': Sys, w: nat)
    requires Shape(s, h) && Caches(s, h) && w < |h| && Live(s.workers[w])
    requires Shape(s', h) && CachesKept(s, s')
    requires forall o | 0 <= o < |h| ::
             s'.workers[o].start == s.workers[o].start && (o != w ==> s'.workers[o] == s.workers[o])
    ensures Caches(s', h)
  {
    forall i, j | 0 <= i < |h| && 0 <= j < |h|
      ensures CacheOk(s', h, i, j)
    {
      assert CacheOk(s, h, i, j);
    }
  }

  lemma CleanFinishKeeps(v: World, w: nat, v': World)
    requires Inv(v.sys, v.hist) && StepTo(v, w, CleanFinish, v')
    ensures Inv(v'.sys, v'.hist)
  {
    CleanFinishShape(v, w, v');
    CleanedKeeps(v.sys, v.hist, v'.sys, w);
  }

  lemma CleanedKeeps(s: Sys, h: History, s': Sys, w: nat)
    requires Inv(s, h) && w < |h| && s.workers[w].phase.Cleaning? && s.workers[w].phase.next >= |h|
    requires var my := s.workers[w];
             s' == Put(s, w, my.(phase := Loading, tree := Filter(my.tree, my.phase.keep)))
    ensures Inv(s', h)
  {
    InvMine(s, h, w);
    CleanFinishMine(s, h, w, s'.workers[w]);
    CleanFinishExacts(s, h, s', w);
    CleanFinishLocals(s, h, s', w);
    CleanedRest(s, h, s', w);
  }

  lemma CleanedRest(s: Sys, h: History, s': Sys, w: nat)
    requires Inv(s, h) && w < |h| == |s'.workers| && Live(s.workers[w])
    requires s' == Put(s, w, s.workers[w].(phase := Loading, tree := s'.workers[w].tree))
    ensures Shape(s', h) && Caches(s', h) && Cleanings(s') && Refreshes(s', h) && Lwms(s', h)
  {
    CleanFinishCaches(s, h, s', w);
    OthersStay(s, h, s', h, w);
  }

  lemma CleanFinishLocals(s: Sys, h: History, s': Sys, w: nat)
    requires |s.workers| == |h| == |s'.workers| && Locals(s, h) && w < |h| && s'.clock == s.clock
    requires forall o | 0 <= o < |h| && o != w :: s'.workers[o] == s.workers[o]
    requires Live(s.workers[w]) && s'.workers[w].start == s.workers[w].start
    requires WordOk(s'.workers[w]) && TreeOk(|h|, s'.workers[w], h[w])
    ensures Locals(s', h)
  {
    forall o | 0 <= o < |h|
      ensures HistoryOk(s'.clock, s'.workers[o], h[o]) && WordOk(s'.workers[o]) && TreeOk(|h|, s'.workers[o], h[o])
    {
      assert HistoryOk(s.clock, s.workers[o], h[o]) && WordOk(s.workers[o]) && TreeOk(|h|, s.workers[o], h[o]);
    }
  }
}
