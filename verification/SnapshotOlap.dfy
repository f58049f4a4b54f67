/**
  The two timestamps that garbage collection of fat tuples works with, newest OLAP and oldest OLTP: they are stored one
  after the other and loaded one after the other. A loaded pair serves every running and every later snapshot, if the
  refreshes are by OLTP transactions and the loads do not both fall between the two stores of one refresh.
 */
module SnapshotOlap {
  import opened Wrappers
  import opened CommitTree
  import opened Snapshot
  import opened SnapshotProof
  import opened SnapshotTheorems
  import FatTupleGc

  // ----- start timestamps over time

  /** A worker keeps its start timestamp and class until it draws a new timestamp, from the clock. */
  ghost predicate Drifts(s: Sys, s': Sys) {
    && |s'.workers| == |s.workers| && s.clock <= s'.clock
    && forall o | 0 <= o < |s.workers| && !s'.workers[o].phase.Latched? :: DriftsAt(s, s', o)
  }

  ghost predicate DriftsAt(s: Sys, s': Sys, o: nat)
    requires o < |s.workers| == |s'.workers|
  {
    var (a, b) := (s.workers[o], s'.workers[o]);
    || (!a.phase.Latched? && b.start == a.start && b.olap == a.olap && (b.phase.Drawn? ==> a.phase.Drawn?))
    || s.clock <= b.start
  }

  /** x is at most every start timestamp, except for those of OLAP transactions that are published. */
  ghost predicate Bounded(s: Sys, x: nat) {
    && x <= s.clock
    && forall o | 0 <= o < |s.workers| && !s.workers[o].phase.Latched? ::
         x <= s.workers[o].start || (s.workers[o].olap && !s.workers[o].phase.Drawn?)
  }

  /** Every start timestamp is at least x, or at most olap. */
  ghost predicate Split(s: Sys, olap: nat, x: nat) {
    forall o | 0 <= o < |s.workers| && !s.workers[o].phase.Latched? ::
      x <= s.workers[o].start || s.workers[o].start <= olap
  }

  lemma BoundedStays(s: Sys, s': Sys, x: nat)
    requires Bounded(s, x) && Drifts(s, s')
    ensures Bounded(s', x)
  {
    forall o | 0 <= o < |s'.workers| && !s'.workers[o].phase.Latched?
      ensures x <= s'.workers[o].start || (s'.workers[o].olap && !s'.workers[o].phase.Drawn?)
    {
      assert DriftsAt(s, s', o);
    }
  }

  lemma SplitStays(s: Sys, s': Sys, olap: nat, x: nat)
    requires Split(s, olap, x) && x <= s.clock && Drifts(s, s')
    ensures Split(s', olap, x)
  {
    forall o | 0 <= o < |s'.workers| && !s'.workers[o].phase.Latched?
      ensures x <= s'.workers[o].start || s'.workers[o].start <= olap
    {
      assert DriftsAt(s, s', o);
    }
  }

  // ----- a refresh in progress

  predicate Refreshing(p: Phase) {
    p.Scanning? || p.StoredAll? || p.StoredOltp?
  }

  /** The words it has read. */
  function Passed(p: Phase, n: nat): (r: nat)
    requires Refreshing(p)
  {
    if p.Scanning? then p.next else n
  }

  /** A worker it has passed is accounted for, or is younger than the refreshing transaction. */
  ghost predicate PassedOk(start: nat, p: Phase, it: Worker)
    requires Refreshing(p)
  {
    || start < it.start
    || (&& !it.phase.Drawn?
        && if it.olap then it.start <= p.newestOlap
           else p.StoredOltp? || (p.oldestOltp.Some? && p.oldestOltp.value <= it.start))
  }

  /** A refresh by an OLTP transaction: its own word bounds the oldest OLTP timestamp. */
  ghost predicate ScanOk(s: Sys, w: nat)
    requires w < |s.workers|
  {
    var (my, n) := (s.workers[w], |s.workers|);
    Refreshing(my.phase) ==>
      var p := my.phase;
      && !my.olap && my.start < s.clock && Passed(p, n) <= n
      && (!p.StoredOltp? && w < Passed(p, n) ==> p.oldestOltp.Some? && p.oldestOltp.value <= my.start)
      && forall o | 0 <= o < Passed(p, n) && !s.workers[o].phase.Latched? :: PassedOk(my.start, p, s.workers[o])
  }

  lemma ScanStays(s: Sys, s': Sys, w: nat)
    requires Drifts(s, s') && w < |s.workers| && ScanOk(s, w)
    requires Refreshing(s'.workers[w].phase) ==>
               && s'.workers[w].phase == s.workers[w].phase && s'.workers[w].start == s.workers[w].start
               && s'.workers[w].olap == s.workers[w].olap
    ensures ScanOk(s', w)
  {
    var my := s'.workers[w];
    if Refreshing(my.phase) {
      forall o | 0 <= o < Passed(my.phase, |s.workers|) && !s'.workers[o].phase.Latched?
        ensures PassedOk(my.start, my.phase, s'.workers[o])
      {
        assert DriftsAt(s, s', o);
      }
    }
  }

  ghost predicate Between(s: Sys) {
    exists w :: 0 <= w < |s.workers| && s.workers[w].phase.StoredOltp?
  }

  /** The stored oldest OLTP timestamp is a bound, and outside the gap between two stores the stored pair splits. */
  ghost predicate Sides(s: Sys) {
    && s.oldestOltp.Some? && Bounded(s, s.oldestOltp.value)
    && (forall w | 0 <= w < |s.workers| :: ScanOk(s, w))
    && (Between(s) || Split(s, s.newestOlap, s.oldestOltp.value))
  }

  // ----- steps outside the scan and its stores

  predicate TouchesScan(e: Event) {
    e.BeginRefresh? || e.RefreshRead? || e.StoreOldest? || e.StoreOltp? || e.StoreOlap?
  }

  ghost predicate Aside(s: Sys, s': Sys) {
    && Drifts(s, s') && s'.newestOlap == s.newestOlap && s'.oldestOltp == s.oldestOltp
    && forall o | 0 <= o < |s.workers| && (Refreshing(s.workers[o].phase) || Refreshing(s'.workers[o].phase)) ::
         && s'.workers[o].phase == s.workers[o].phase && s'.workers[o].start == s.workers[o].start
         && s'.workers[o].olap == s.workers[o].olap
  }

  lemma AsideKeeps(s: Sys, s': Sys)
    requires Sides(s) && Aside(s, s')
    ensures Sides(s')
  {
    BoundedStays(s, s', s.oldestOltp.value);
    forall w | 0 <= w < |s'.workers|
      ensures ScanOk(s', w)
    {
      ScanStays(s, s', w);
    }
    if Between(s) {
      var w :| 0 <= w < |s.workers| && s.workers[w].phase.StoredOltp?;
      assert s'.workers[w].phase.StoredOltp?;
    } else {
      SplitStays(s, s', s.newestOlap, s.oldestOltp.value);
    }
  }

  lemma PlainAside(v: World, w: nat, e: Event, v': World)
    requires StepTo(v, w, e, v') && IsPlain(e) && !TouchesScan(e)
    ensures Aside(v.sys, v'.sys)
  {
  }

  lemma LwmAside(v: World, w: nat, e: Event, v': World)
    requires StepTo(v, w, e, v') && IsLwmStep(e) && !TouchesScan(e)
    ensures Aside(v.sys, v'.sys)
  {
  }

  lemma OtherAside(v: World, w: nat, e: Event, v': World)
    requires StepTo(v, w, e, v') && !IsPlain(e) && !IsLwmStep(e) && !TouchesScan(e)
    ensures Aside(v.sys, v'.sys)
  {
    match e
    case Draw => DrawAside(v, w, v');
    case CleanRead => CleanAside(v, w, e, v');
    case CleanFinish => CleanAside(v, w, e, v');
    case Ask(o, ts) => AskAside(v, w, o, ts, v');
    case Commit(_) => CommitAside(v, w, v');
    case _ =>
  }

  lemma DrawAside(v: World, w: nat, v': World)
    requires StepTo(v, w, Draw, v')
    ensures Aside(v.sys, v'.sys)
  {
    DrawShape(v, w, v');
  }

  lemma CleanAside(v: World, w: nat, e: Event, v': World)
    requires StepTo(v, w, e, v') && (e.CleanRead? || e.CleanFinish?)
    ensures Aside(v.sys, v'.sys)
  {
  }

  lemma AskAside(v: World, w: nat, o: nat, ts: nat, v': World)
    requires StepTo(v, w, Ask(o, ts), v')
    ensures Aside(v.sys, v'.sys)
  {
    AskShape(v, w, o, ts, v');
  }

  lemma CommitAside(v: World, w: nat, v': World)
    requires StepTo(v, w, Commit(true), v')
    ensures Aside(v.sys, v'.sys)
  {
    CommitShape(v, w, v');
  }

  lemma StepAside(v: World, w: nat, e: Event, v': World)
    requires StepTo(v, w, e, v') && !TouchesScan(e)
    ensures Aside(v.sys, v'.sys)
  {
    if IsPlain(e) {
      PlainAside(v, w, e, v');
    } else if IsLwmStep(e) {
      LwmAside(v, w, e, v');
    } else {
      OtherAside(v, w, e, v');
    }
  }

  // ----- the scan and its stores

  /** Only worker w has moved, inside its refresh or into it. */
  ghost predicate Turns(s: Sys, s': Sys, w: nat) {
    && w < |s.workers| == |s'.workers| && s'.clock == s.clock
    && s'.workers[w] == s.workers[w].(phase := s'.workers[w].phase)
    && (Refreshing(s.workers[w].phase) || s.workers[w].phase.Committed?)
    && (Refreshing(s'.workers[w].phase) || s'.workers[w].phase.Delivering?)
    && forall o | 0 <= o < |s.workers| && o != w :: s'.workers[o] == s.workers[o]
  }

  lemma TurnDrifts(s: Sys, s': Sys, w: nat)
    requires Turns(s, s', w)
    ensures Drifts(s, s')
  {
  }

  /** The new state after each of the five steps. */
  ghost predicate TurnTo(s: Sys, w: nat, e: Event, s': Sys) {
    && Turns(s, s', w)
    && var (p, p') := (s.workers[w].phase, s'.workers[w].phase);
    && (!e.StoreOltp? ==> s'.oldestOltp == s.oldestOltp) && (!e.StoreOlap? ==> s'.newestOlap == s.newestOlap)
    && match e
       case BeginRefresh => p.Committed? && p' == Scanning(0, None, 0, None)
       case RefreshRead =>
         && p.Scanning? && p.next < |s.workers|
         && var word := s.workers[p.next].word;
         && !(word.latched && word.ts < s.workers[w].start) && p' == ScanWord(p, word)
       case StoreOldest => p.Scanning? && p.next >= |s.workers| && p' == StoredAll(p.newestOlap, p.oldestOltp)
       case StoreOltp => p.StoredAll? && p' == StoredOltp(p.newestOlap) && s'.oldestOltp == p.oldestOltp
       case StoreOlap => p.StoredOltp? && p' == Delivering(0, None, false) && s'.newestOlap == p.newestOlap
       case _ => false
  }

  lemma TurnShape(v: World, w: nat, e: Event, v': World)
    requires StepTo(v, w, e, v') && TouchesScan(e)
    ensures TurnTo(v.sys, w, e, v'.sys)
  {
  }

  /** The worker behind the word just read. */
  lemma WordPassed(p: Phase, it: Worker, start: nat)
    requires p.Scanning? && WordOk(it) && !it.phase.Latched? && !(it.word.latched && it.word.ts < start)
    ensures PassedOk(start, ScanWord(p, it.word), it)
  {
  }

  /** What is accounted for stays so. */
  lemma PassedStays(start: nat, p: Phase, word: Word, it: Worker)
    requires p.Scanning? && PassedOk(start, p, it)
    ensures PassedOk(start, ScanWord(p, word), it)
  {
  }

  /** The part of a worker that PassedOk speaks of. */
  lemma PassedSame(start: nat, p: Phase, it: Worker, it': Worker)
    requires Refreshing(p) && PassedOk(start, p, it)
    requires it'.start == it.start && it'.olap == it.olap && (it'.phase.Drawn? ==> it.phase.Drawn?)
    ensures PassedOk(start, p, it')
  {
  }

  lemma ReadScan(s: Sys, h: History, w: nat, s': Sys)
    requires |s.workers| == |h| && Locals(s, h) && w < |h| && ScanOk(s, w) && TurnTo(s, w, RefreshRead, s')
    ensures ScanOk(s', w)
  {
    var (my, p) := (s.workers[w], s.workers[w].phase);
    var (i, p') := (p.next, s'.workers[w].phase);
    assert WordOk(s.workers[i]) && WordOk(my);
    forall o | 0 <= o < i + 1 && !s'.workers[o].phase.Latched?
      ensures PassedOk(my.start, p', s'.workers[o])
    {
      if o == i {
        WordPassed(p, s.workers[i], my.start);
      } else {
        PassedStays(my.start, p, s.workers[i].word, s.workers[o]);
      }
      PassedSame(my.start, p', s.workers[o], s'.workers[o]);
    }
  }

  lemma TurnScan(s: Sys, h: History, w: nat, e: Event, s': Sys)
    requires |s.workers| == |h| && Locals(s, h) && w < |h| && ScanOk(s, w) && TurnTo(s, w, e, s')
    requires e.BeginRefresh? ==> !s.workers[w].olap
    ensures ScanOk(s', w)
  {
    assert HistoryOk(s.clock, s.workers[w], h[w]);
    if e.RefreshRead? {
      ReadScan(s, h, w, s');
    } else if e.StoreOldest? || e.StoreOltp? {
      var my := s'.workers[w];
      forall o | 0 <= o < |s.workers| && !s'.workers[o].phase.Latched?
        ensures PassedOk(my.start, my.phase, s'.workers[o])
      {
        assert PassedOk(s.workers[w].start, s.workers[w].phase, s.workers[o]);
      }
    }
  }

  /** The oldest OLTP timestamp that a refresh stores is a bound. */
  lemma StoredIsBound(s: Sys, w: nat)
    requires w < |s.workers| && ScanOk(s, w) && s.workers[w].phase.StoredAll?
    ensures s.workers[w].phase.oldestOltp.Some? && Bounded(s, s.workers[w].phase.oldestOltp.value)
  {
    var (my, p) := (s.workers[w], s.workers[w].phase);
    forall o | 0 <= o < |s.workers| && !s.workers[o].phase.Latched?
      ensures p.oldestOltp.value <= s.workers[o].start || (s.workers[o].olap && !s.workers[o].phase.Drawn?)
    {
      assert PassedOk(my.start, p, s.workers[o]);
    }
  }

  /** The newest OLAP timestamp that a refresh stores splits with every bound, also with one that was stored earlier. */
  lemma StoredSplits(s: Sys, w: nat, x: nat)
    requires w < |s.workers| && ScanOk(s, w) && s.workers[w].phase.StoredOltp? && Bounded(s, x)
    ensures Split(s, s.workers[w].phase.newestOlap, x)
  {
    var (my, p) := (s.workers[w], s.workers[w].phase);
    assert x <= my.start;
    forall o | 0 <= o < |s.workers| && !s.workers[o].phase.Latched?
      ensures x <= s.workers[o].start || s.workers[o].start <= p.newestOlap
    {
      assert PassedOk(my.start, p, s.workers[o]);
    }
  }

  lemma TurnBound(s: Sys, w: nat, e: Event, s': Sys)
    requires Sides(s) && w < |s.workers| && TurnTo(s, w, e, s')
    ensures s'.oldestOltp.Some? && Bounded(s', s'.oldestOltp.value)
  {
    TurnDrifts(s, s', w);
    if e.StoreOltp? {
      StoredIsBound(s, w);
      BoundedStays(s, s', s'.oldestOltp.value);
    } else {
      BoundedStays(s, s', s.oldestOltp.value);
    }
  }

  lemma TurnSplit(s: Sys, w: nat, e: Event, s': Sys)
    requires Sides(s) && w < |s.workers| && TurnTo(s, w, e, s')
    ensures Between(s') || (s'.oldestOltp.Some? && Split(s', s'.newestOlap, s'.oldestOltp.value))
  {
    TurnDrifts(s, s', w);
    if e.StoreOltp? {
      assert s'.workers[w].phase.StoredOltp?;
    } else if e.StoreOlap? {
      StoredSplits(s, w, s.oldestOltp.value);
      SplitStays(s, s', s'.newestOlap, s.oldestOltp.value);
    } else if Between(s) {
      var o :| 0 <= o < |s.workers| && s.workers[o].phase.StoredOltp?;
      assert o != w && s'.workers[o].phase.StoredOltp?;
    } else {
      SplitStays(s, s', s.newestOlap, s.oldestOltp.value);
    }
  }

  lemma TurnKeeps(s: Sys, h: History, w: nat, e: Event, s': Sys)
    requires |s.workers| == |h| && Locals(s, h) && Sides(s) && w < |h| && TurnTo(s, w, e, s')
    requires e.BeginRefresh? ==> !s.workers[w].olap
    ensures Sides(s')
  {
    TurnDrifts(s, s', w);
    TurnBound(s, w, e, s');
    TurnSplit(s, w, e, s');
    TurnScan(s, h, w, e, s');
    forall o | 0 <= o < |s'.workers| && o != w
      ensures ScanOk(s', o)
    {
      ScanStays(s, s', o);
    }
  }

  // ----- runs

  lemma StepSides(v: World, w: nat, e: Event, v': World)
    requires Inv(v.sys, v.hist) && Sides(v.sys) && StepTo(v, w, e, v')
    requires e.BeginRefresh? ==> !v.sys.workers[w].olap
    ensures Sides(v'.sys) && Drifts(v.sys, v'.sys)
  {
    if TouchesScan(e) {
      TurnShape(v, w, e, v');
      TurnDrifts(v.sys, v'.sys, w);
      TurnKeeps(v.sys, v.hist, w, e, v'.sys);
    } else {
      StepAside(v, w, e, v');
      AsideKeeps(v.sys, v'.sys);
    }
  }

  datatype Class = Oltp | Olap

  function ClassOf(my: Worker): (c: Class) {
    if my.olap then Olap else Oltp
  }

  /** The refresh that starts at step i, if one does, is by a transaction of one of these classes. */
  ghost predicate RefresherAt(worlds: seq<World>, actions: seq<Action>, kinds: set<Class>, i: nat)
    requires |worlds| == |actions| + 1 && i < |actions|
  {
    var (s, w) := (worlds[i].sys, actions[i].worker);
    actions[i].event.BeginRefresh? && w < |s.workers| ==> ClassOf(s.workers[w]) in kinds
  }

  /** A run of n workers in which only transactions of these classes refresh. */
  ghost predicate RunOf(n: nat, kinds: set<Class>, worlds: seq<World>, actions: seq<Action>) {
    Run(n, worlds, actions) && forall i | 0 <= i < |actions| :: RefresherAt(worlds, actions, kinds, i)
  }

  lemma RunStep(n: nat, kinds: set<Class>, worlds: seq<World>, actions: seq<Action>, k: nat)
    requires n >= 2 && RunOf(n, kinds, worlds, actions) && Olap !in kinds && k < |actions|
    ensures Inv(worlds[k].sys, worlds[k].hist)
    ensures StepTo(worlds[k], actions[k].worker, actions[k].event, worlds[k + 1])
    ensures actions[k].event.BeginRefresh? ==> !worlds[k].sys.workers[actions[k].worker].olap
  {
    RunKeeps(n, worlds, actions, k);
    assert StepAt(worlds, actions, k) && RefresherAt(worlds, actions, kinds, k);
  }

  /** One step of a run, and what it does to a bound. */
  ghost predicate Stepped(v: World, w: nat, e: Event, v': World) {
    Sides(v.sys) && Sides(v'.sys) && Drifts(v.sys, v'.sys) && StepTo(v, w, e, v')
  }

  lemma StepStepped(v: World, w: nat, e: Event, v': World)
    requires Inv(v.sys, v.hist) && Sides(v.sys) && StepTo(v, w, e, v')
    requires e.BeginRefresh? ==> !v.sys.workers[w].olap
    ensures Stepped(v, w, e, v')
  {
    StepSides(v, w, e, v');
  }

  lemma {:induction false} RunSides(n: nat, kinds: set<Class>, worlds: seq<World>, actions: seq<Action>, k: nat)
    requires n >= 2 && RunOf(n, kinds, worlds, actions) && Olap !in kinds && k <= |actions|
    ensures Sides(worlds[k].sys)
    ensures k > 0 ==> Stepped(worlds[k - 1], actions[k - 1].worker, actions[k - 1].event, worlds[k])
  {
    if k == 0 {
      InitSides(n);
    } else {
      RunSides(n, kinds, worlds, actions, k - 1);
      RunStep(n, kinds, worlds, actions, k - 1);
      StepStepped(worlds[k - 1], actions[k - 1].worker, actions[k - 1].event, worlds[k]);
    }
  }

  lemma InitSides(n: nat)
    ensures Sides(Init(n))
  {
  }

  // ----- loads

  /** The largest u64, which a refresh stores when it finds no OLTP transaction. */
  const MAX_TXID: nat := 0xffff_ffff_ffff_ffff

  function Loaded(t: Option<nat>): (r: nat) {
    match t
    case Some(x) => x
    case None => MAX_TXID
  }

  /** From state i to state j worker w has stored its oldest OLTP timestamp and not yet its newest OLAP one. */
  ghost predicate TornBy(worlds: seq<World>, i: nat, j: nat, w: nat) {
    forall k | i <= k <= j && k < |worlds| :: w < |worlds[k].sys.workers| && worlds[k].sys.workers[w].phase.StoredOltp?
  }

  /**
    The oldest OLTP timestamp is loaded in state i and the newest OLAP one in state j, between the stores of one
    refresh.
   */
  ghost predicate Torn(worlds: seq<World>, i: nat, j: nat) {
    exists w :: TornBy(worlds, i, j, w)
  }

  /** A step that ends a gap between two stores stores a newest OLAP timestamp. */
  lemma StepSplits(v: World, w: nat, e: Event, v': World, x: nat)
    requires Sides(v.sys) && StepTo(v, w, e, v') && Bounded(v.sys, x) && Drifts(v.sys, v'.sys)
    ensures Split(v.sys, v.sys.newestOlap, x) ==> Split(v'.sys, v'.sys.newestOlap, x)
    ensures forall o | 0 <= o < |v.sys.workers| && v.sys.workers[o].phase.StoredOltp? ::
              v'.sys.workers[o].phase.StoredOltp? || Split(v'.sys, v'.sys.newestOlap, x)
  {
    if e.StoreOlap? {
      TurnShape(v, w, e, v');
      StoredSplits(v.sys, w, x);
      SplitStays(v.sys, v'.sys, v'.sys.newestOlap, x);
    } else if TouchesScan(e) {
      TurnShape(v, w, e, v');
      if Split(v.sys, v.sys.newestOlap, x) {
        SplitStays(v.sys, v'.sys, v.sys.newestOlap, x);
      }
    } else {
      StepAside(v, w, e, v');
      if Split(v.sys, v.sys.newestOlap, x) {
        SplitStays(v.sys, v'.sys, v.sys.newestOlap, x);
      }
    }
  }

  lemma TornLonger(worlds: seq<World>, i: nat, j: nat, w: nat)
    requires i <= j < |worlds| && (i < j ==> TornBy(worlds, i, j - 1, w))
    requires w < |worlds[j].sys.workers| && worlds[j].sys.workers[w].phase.StoredOltp?
    ensures Torn(worlds, i, j)
  {
    assert TornBy(worlds, i, j, w);
  }

  /** Loads that are not torn give a pair that splits. */
  lemma {:induction false} LoadedPair(n: nat, kinds: set<Class>, worlds: seq<World>, actions: seq<Action>, i: nat,
                                      j: nat)
    requires n >= 2 && RunOf(n, kinds, worlds, actions) && Olap !in kinds && i <= j <= |actions|
    ensures worlds[i].sys.oldestOltp.Some? && Bounded(worlds[j].sys, worlds[i].sys.oldestOltp.value)
    ensures Torn(worlds, i, j) || Split(worlds[j].sys, worlds[j].sys.newestOlap, worlds[i].sys.oldestOltp.value)
    decreases j
  {
    RunSides(n, kinds, worlds, actions, i);
    if i == j {
      var s := worlds[i].sys;
      if Between(s) {
        var w :| 0 <= w < |s.workers| && s.workers[w].phase.StoredOltp?;
        TornLonger(worlds, i, i, w);
      }
    } else {
      LoadedPair(n, kinds, worlds, actions, i, j - 1);
      RunSides(n, kinds, worlds, actions, j);
      LoadedLater(worlds, i, j, actions[j - 1].worker, actions[j - 1].event, worlds[i].sys.oldestOltp.value);
    }
  }

  /** The pair after one more step, if the gap of worker w began before it. */
  lemma SteppedTorn(v: World, w: nat, e: Event, v': World, x: nat, o: nat)
    requires Stepped(v, w, e, v') && Bounded(v.sys, x) && o < |v.sys.workers| && v.sys.workers[o].phase.StoredOltp?
    ensures o < |v'.sys.workers| && Bounded(v'.sys, x)
    ensures v'.sys.workers[o].phase.StoredOltp? || Split(v'.sys, v'.sys.newestOlap, x)
  {
    BoundedStays(v.sys, v'.sys, x);
    StepSplits(v, w, e, v', x);
  }

  lemma SteppedSplit(v: World, w: nat, e: Event, v': World, x: nat)
    requires Stepped(v, w, e, v') && Bounded(v.sys, x) && Split(v.sys, v.sys.newestOlap, x)
    ensures Bounded(v'.sys, x) && Split(v'.sys, v'.sys.newestOlap, x)
  {
    BoundedStays(v.sys, v'.sys, x);
    StepSplits(v, w, e, v', x);
  }

  lemma SteppedOld(v: World, w: nat, e: Event, v': World, olap: nat, x: nat)
    requires Stepped(v, w, e, v') && Bounded(v.sys, x) && Split(v.sys, olap, x)
    ensures Bounded(v'.sys, x) && Split(v'.sys, olap, x)
  {
    BoundedStays(v.sys, v'.sys, x);
    SplitStays(v.sys, v'.sys, olap, x);
  }

  lemma TornAt(worlds: seq<World>, i: nat, j: nat) returns (w: nat)
    requires i <= j < |worlds| && Torn(worlds, i, j)
    ensures TornBy(worlds, i, j, w) && w < |worlds[j].sys.workers| && worlds[j].sys.workers[w].phase.StoredOltp?
  {
    w :| TornBy(worlds, i, j, w);
  }

  lemma LoadedLater(worlds: seq<World>, i: nat, j: nat, w: nat, e: Event, x: nat)
    requires i < j < |worlds| && Stepped(worlds[j - 1], w, e, worlds[j]) && Bounded(worlds[j - 1].sys, x)
    requires Torn(worlds, i, j - 1) || Split(worlds[j - 1].sys, worlds[j - 1].sys.newestOlap, x)
    ensures Bounded(worlds[j].sys, x)
    ensures Torn(worlds, i, j) || Split(worlds[j].sys, worlds[j].sys.newestOlap, x)
  {
    if Torn(worlds, i, j - 1) {
      var o := TornAt(worlds, i, j - 1);
      SteppedTorn(worlds[j - 1], w, e, worlds[j], x, o);
      if worlds[j].sys.workers[o].phase.StoredOltp? {
        TornLonger(worlds, i, j, o);
      }
    } else {
      SteppedSplit(worlds[j - 1], w, e, worlds[j], x);
    }
  }

  /** What splits goes on splitting. */
  lemma {:induction false} SplitLater(n: nat, kinds: set<Class>, worlds: seq<World>, actions: seq<Action>, j: nat,
                                      k: nat,
                                      olap: nat, x: nat)
    requires n >= 2 && RunOf(n, kinds, worlds, actions) && Olap !in kinds && j <= k <= |actions|
    requires Bounded(worlds[j].sys, x) && Split(worlds[j].sys, olap, x)
    ensures Bounded(worlds[k].sys, x) && Split(worlds[k].sys, olap, x)
    decreases k
  {
    if j < k {
      SplitLater(n, kinds, worlds, actions, j, k - 1, olap, x);
      RunSides(n, kinds, worlds, actions, k);
      SteppedOld(worlds[k - 1], actions[k - 1].worker, actions[k - 1].event, worlds[k], olap, x);
    }
  }

  /**
    When all refreshes are by OLTP transactions: a pair whose loads are not both between the two stores of one refresh
    serves every snapshot that runs when it is used, and every later one.
   */
  lemma EverySnapshotIsServed(n: nat, kinds: set<Class>, worlds: seq<World>, actions: seq<Action>,
                              i: nat, j: nat, k: nat, ts: nat)
    requires n >= 2 && RunOf(n, kinds, worlds, actions) && Olap !in kinds && i <= j <= k <= |actions|
    requires !Torn(worlds, i, j) && NowOrLater(worlds[k].sys, ts)
    ensures worlds[i].sys.oldestOltp.Some?
    ensures FatTupleGc.Served(ts, worlds[j].sys.newestOlap, worlds[i].sys.oldestOltp.value)
  {
    LoadedPair(n, kinds, worlds, actions, i, j);
    SplitLater(n, kinds, worlds, actions, j, k, worlds[j].sys.newestOlap, worlds[i].sys.oldestOltp.value);
  }
}
