/** What one refresh stores, from its own reads and deliveries, over every run. */
module SnapshotRefresh {
  import opened Wrappers
  import opened CommitTree
  import opened Snapshot
  import opened SnapshotProof
  import opened SnapshotTheorems

  // ----- the events of one refresh

  /** Worker w enters refreshGlobalState with action b and has not left it before action k. */
  ghost predicate InRefresh(worlds: seq<World>, actions: seq<Action>, w: nat, b: nat, k: nat) {
    && |worlds| == |actions| + 1 && b < k <= |actions| && actions[b] == Action(w, BeginRefresh)
    && forall i | b < i < k :: actions[i] != Action(w, EndRefresh)
  }

  /** The words it has read: the first of worker 0, the next of worker 1, and so on. */
  ghost function Words(worlds: seq<World>, actions: seq<Action>, w: nat, b: nat, k: nat): (r: seq<Word>)
    requires |worlds| == |actions| + 1 && b < k <= |actions|
  {
    if k == b + 1 then []
    else
      var (r, s) := (Words(worlds, actions, w, b, k - 1), worlds[k - 1].sys);
      if actions[k - 1] == Action(w, RefreshRead) && |r| < |s.workers| then r + [s.workers[|r|].word] else r
  }

  /** What the second loop gives worker it: nothing if it has not written since its last watermark. */
  ghost function GivenTo(it: Worker, oldest: nat): (r: Option<nat>) {
    if it.lwmForTx == it.latestWrite then None else Some(StartLCB(it.tree, oldest))
  }

  /** The watermarks it has given, to worker 0 first. */
  ghost function Given(worlds: seq<World>, actions: seq<Action>, w: nat, b: nat, k: nat): (r: seq<Option<nat>>)
    requires |worlds| == |actions| + 1 && b < k <= |actions|
  {
    if k == b + 1 then []
    else
      var (r, s) := (Given(worlds, actions, w, b, k - 1), worlds[k - 1].sys);
      if actions[k - 1] == Action(w, Deliver) && |r| < |s.workers| then r + [GivenTo(s.workers[|r|], s.oldestAll)]
      else r
  }

  // ----- what is to be stored

  ghost predicate IsOldest(words: seq<Word>, r: nat) {
    (forall i | 0 <= i < |words| :: r <= words[i].ts) && exists i :: 0 <= i < |words| && words[i].ts == r
  }

  ghost predicate IsNewestOlap(words: seq<Word>, r: nat) {
    && (forall i | 0 <= i < |words| && words[i].olap :: words[i].ts <= r)
    && (r == 0 || exists i :: 0 <= i < |words| && words[i].olap && words[i].ts == r)
  }

  /** None stands for the largest number: no word of an OLTP transaction. */
  ghost predicate IsOldestOltp(words: seq<Word>, r: Option<nat>) {
    && (forall i | 0 <= i < |words| && !words[i].olap :: r.Some? && r.value <= words[i].ts)
    && (r.Some? ==> exists i :: 0 <= i < |words| && !words[i].olap && words[i].ts == r.value)
  }

  ghost predicate IsLeastGiven(given: seq<Option<nat>>, r: Option<nat>) {
    && (forall i | 0 <= i < |given| && given[i].Some? :: r.Some? && r.value <= given[i].value)
    && (r.Some? ==> r in given)
  }

  // ----- the machine keeps to it

  predicate Refreshing(p: Phase) {
    p.Scanning? || p.StoredAll? || p.StoredOltp? || p.Delivering?
  }

  ghost predicate MutexOk(s: Sys) {
    && (s.mutex.Some? ==> s.mutex.value < |s.workers|)
    && forall w | 0 <= w < |s.workers| :: Refreshing(s.workers[w].phase) <==> s.mutex == Some(w)
  }

  /** How far worker w is, and what it holds. */
  ghost predicate Stage(s: Sys, w: nat, words: seq<Word>, given: seq<Option<nat>>)
    requires w < |s.workers|
  {
    match s.workers[w].phase
    case Scanning(next, oldest, olap, oltp) =>
      && next == |words| <= |s.workers| && given == [] && IsNewestOlap(words, olap) && IsOldestOltp(words, oltp)
      && (if words == [] then oldest.None? else oldest.Some? && IsOldest(words, oldest.value))
    case StoredAll(olap, oltp) =>
      && |words| == |s.workers| && given == [] && IsOldest(words, s.oldestAll)
      && IsNewestOlap(words, olap) && IsOldestOltp(words, oltp)
    case StoredOltp(olap) =>
      && |words| == |s.workers| && given == [] && IsOldest(words, s.oldestAll)
      && IsNewestOlap(words, olap) && IsOldestOltp(words, s.oldestOltp)
    case Delivering(next, lwm, skipped) =>
      && |words| == |s.workers| && IsOldest(words, s.oldestAll)
      && IsNewestOlap(words, s.newestOlap) && IsOldestOltp(words, s.oldestOltp)
      && next == |given| <= |s.workers| && (skipped <==> None in given) && IsLeastGiven(given, lwm)
    case _ => false
  }

  lemma OldestOne(words: seq<Word>, p: Phase, word: Word)
    requires p.Scanning? && IsNewestOlap(words, p.newestOlap) && IsOldestOltp(words, p.oldestOltp)
    requires if words == [] then p.oldest.None? else p.oldest.Some? && IsOldest(words, p.oldest.value)
    ensures var p' := ScanWord(p, word);
      && IsNewestOlap(words + [word], p'.newestOlap) && IsOldestOltp(words + [word], p'.oldestOltp)
      && p'.oldest.Some? && IsOldest(words + [word], p'.oldest.value)
  {
    var (more, n, p') := (words + [word], |words|, ScanWord(p, word));
    assert more[n] == word && forall i | 0 <= i < n :: more[i] == words[i];
    OldestPart(words, p.oldest, word, p'.oldest.value);
    NewestPart(words, p.newestOlap, word, p'.newestOlap);
    OltpPart(words, p.oldestOltp, word, p'.oldestOltp);
  }

  lemma OldestPart(words: seq<Word>, oldest: Option<nat>, word: Word, r: nat)
    requires r == MinOf(oldest, word.ts)
    requires if words == [] then oldest.None? else oldest.Some? && IsOldest(words, oldest.value)
    ensures IsOldest(words + [word], r)
  {
    var more := words + [word];
    if r == word.ts {
      assert more[|words|].ts == r;
    } else {
      var i :| 0 <= i < |words| && words[i].ts == r;
      assert more[i].ts == r;
    }
  }

  lemma NewestPart(words: seq<Word>, newest: nat, word: Word, r: nat)
    requires IsNewestOlap(words, newest) && r == if word.olap && newest < word.ts then word.ts else newest
    ensures IsNewestOlap(words + [word], r)
  {
    var more := words + [word];
    if word.olap && newest < word.ts {
      assert more[|words|].ts == r;
    } else if r != 0 {
      var i :| 0 <= i < |words| && words[i].olap && words[i].ts == r;
      assert more[i].ts == r;
    }
  }

  lemma OltpPart(words: seq<Word>, oldest: Option<nat>, word: Word, r: Option<nat>)
    requires IsOldestOltp(words, oldest) && r == if word.olap then oldest else Some(MinOf(oldest, word.ts))
    ensures IsOldestOltp(words + [word], r)
  {
    var more := words + [word];
    if !word.olap && r.value == word.ts {
      assert more[|words|].ts == r.value;
    } else if r.Some? {
      var i :| 0 <= i < |words| && !words[i].olap && words[i].ts == r.value;
      assert more[i].ts == r.value;
    }
  }

  lemma MutexKeeps(v: World, w: nat, e: Event, v': World)
    requires MutexOk(v.sys) && StepTo(v, w, e, v')
    ensures MutexOk(v'.sys)
  {
    MutexShape(v, w, e, v');
  }

  lemma MutexShape(v: World, w: nat, e: Event, v': World)
    requires StepTo(v, w, e, v')
    ensures |v'.sys.workers| == |v.sys.workers|
    ensures forall o | 0 <= o < |v.sys.workers| && o != w :: v'.sys.workers[o].phase == v.sys.workers[o].phase
    ensures var (p, p') := (v.sys.workers[w].phase, v'.sys.workers[w].phase);
      if e.BeginRefresh? then !Refreshing(p) && Refreshing(p') && v.sys.mutex.None? && v'.sys.mutex == Some(w)
      else if e.EndRefresh? then Refreshing(p) && !Refreshing(p') && v'.sys.mutex.None?
      else (Refreshing(p') <==> Refreshing(p)) && v'.sys.mutex == v.sys.mutex
  {
    if e.Deliver? {
      DeliverMutex(v, w, v');
    }
  }

  lemma DeliverMutex(v: World, w: nat, v': World)
    requires StepTo(v, w, Deliver, v')
    ensures |v'.sys.workers| == |v.sys.workers| && v'.sys.mutex == v.sys.mutex
    ensures forall o | 0 <= o < |v.sys.workers| && o != w :: v'.sys.workers[o].phase == v.sys.workers[o].phase
    ensures v.sys.workers[w].phase.Delivering? && v'.sys.workers[w].phase.Delivering?
  {
  }

  /** Only its holder stores what the mutex protects. */
  lemma OthersStay(v: World, o: nat, e: Event, v': World, w: nat)
    requires MutexOk(v.sys) && StepTo(v, o, e, v') && w < |v.sys.workers| && Refreshing(v.sys.workers[w].phase)
    requires o != w
    ensures |v'.sys.workers| == |v.sys.workers| && v'.sys.workers[w].phase == v.sys.workers[w].phase
    ensures v'.sys.oldestAll == v.sys.oldestAll && v'.sys.oldestOltp == v.sys.oldestOltp
    ensures v'.sys.newestOlap == v.sys.newestOlap && v'.sys.allLwm == v.sys.allLwm
  {
    assert !Refreshing(v.sys.workers[o].phase);
    match e
    case _ =>
  }

  lemma ReadStage(v: World, w: nat, v': World, words: seq<Word>)
    requires StepTo(v, w, RefreshRead, v') && Stage(v.sys, w, words, [])
    ensures |words| < |v.sys.workers| && Stage(v'.sys, w, words + [v.sys.workers[|words|].word], [])
  {
    OldestOne(words, v.sys.workers[w].phase, v.sys.workers[|words|].word);
  }

  lemma StoreStage(v: World, w: nat, e: Event, v': World, words: seq<Word>, given: seq<Option<nat>>)
    requires StepTo(v, w, e, v') && Stage(v.sys, w, words, given) && (e.StoreOldest? || e.StoreOltp? || e.StoreOlap?)
    ensures Stage(v'.sys, w, words, given)
  {
  }

  lemma GivenOne(given: seq<Option<nat>>, lwm: Option<nat>, x: Option<nat>, r: Option<nat>)
    requires IsLeastGiven(given, lwm) && r == if x.None? then lwm else Some(MinOf(lwm, x.value))
    ensures IsLeastGiven(given + [x], r) && (None in given + [x] <==> None in given || x.None?)
  {
    var more := given + [x];
    assert more[|given|] == x && forall i | 0 <= i < |given| :: more[i] == given[i];
    if r.Some? && r != x {
      var i :| 0 <= i < |given| && given[i] == r;
      assert more[i] == r;
    }
    if None in given {
      var i :| 0 <= i < |given| && given[i] == None;
      assert more[i] == None;
    }
  }

  lemma DeliverShape(v: World, w: nat, v': World)
    requires StepTo(v, w, Deliver, v')
    ensures v.sys.workers[w].phase.Delivering? && v.sys.workers[w].phase.next < |v.sys.workers| == |v'.sys.workers|
    ensures var p := v.sys.workers[w].phase;
      var x := GivenTo(v.sys.workers[p.next], v.sys.oldestAll);
      && v'.sys.workers[w].phase == Delivering(p.next + 1, if x.None? then p.lwm else Some(MinOf(p.lwm, x.value)),
                                               p.skipped || x.None?)
      && v'.sys.workers[p.next].received == (if x.None? then v.sys.workers[p.next].received else x.value)
      && v'.sys.workers[p.next].lwmForTx == v.sys.workers[p.next].latestWrite == v'.sys.workers[p.next].latestWrite
      && v'.sys.oldestAll == v.sys.oldestAll && v'.sys.oldestOltp == v.sys.oldestOltp
      && v'.sys.newestOlap == v.sys.newestOlap && v'.sys.allLwm == v.sys.allLwm
  {
  }

  lemma DeliverStage(v: World, w: nat, v': World, words: seq<Word>, given: seq<Option<nat>>)
    requires StepTo(v, w, Deliver, v') && Stage(v.sys, w, words, given)
    ensures |given| < |v.sys.workers|
    ensures Stage(v'.sys, w, words, given + [GivenTo(v.sys.workers[|given|], v.sys.oldestAll)])
  {
    DeliverShape(v, w, v');
    var (p, x) := (v.sys.workers[w].phase, GivenTo(v.sys.workers[|given|], v.sys.oldestAll));
    GivenOne(given, p.lwm, x, if x.None? then p.lwm else Some(MinOf(p.lwm, x.value)));
  }

  // ----- over runs

  lemma InitMutex(n: nat)
    ensures MutexOk(Init(n))
  {
  }

  lemma {:induction false} RunMutex(n: nat, worlds: seq<World>, actions: seq<Action>, k: nat)
    requires Run(n, worlds, actions) && k <= |actions|
    ensures MutexOk(worlds[k].sys)
  {
    if k == 0 {
      InitMutex(n);
    } else {
      RunMutex(n, worlds, actions, k - 1);
      assert StepAt(worlds, actions, k - 1);
      MutexKeeps(worlds[k - 1], actions[k - 1].worker, actions[k - 1].event, worlds[k]);
    }
  }

  lemma BeginStage(v: World, w: nat, v': World)
    requires StepTo(v, w, BeginRefresh, v')
    ensures w < |v'.sys.workers| && Stage(v'.sys, w, [], [])
  {
  }

  /** What worker w can do while it refreshes. */
  lemma OwnEvents(v: World, w: nat, e: Event, v': World)
    requires StepTo(v, w, e, v') && Refreshing(v.sys.workers[w].phase)
    ensures e.RefreshRead? || e.StoreOldest? || e.StoreOltp? || e.StoreOlap? || e.Deliver? || e.EndRefresh?
    ensures |v'.sys.workers| == |v.sys.workers|
  {
  }

  /** The reads and deliveries of a refresh are what the refreshing worker has gathered and stored. */
  lemma {:induction false} RefreshStage(n: nat, worlds: seq<World>, actions: seq<Action>, w: nat, b: nat, k: nat)
    requires Run(n, worlds, actions) && InRefresh(worlds, actions, w, b, k)
    ensures w < |worlds[k].sys.workers|
    ensures Stage(worlds[k].sys, w, Words(worlds, actions, w, b, k), Given(worlds, actions, w, b, k))
    decreases k
  {
    if k == b + 1 {
      FirstStageAt(n, worlds, actions, w, b);
    } else {
      RefreshStage(n, worlds, actions, w, b, k - 1);
      NextStageAt(n, worlds, actions, w, k - 1, Words(worlds, actions, w, b, k - 1),
                  Given(worlds, actions, w, b, k - 1));
    }
  }

  lemma FirstStageAt(n: nat, worlds: seq<World>, actions: seq<Action>, w: nat, b: nat)
    requires Run(n, worlds, actions) && b < |actions| && actions[b] == Action(w, BeginRefresh)
    ensures w < |worlds[b + 1].sys.workers| && Stage(worlds[b + 1].sys, w, [], [])
  {
    assert StepAt(worlds, actions, b);
    BeginStage(worlds[b], w, worlds[b + 1]);
  }

  lemma NextStageAt(n: nat, worlds: seq<World>, actions: seq<Action>, w: nat, k: nat, words: seq<Word>,
                    given: seq<Option<nat>>)
    requires Run(n, worlds, actions) && k < |actions| && actions[k] != Action(w, EndRefresh)
    requires w < |worlds[k].sys.workers| && Stage(worlds[k].sys, w, words, given)
    ensures |worlds[k + 1].sys.workers| == |worlds[k].sys.workers|
    ensures var (s, read, gave) :=
            (worlds[k].sys, actions[k] == Action(w, RefreshRead), actions[k] == Action(w, Deliver));
      Stage(worlds[k + 1].sys, w, if read && |words| < |s.workers| then words + [s.workers[|words|].word] else words,
            if gave && |given| < |s.workers| then given + [GivenTo(s.workers[|given|], s.oldestAll)] else given)
  {
    assert StepAt(worlds, actions, k);
    RunMutex(n, worlds, actions, k);
    NextStage(worlds[k], actions[k], worlds[k + 1], w, words, given);
  }

  lemma NextStage(v: World, a: Action, v': World, w: nat, words: seq<Word>, given: seq<Option<nat>>)
    requires StepTo(v, a.worker, a.event, v') && MutexOk(v.sys) && a != Action(w, EndRefresh)
    requires w < |v.sys.workers| && Stage(v.sys, w, words, given)
    ensures |v'.sys.workers| == |v.sys.workers|
    ensures var (read, gave) := (a == Action(w, RefreshRead), a == Action(w, Deliver));
      Stage(v'.sys, w, if read && |words| < |v.sys.workers| then words + [v.sys.workers[|words|].word] else words,
            if gave && |given| < |v.sys.workers| then given + [GivenTo(v.sys.workers[|given|], v.sys.oldestAll)]
            else given)
  {
    if a.worker == w {
      OwnStage(v, w, a.event, v', words, given);
    } else {
      OthersStay(v, a.worker, a.event, v', w);
    }
  }

  lemma OwnStage(v: World, w: nat, e: Event, v': World, words: seq<Word>, given: seq<Option<nat>>)
    requires StepTo(v, w, e, v') && Stage(v.sys, w, words, given) && !e.EndRefresh?
    ensures |v'.sys.workers| == |v.sys.workers|
    ensures Stage(v'.sys, w,
                  if e.RefreshRead? && |words| < |v.sys.workers| then words + [v.sys.workers[|words|].word] else words,
                  if e.Deliver? && |given| < |v.sys.workers|
                  then given + [GivenTo(v.sys.workers[|given|], v.sys.oldestAll)] else given)
  {
    OwnEvents(v, w, e, v');
    if e.RefreshRead? {
      ReadPhase(v, w, v');
      ReadStage(v, w, v', words);
    } else if e.Deliver? {
      DeliverStage(v, w, v', words, given);
    } else {
      StoreStage(v, w, e, v', words, given);
    }
  }

  lemma ReadPhase(v: World, w: nat, v': World)
    requires StepTo(v, w, RefreshRead, v')
    ensures v.sys.workers[w].phase.Scanning?
  {
  }

  /**
    The three stores of a refresh: the oldest snapshot, the oldest OLTP one and the newest OLAP one of all the words
    that it has read, one of every worker.
   */
  lemma RefreshStores(n: nat, worlds: seq<World>, actions: seq<Action>, w: nat, b: nat, k: nat)
    requires Run(n, worlds, actions) && InRefresh(worlds, actions, w, b, k) && k < |actions| && actions[k].worker == w
    ensures var (words, s', e) := (Words(worlds, actions, w, b, k), worlds[k + 1].sys, actions[k].event);
      && (e.StoreOldest? || e.StoreOltp? || e.StoreOlap? ==> |words| == |s'.workers|)
      && (e.StoreOldest? ==> IsOldest(words, s'.oldestAll))
      && (e.StoreOltp? ==> IsOldestOltp(words, s'.oldestOltp))
      && (e.StoreOlap? ==> IsNewestOlap(words, s'.newestOlap))
  {
    RefreshStage(n, worlds, actions, w, b, k);
    assert StepAt(worlds, actions, k);
  }

  /**
    A delivery: the next worker gets the start of its last commit before the oldest of the words that were read, unless
    it has not written since it got its last watermark.
   */
  lemma RefreshDelivers(n: nat, worlds: seq<World>, actions: seq<Action>, w: nat, b: nat, k: nat)
    requires Run(n, worlds, actions) && InRefresh(worlds, actions, w, b, k) && k < |actions|
    requires actions[k] == Action(w, Deliver)
    ensures var (words, o) := (Words(worlds, actions, w, b, k), |Given(worlds, actions, w, b, k)|);
      var (s, s') := (worlds[k].sys, worlds[k + 1].sys);
      && IsOldest(words, s.oldestAll) && |words| == |s.workers| && o < |s.workers| == |s'.workers|
      && s'.workers[o].received == (if s.workers[o].lwmForTx == s.workers[o].latestWrite then s.workers[o].received
                                    else StartLCB(s.workers[o].tree, s.oldestAll))
      && s'.workers[o].lwmForTx == s'.workers[o].latestWrite
  {
    RefreshStage(n, worlds, actions, w, b, k);
    assert StepAt(worlds, actions, k);
    DeliverShape(worlds[k], w, worlds[k + 1]);
  }

  /** The end: the least of the watermarks given is global, if every worker got one; if not, the old one stays. */
  lemma RefreshEnds(n: nat, worlds: seq<World>, actions: seq<Action>, w: nat, b: nat, k: nat)
    requires Run(n, worlds, actions) && InRefresh(worlds, actions, w, b, k) && k < |actions|
    requires actions[k] == Action(w, EndRefresh)
    ensures var (given, s, s') := (Given(worlds, actions, w, b, k), worlds[k].sys, worlds[k + 1].sys);
      && |given| == |s.workers| && s'.mutex.None?
      && (None in given ==> s'.allLwm == s.allLwm)
      && (None !in given ==> |given| > 0 && IsLeastGiven(given, Some(s'.allLwm)))
  {
    RefreshStage(n, worlds, actions, w, b, k);
    assert StepAt(worlds, actions, k);
    var given := Given(worlds, actions, w, b, k);
    if None !in given {
      assert given[0].Some?;
    }
  }

  /** Nothing else changes what a refresh stores. */
  lemma OnlyRefreshes(v: World, w: nat, e: Event, v': World)
    requires StepTo(v, w, e, v')
    ensures v'.sys.oldestAll != v.sys.oldestAll ==> e.StoreOldest?
    ensures v'.sys.oldestOltp != v.sys.oldestOltp ==> e.StoreOltp?
    ensures v'.sys.newestOlap != v.sys.newestOlap ==> e.StoreOlap?
    ensures v'.sys.allLwm != v.sys.allLwm ==> e.EndRefresh?
  {
    match e
    case _ =>
  }
}
