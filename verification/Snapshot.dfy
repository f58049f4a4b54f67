/**
  Snapshot isolation: workers that start, commit, prune their commit trees and deliver low watermarks,
  interleaved step by step. SI transactions only; the published snapshot word is the timestamp with its
  latch bit and its OLAP bit.
 */
module Snapshot {
  import opened Wrappers
  import opened CommitTree

  /** global_workers_current_snapshot[w]: LATCH_BIT, OLAP_BIT and the timestamp under CLEAN_BITS_MASK. */
  datatype Word = Word(latched: bool, olap: bool, ts: nat)

  datatype Phase =
    | Idle                                    // no transaction
    | Latched                                 // word stored with the latch bit
    | Drawn                                   // timestamp drawn, not published
    | Cleaning(next: nat, keep: set<Entry>)   // cleanIfNecessary is reading worker `next`
    | Loading                                 // about to read global_all_lwm
    | Active                                  // running
    | Committed                               // precommitted, before refreshGlobalState
    | Scanning(next: nat, oldest: Option<nat>, newestOlap: nat, oldestOltp: Option<nat>) // refreshing: the first loop
    | StoredAll(newestOlap: nat, oldestOltp: Option<nat>) // between the first and the second of its three stores
    | StoredOltp(newestOlap: nat)             // between the second and the third
    | Delivering(next: nat, lwm: Option<nat>, skipped: bool) // second loop

  datatype Worker = Worker(
    phase: Phase,
    start: nat,          // active_tx.start_ts
    olap: bool,          // active_tx.isOLAP()
    word: Word,
    tree: seq<Entry>,    // commit_tree
    cache: seq<nat>,     // local_snapshot_cache
    cacheTs: seq<nat>,   // local_snapshot_cache_ts
    lwmCache: nat,       // local_global_all_lwm_cache
    received: nat,       // all_lwm_receiver
    latestWrite: nat,    // local_latest_write_tx
    lwmForTx: nat,       // local_latest_lwm_for_tx
    purged: nat)         // its versions of transactions below this are gone from the history tree

  datatype Sys = Sys(
    clock: nat,
    workers: seq<Worker>,
    oldestAll: nat,      // global_oldest_all_start_ts
    newestOlap: nat,     // global_newest_olap_start_ts
    oldestOltp: Option<nat>, // global_oldest_oltp_start_ts; None is the largest u64
    allLwm: nat,         // global_all_lwm
    mutex: Option<nat>)  // global_mutex

  /** global_clock starts at WORKERS_INCREMENT. */
  const FIRST_CLOCK: nat := 256

  function InitWorker(n: nat): (w: Worker) {
    Worker(Idle, 0, false, Word(false, false, 0), [], seq(n, i => 0), seq(n, i => 0), 0, 0, 0, 0, 0)
  }

  function Init(n: nat): (s: Sys) {
    Sys(FIRST_CLOCK, seq(n, i => InitWorker(n)), 0, 0, Some(0), 0, None)
  }

  /** Crash: the assert of commit on a full tree. */
  datatype Outcome = Next(sys: Sys) | Blocked | Crash

  datatype Event =
    | Latch(olap: bool) | Draw | Publish | CleanRead | CleanFinish | LoadLwm
    | Ask(other: nat, ts: nat)
    | Commit(wrote: bool)
    | SkipRefresh | BeginRefresh | RefreshRead | StoreOldest | StoreOltp | StoreOlap | Deliver | EndRefresh | Purge

  function Capacity(s: Sys): (r: nat) {
    |s.workers| + 1
  }

  function MinOf(a: Option<nat>, b: nat): (r: nat) {
    if a.Some? && a.value < b then a.value else b
  }

  /** One turn of the scan: the oldest snapshot, the newest OLAP one and the oldest OLTP one so far. */
  function ScanWord(p: Phase, word: Word): (r: Phase)
    requires p.Scanning?
  {
    Scanning(p.next + 1, Some(MinOf(p.oldest, word.ts)),
             if word.olap && p.newestOlap < word.ts then word.ts else p.newestOlap,
             if word.olap then p.oldestOltp else Some(MinOf(p.oldestOltp, word.ts)))
  }

  function Put(s: Sys, w: nat, worker: Worker): (r: Sys)
    requires w < |s.workers|
  {
    s.(workers := s.workers[w := worker])
  }

  /** The entries cleanIfNecessary inserts for one other worker's snapshot. */
  function KeepFor(tree: seq<Entry>, ts: nat): (r: set<Entry>)
    requires tree != []
  {
    {tree[|tree| - 1]} +
    (if ts == 0 then {tree[0]} else match LCB(tree, ts) case None => {} case Some(e) => {e})
  }

  /** isVisibleForMe for a start timestamp, at snapshot isolation: the answer and the worker with its caches updated. */
  function IsVisibleForMe(s: Sys, me: nat, other: nat, ts: nat): (r: (bool, Worker))
    requires me < |s.workers| && other < |s.workers|
    requires |s.workers[me].cache| == |s.workers[me].cacheTs| == |s.workers|
  {
    var my := s.workers[me];
    if me == other then (true, my)
    else if ts < my.lwmCache then (true, my)
    else if my.cacheTs[other] == my.start then (my.cache[other] >= ts, my)
    else if my.cache[other] >= ts then (true, my)
    else
      var lcb := StartLCB(s.workers[other].tree, my.start);
      if lcb != 0 then (lcb >= ts, my.(cache := my.cache[other := lcb], cacheTs := my.cacheTs[other := my.start]))
      else (false, my)
  }

  function Step(s: Sys, w: nat, e: Event): (r: Outcome)
    requires forall i | 0 <= i < |s.workers| :: |s.workers[i].cache| == |s.workers[i].cacheTs| == |s.workers|
  {
    if w >= |s.workers| then Blocked
    else
      var my := s.workers[w];
      match e
      case Latch(olap) =>
        if !my.phase.Idle? then Blocked
        else Next(Put(s, w, my.(phase := Latched, olap := olap, word := Word(true, false, my.start))))
      case Draw =>
        if !my.phase.Latched? then Blocked
        else Next(Put(s, w, my.(phase := Drawn, start := s.clock)).(clock := s.clock + 1))
      case Publish =>
        if !my.phase.Drawn? then Blocked
        else
          var next := if |my.tree| < Capacity(s) then Loading else Cleaning(0, {});
          Next(Put(s, w, my.(phase := next, word := Word(false, my.olap, my.start))))
      case CleanRead =>
        if !my.phase.Cleaning? || my.phase.next >= |s.workers| || my.tree == [] then Blocked
        else
          var i := my.phase.next;
          if i == w then Next(Put(s, w, my.(phase := Cleaning(i + 1, my.phase.keep))))
          else if s.workers[i].word.latched then Blocked
          else Next(Put(s, w, my.(phase := Cleaning(i + 1, my.phase.keep + KeepFor(my.tree, s.workers[i].word.ts)))))
      case CleanFinish =>
        if !my.phase.Cleaning? || my.phase.next < |s.workers| then Blocked
        else Next(Put(s, w, my.(phase := Loading, tree := Filter(my.tree, my.phase.keep))))
      case LoadLwm =>
        if !my.phase.Loading? then Blocked else Next(Put(s, w, my.(phase := Active, lwmCache := s.allLwm)))
      case Ask(other, ts) =>
        if !my.phase.Active? || other >= |s.workers| then Blocked
        else Next(Put(s, w, IsVisibleForMe(s, w, other, ts).1))
      case Commit(wrote) =>
        if !my.phase.Active? then Blocked
        else if !wrote then Next(Put(s, w, my.(phase := Committed)))
        else if |my.tree| >= Capacity(s) then Crash
        else
          Next(Put(s, w, my.(phase := Committed, tree := my.tree + [Entry(s.clock, my.start)], latestWrite := s.clock))
               .(clock := s.clock + 1))
      case SkipRefresh =>
        if !my.phase.Committed? then Blocked else Next(Put(s, w, my.(phase := Idle)))
      case BeginRefresh =>
        if !my.phase.Committed? || s.mutex.Some? then Blocked
        else Next(Put(s, w, my.(phase := Scanning(0, None, 0, None))).(mutex := Some(w)))
      case RefreshRead =>
        if !my.phase.Scanning? || my.phase.next >= |s.workers| then Blocked
        else
          var word := s.workers[my.phase.next].word;
          if word.latched && word.ts < my.start then Blocked
          else Next(Put(s, w, my.(phase := ScanWord(my.phase, word))))
      case StoreOldest =>
        if !my.phase.Scanning? || my.phase.next < |s.workers| || my.phase.oldest.None? then Blocked
        else Next(Put(s, w, my.(phase := StoredAll(my.phase.newestOlap, my.phase.oldestOltp)))
                  .(oldestAll := my.phase.oldest.value))
      case StoreOltp =>
        if !my.phase.StoredAll? then Blocked
        else Next(Put(s, w, my.(phase := StoredOltp(my.phase.newestOlap))).(oldestOltp := my.phase.oldestOltp))
      case StoreOlap =>
        if !my.phase.StoredOltp? then Blocked
        else Next(Put(s, w, my.(phase := Delivering(0, None, false))).(newestOlap := my.phase.newestOlap))
      case Deliver =>
        if !my.phase.Delivering? || my.phase.next >= |s.workers| then Blocked
        else
          var i := my.phase.next;
          var it := s.workers[i];
          if it.lwmForTx == it.latestWrite then
            Next(Put(s, w, my.(phase := Delivering(i + 1, my.phase.lwm, true))))
          else
            var lwm := StartLCB(it.tree, s.oldestAll);
            var s1 := Put(s, i, it.(lwmForTx := it.latestWrite, received := lwm));
            Next(Put(s1, w,
              s1.workers[w].(phase := Delivering(i + 1, Some(MinOf(my.phase.lwm, lwm)), my.phase.skipped))))
      case EndRefresh =>
        if !my.phase.Delivering? || my.phase.next < |s.workers| then Blocked
        else
          var s1 := Put(s, w, my.(phase := Idle)).(mutex := None);
          Next(if my.phase.skipped || my.phase.lwm.None? then s1 else s1.(allLwm := my.phase.lwm.value))
      case Purge =>
        if !my.phase.Idle? then Blocked
        else Next(Put(s, w, my.(purged := if my.received > my.purged then my.received else my.purged)))
  }

  // ----- the full commit history, which no step reads

  type History = seq<seq<Entry>>

  function HistoryStep(s: Sys, h: History, w: nat, e: Event): (r: History)
    requires w < |s.workers| == |h|
  {
    if e == Commit(true) then h[w := h[w] + [Entry(s.clock, s.workers[w].start)]] else h
  }

  /** o holds a snapshot at its start timestamp, published or not. */
  predicate Live(o: Worker) {
    o.phase.Drawn? || o.phase.Cleaning? || o.phase.Loading? || o.phase.Active?
  }

  /** Transaction t of the worker with history h committed before ts. */
  ghost predicate CommittedBefore(h: seq<Entry>, t: nat, ts: nat) {
    exists e :: e in h && e.start == t && e.commit < ts
  }

  // ----- the invariant

  /** A worker runs one transaction after the other. */
  ghost predicate HistoryOk(clock: nat, my: Worker, h: seq<Entry>) {
    && Sorted(h)
    && (forall i | 0 <= i < |h| :: 0 < h[i].start < h[i].commit < clock && h[i].start <= my.start)
    && (forall i, j | 0 <= i < j < |h| :: h[i].commit < h[j].start)
    && (Live(my) ==> 0 < my.start && forall i | 0 <= i < |h| :: h[i].commit < my.start)
    && (my.start < clock)
  }

  ghost predicate WordOk(my: Worker) {
    match my.phase
    case Latched => my.word == Word(true, false, my.start)
    case Drawn => my.word.latched && my.word.ts < my.start
    case _ => my.word == Word(false, my.olap, my.start)
  }

  ghost predicate TreeOk(n: nat, my: Worker, h: seq<Entry>) {
    && Sorted(my.tree) && (forall e | e in my.tree :: e in h)
    && (my.tree == [] <==> h == [])
    && (my.tree != [] ==> my.tree[|my.tree| - 1] == h[|h| - 1])
    && |my.tree| <= n + 1
    && (my.phase.Loading? || my.phase.Active? ==> |my.tree| <= n)
  }

  /** The pruned tree answers like the full history for a snapshot at ts. */
  ghost predicate Exact(my: Worker, h: seq<Entry>, ts: nat) {
    LCB(my.tree, ts) == LCB(h, ts)
  }

  /** What one read of another worker's snapshot must have left in keep. */
  ghost predicate Covered(tree: seq<Entry>, keep: set<Entry>, ts: nat) {
    LCB(tree, ts).Some? ==> LCB(tree, ts).value in keep
  }

  /**
    What the cleaner has already collected covers the snapshots it has already read, also if their workers have moved
    on.
   */
  ghost predicate CleaningOk(s: Sys, w: nat)
    requires w < |s.workers|
  {
    var my := s.workers[w];
    my.phase.Cleaning? ==>
      var (i, keep) := (my.phase.next, my.phase.keep);
      && i <= |s.workers| && my.tree != []
      && (forall e | e in keep :: e in my.tree)
      && |keep + {my.tree[|my.tree| - 1]}| <= 1 + i - (if w < i then 1 else 0)
      && (i > 1 || (i == 1 && w != 0) ==> my.tree[|my.tree| - 1] in keep)
      && (forall o | 0 <= o < i && o != w && Live(s.workers[o]) :: Covered(my.tree, keep, s.workers[o].start))
  }

  /** e is visible to every snapshot that is live now, and to every later one. */
  ghost predicate Settled(s: Sys, e: Entry) {
    e.commit < s.clock && forall o | 0 <= o < |s.workers| && Live(s.workers[o]) :: e.commit < s.workers[o].start
  }

  /** Every transaction of this history that started below lwm precedes a settled one. */
  ghost predicate SafeLwm(s: Sys, h: seq<Entry>, lwm: nat) {
    lwm == 0 || exists e :: e in h && lwm <= e.start && Settled(s, e)
  }

  /** No live snapshot is older. */
  ghost predicate NotYounger(s: Sys, ts: nat) {
    ts <= s.clock && forall o | 0 <= o < |s.workers| && Live(s.workers[o]) :: ts <= s.workers[o].start
  }

  ghost predicate RefreshOk(s: Sys, h: History, w: nat)
    requires w < |s.workers| == |h|
  {
    var my := s.workers[w];
    && (my.phase.Scanning? ==>
          && my.phase.next <= |s.workers|
          && (my.phase.oldest.None? <==> my.phase.next == 0)
          && (my.phase.oldest.Some? ==>
                && my.phase.oldest.value <= s.clock
                && forall o | 0 <= o < my.phase.next && Live(s.workers[o]) ::
                   my.phase.oldest.value <= s.workers[o].start))
    && (my.phase.Delivering? ==>
          && my.phase.next <= |s.workers|
          && (!my.phase.skipped && my.phase.next > 0 ==> my.phase.lwm.Some?)
          && (my.phase.lwm.Some? && !my.phase.skipped ==>
                forall o | 0 <= o < my.phase.next :: SafeLwm(s, h[o], my.phase.lwm.value)))
  }

  /** Cached snapshots: old ones are sound, the one of the running transaction is exact. */
  ghost predicate CacheOk(s: Sys, h: History, me: nat, o: nat)
    requires me < |s.workers| == |h| && o < |s.workers|
    requires |s.workers[me].cache| == |s.workers[me].cacheTs| == |s.workers|
  {
    var my := s.workers[me];
    var (c, ts) := (my.cache[o], my.cacheTs[o]);
    && ts <= my.start
    && (c != 0 ==> exists e :: e in h[o] && e.start == c && e.commit < ts)
    && (Live(my) && ts == my.start && o != me ==> c == StartLCB(h[o], my.start))
  }

  ghost predicate Shape(s: Sys, h: History) {
    && |s.workers| == |h|
    && forall i | 0 <= i < |s.workers| :: |s.workers[i].cache| == |s.workers[i].cacheTs| == |s.workers|
  }

  ghost predicate Locals(s: Sys, h: History)
    requires |s.workers| == |h|
  {
    && 0 < s.clock
    && forall w | 0 <= w < |h| ::
         HistoryOk(s.clock, s.workers[w], h[w]) && WordOk(s.workers[w]) && TreeOk(|h|, s.workers[w], h[w])
  }

  /** Every tree is exact for every other worker's live snapshot. */
  ghost predicate Exacts(s: Sys, h: History)
    requires |s.workers| == |h|
  {
    forall w, o | 0 <= w < |h| && 0 <= o < |h| && o != w && Live(s.workers[o]) ::
      Exact(s.workers[w], h[w], s.workers[o].start)
  }

  ghost predicate Cleanings(s: Sys) {
    forall w | 0 <= w < |s.workers| :: CleaningOk(s, w)
  }

  ghost predicate Refreshes(s: Sys, h: History)
    requires |s.workers| == |h|
  {
    forall w | 0 <= w < |h| :: RefreshOk(s, h, w)
  }

  /** Every watermark that some worker may act on is safe. */
  ghost predicate Lwms(s: Sys, h: History)
    requires |s.workers| == |h|
  {
    && NotYounger(s, s.oldestAll)
    && (forall w | 0 <= w < |h| ::
          && SafeLwm(s, h[w], s.workers[w].received)
          && SafeLwm(s, h[w], s.workers[w].purged)
          && SafeLwm(s, h[w], s.allLwm))
    && (forall w, o | 0 <= w < |h| && 0 <= o < |h| :: SafeLwm(s, h[o], s.workers[w].lwmCache))
  }

  ghost predicate Caches(s: Sys, h: History)
    requires Shape(s, h)
  {
    forall w, o | 0 <= w < |h| && 0 <= o < |h| :: CacheOk(s, h, w, o)
  }

  /** For two workers or more: cleaning keeps a commit only if it reads another worker. */
  ghost predicate Inv(s: Sys, h: History) {
    && 2 <= |h| && Shape(s, h)
    && Locals(s, h) && Exacts(s, h) && Cleanings(s) && Refreshes(s, h) && Lwms(s, h) && Caches(s, h)
  }

  // ----- runs

  datatype World = World(sys: Sys, hist: History)

  ghost predicate StepTo(v: World, w: nat, e: Event, v': World) {
    && Shape(v.sys, v.hist) && w < |v.hist|
    && Step(v.sys, w, e) == Next(v'.sys)
    && v'.hist == HistoryStep(v.sys, v.hist, w, e)
  }

  datatype Action = Action(worker: nat, event: Event)

  ghost predicate StepAt(worlds: seq<World>, actions: seq<Action>, i: nat)
    requires |worlds| == |actions| + 1 && i < |actions|
  {
    StepTo(worlds[i], actions[i].worker, actions[i].event, worlds[i + 1])
  }

  ghost predicate Run(n: nat, worlds: seq<World>, actions: seq<Action>) {
    && |worlds| == |actions| + 1
    && worlds[0] == World(Init(n), seq(n, i => []))
    && forall i | 0 <= i < |actions| :: StepAt(worlds, actions, i)
  }
}
