/**
  Group commit with one log per worker: workers stamp records with GSNs, the group committer computes the
  durable watermark from what it reads while they go on, and commits queued transactions below it.
 */
module GroupCommit {
  import opened Wrappers

  function Min(a: nat, b: nat): (r: nat) { if a < b then a else b }

  function Max(a: nat, b: nat): (r: nat) { if a < b then b else a }

  // ----- the watermark of one round

  function MinAll(s: seq<nat>): (r: nat)
    requires s != []
    ensures forall i | 0 <= i < |s| :: r <= s[i]
    ensures r in s
  {
    if |s| == 1 then s[0] else Min(MinAll(s[..|s| - 1]), s[|s| - 1])
  }

  /** The least GSN among the logs with new records (active), or among those without (stragglers). */
  function MinLogs(gsns: seq<nat>, lastSeen: seq<nat>, active: bool): (r: Option<nat>)
    requires |gsns| == |lastSeen|
    ensures r.Some? ==> exists i :: 0 <= i < |gsns| && (gsns[i] != lastSeen[i] <==> active) && r.value == gsns[i]
    ensures forall i | 0 <= i < |gsns| && (gsns[i] != lastSeen[i] <==> active) :: r.Some? && r.value <= gsns[i]
  {
    if gsns == [] then None
    else
      var n := |gsns| - 1;
      var rest := MinLogs(gsns[..n], lastSeen[..n], active);
      if (gsns[n] != lastSeen[n]) != active then rest
      else if rest.Some? then Some(Min(rest.value, gsns[n]))
      else Some(gsns[n])
  }

  /** min_durable_gsn; None when no log has new records and the round is skipped. */
  function Watermark(visible: seq<nat>, gsns: seq<nat>, lastSeen: seq<nat>): (r: Option<nat>)
    requires |visible| == |gsns| == |lastSeen| && visible != []
  {
    var (active, straggler) := (MinLogs(gsns, lastSeen, true), MinLogs(gsns, lastSeen, false));
    if active.None? then None
    else if straggler.None? then active
    else
      var bound := Min(MinAll(visible), active.value);
      if straggler.value < bound then Some(bound) else Some(Min(straggler.value, active.value))
  }

  /**
    Sound: every log is covered by what it has published or by what its worker has published.
    Never behind the minimum of all logs, nor behind a bound on all workers and all active logs.
   */
  lemma WatermarkBounds(visible: seq<nat>, gsns: seq<nat>, lastSeen: seq<nat>, d: nat)
    requires |visible| == |gsns| == |lastSeen| && visible != []
    ensures var r := Watermark(visible, gsns, lastSeen);
            && (r.None? <==> gsns == lastSeen)
            && (r.Some? ==>
                  && (forall i | 0 <= i < |gsns| ::
                     r.value <= gsns[i] || (gsns[i] == lastSeen[i] && r.value <= visible[i]))
                  && MinAll(gsns) <= r.value
                  && ((forall i | 0 <= i < |gsns| :: d <= visible[i] && (gsns[i] != lastSeen[i] ==> d <= gsns[i])) ==>
                        d <= r.value))
  {
    var (active, straggler) := (MinLogs(gsns, lastSeen, true), MinLogs(gsns, lastSeen, false));
    assert active.Some? || straggler.Some? by {
      assert (gsns[0] != lastSeen[0]) == true || (gsns[0] != lastSeen[0]) == false;
    }
  }

  /** The loop over the workers. */
  method LeastVisible(visible: seq<nat>) returns (r: nat)
    requires visible != []
    ensures r == MinAll(visible)
  {
    r := visible[0];
    var i := 1;
    while i < |visible|
      invariant 1 <= i <= |visible|
      invariant r == MinAll(visible[..i])
    {
      assert visible[..i + 1][..i] == visible[..i];
      r := Min(r, visible[i]);
      i := i + 1;
    }
    assert visible[..i] == visible;
  }

  /** The loop over the logs. */
  method LeastLogs(gsns: seq<nat>, lastSeen: seq<nat>) returns (active: Option<nat>, straggler: Option<nat>)
    requires |gsns| == |lastSeen|
    ensures active == MinLogs(gsns, lastSeen, true)
    ensures straggler == MinLogs(gsns, lastSeen, false)
  {
    active, straggler := None, None;
    var i := 0;
    while i < |gsns|
      invariant 0 <= i <= |gsns|
      invariant active == MinLogs(gsns[..i], lastSeen[..i], true)
      invariant straggler == MinLogs(gsns[..i], lastSeen[..i], false)
    {
      assert gsns[..i + 1][..i] == gsns[..i] && lastSeen[..i + 1][..i] == lastSeen[..i];
      if gsns[i] == lastSeen[i] {
        straggler := Some(if straggler.Some? then Min(straggler.value, gsns[i]) else gsns[i]);
      } else {
        active := Some(if active.Some? then Min(active.value, gsns[i]) else gsns[i]);
      }
      i := i + 1;
    }
    assert gsns[..i] == gsns && lastSeen[..i] == lastSeen;
  }

  /** The round on the values it has copied: both loops, then the choice. */
  method ComputeWatermark(visible: seq<nat>, gsns: seq<nat>, lastSeen: seq<nat>) returns (durable: Option<nat>)
    requires |visible| == |gsns| == |lastSeen| && visible != []
    ensures durable == Watermark(visible, gsns, lastSeen)
  {
    var minWorkers := LeastVisible(visible);
    var active, straggler := LeastLogs(gsns, lastSeen);
    if active.None? {
      durable := None;
    } else if straggler.Some? {
      if straggler.value < minWorkers && straggler.value < active.value {
        durable := Some(Min(active.value, minWorkers));
      } else {
        durable := Some(Min(straggler.value, active.value));
      }
    } else {
      durable := active;
    }
  }

  // ----- the machine

  /** A record of worker `log`'s log, at position `index`. */
  datatype Record = Record(log: nat, index: nat, gsn: nat, page: nat)

  /** A precommitted transaction; seen: its own records and those of the pages it read, at the time it read them. */
  datatype Tx = Tx(maxGsn: nat, startTs: nat, seen: set<Record>)

  datatype Worker = Worker(
    clock: nat,             // worker_gsn_clock
    visible: nat,           // gct_visible_worker_gsn_clock
    logClock: nat,          // log_gsn_clock of its log
    records: seq<Record>,
    open: bool,             // its last record is reserved and not submitted
    published: nat,         // wal_written_offset, in records
    lastGsn: nat,           // published last_gsn
    written: nat,           // wal_gct_cursor, in records
    startTs: nat,
    running: bool,
    seen: set<Record>,
    queue: seq<Tx>,         // precommitted_queue
    precommitted: nat)      // last_precommitted_tx_commit_ts

  datatype Copy = Copy(gsn: nat, index: nat)

  datatype Phase =
    | ReadWorkers(visible: seq<nat>, hardened: seq<nat>)
    | ReadLogs(visible: seq<nat>, hardened: seq<nat>, copies: seq<Copy>)
    | Committing(next: nat, minHardened: nat, maxLogs: nat)

  datatype Sys = Sys(
    workers: seq<Worker>,
    pages: map<nat, nat>,
    phase: Phase,
    lastSeen: seq<nat>,     // per_log_last_seen_gsn
    durable: nat,           // min_durable_gsn of the last completed write
    flushed: nat,           // global_min_gsn_flushed
    sync: nat,              // global_sync_to_this_gsn
    committed: set<Tx>)

  datatype Event =
    | StartTx(w: nat, ts: nat) | ReadPage(w: nat, page: nat) | Reserve(w: nat, page: nat) | Submit(w: nat)
      | CommitTx(w: nat)
    | GctReadWorker | GctReadLog | GctSkip | GctFlush | GctCommit | GctStore

  function InitWorker(): (r: Worker) {
    Worker(0, 0, 0, [], false, 0, 0, 0, 0, false, {}, [], 0)
  }

  function Init(n: nat): (s: Sys) {
    Sys(seq(n, i => InitWorker()), map[], ReadWorkers([], []), seq(n, i => 0), 0, 0, 0, {})
  }

  function PageGsn(s: Sys, page: nat): (r: nat) {
    if page in s.pages then s.pages[page] else 0
  }

  function PageRecords(s: Sys, page: nat): (r: set<Record>) {
    set w, k | 0 <= w < |s.workers| && 0 <= k < |s.workers[w].records| && s.workers[w].records[k].page == page ::
      s.workers[w].records[k]
  }

  function Gsns(copies: seq<Copy>): (r: seq<nat>) {
    seq(|copies|, i requires 0 <= i < |copies| => copies[i].gsn)
  }

  function MaxAll(s: seq<nat>): (r: nat)
    requires s != []
    ensures forall i | 0 <= i < |s| :: s[i] <= r
    ensures r in s
  {
    if |s| == 1 then s[0] else Max(MaxAll(s[..|s| - 1]), s[|s| - 1])
  }

  /** The prefix of a queue that one round commits. */
  function Ready(queue: seq<Tx>, durable: nat, minHardened: nat): (n: nat)
    ensures n <= |queue|
    ensures forall i | 0 <= i < n :: queue[i].maxGsn <= durable && queue[i].startTs <= minHardened
    ensures n < |queue| ==> !(queue[n].maxGsn <= durable && queue[n].startTs <= minHardened)
  {
    if queue == [] || !(queue[0].maxGsn <= durable && queue[0].startTs <= minHardened) then 0
    else 1 + Ready(queue[1..], durable, minHardened)
  }

  method CountReady(queue: seq<Tx>, durable: nat, minHardened: nat) returns (n: nat)
    ensures n == Ready(queue, durable, minHardened)
  {
    n := 0;
    while n < |queue| && queue[n].maxGsn <= durable && queue[n].startTs <= minHardened
      invariant 0 <= n <= |queue|
      invariant Ready(queue, durable, minHardened) == n + Ready(queue[n..], durable, minHardened)
    {
      assert queue[n..][1..] == queue[n + 1..];
      n := n + 1;
    }
  }

  function Put(s: Sys, w: nat, worker: Worker): (r: Sys)
    requires w < |s.workers|
  {
    s.(workers := s.workers[w := worker])
  }

  /** reserveWALEntry on a page: incrementGSN, then the log's clock. */
  function NewGsn(s: Sys, w: nat, page: nat): (r: nat)
    requires w < |s.workers|
  {
    Max(Max(s.workers[w].clock, PageGsn(s, page)) + 1, s.workers[w].logClock + 1)
  }

  function Step(s: Sys, e: Event): (r: Option<Sys>)
    requires |s.lastSeen| == |s.workers| > 0
  {
    match e
    case StartTx(w, ts) =>
      if w >= |s.workers| || s.workers[w].running then None
      else Some(Put(s, w,
           s.workers[w].(clock := Max(s.workers[w].clock, s.sync), running := true, startTs := ts, seen := {})))
    case ReadPage(w, page) =>
      if w >= |s.workers| || !s.workers[w].running then None
      else
        var my := s.workers[w];
        Some(Put(s, w, my.(clock := Max(my.clock, PageGsn(s, page)), seen := my.seen + PageRecords(s, page))))
    case Reserve(w, page) =>
      if w >= |s.workers| || !s.workers[w].running || s.workers[w].open then None
      else
        var (my, gsn) := (s.workers[w], NewGsn(s, w, page));
        var record := Record(w, |my.records|, gsn, page);
        var my' := my.(clock := gsn, logClock := gsn, records := my.records + [record], open := true,
                       seen := my.seen + PageRecords(s, page) + {record});
        Some(Put(s, w, my').(pages := s.pages[page := gsn]))
    case Submit(w) =>
      if w >= |s.workers| || !s.workers[w].open then None
      else
        var my := s.workers[w];
        Some(Put(s, w, my.(open := false, visible := my.clock, published := |my.records|, lastGsn := my.logClock)))
    case CommitTx(w) =>
      if w >= |s.workers| || !s.workers[w].running || s.workers[w].open then None
      else
        var my := s.workers[w];
        Some(Put(s, w, my.(running := false, queue := my.queue + [Tx(my.clock, my.startTs, my.seen)],
                           precommitted := my.startTs)))
    case GctReadWorker =>
      if !s.phase.ReadWorkers? || |s.phase.visible| >= |s.workers| then None
      else
        var i := |s.phase.visible|;
        var (vs, hs) := (s.phase.visible + [s.workers[i].visible], s.phase.hardened + [s.workers[i].precommitted]);
        Some(s.(phase := if i + 1 == |s.workers| then ReadLogs(vs, hs, []) else ReadWorkers(vs, hs)))
    case GctReadLog =>
      if !s.phase.ReadLogs? || |s.phase.copies| >= |s.workers| then None
      else
        var it := s.workers[|s.phase.copies|];
        var copies := s.phase.copies + [Copy(it.lastGsn, it.published)];
        Some(s.(phase := ReadLogs(s.phase.visible, s.phase.hardened, copies)))
    case GctSkip =>
      if !s.phase.ReadLogs? || Gsns(s.phase.copies) != s.lastSeen then None
      else Some(s.(phase := ReadWorkers([], [])))
    case GctFlush =>
      if !s.phase.ReadLogs? || !(|s.phase.copies| == |s.phase.visible| == |s.phase.hardened| == |s.workers|) then None
      else
        var (copies, gsns) := (s.phase.copies, Gsns(s.phase.copies));
        var d := Watermark(s.phase.visible, gsns, s.lastSeen);
        if d.None? then None
        else
          var ws := seq(|s.workers|, i requires 0 <= i < |s.workers| =>
                      if gsns[i] != s.lastSeen[i] then s.workers[i].(written := copies[i].index) else s.workers[i]);
          Some(s.(workers := ws, lastSeen := gsns, durable := d.value,
                  phase := Committing(0, MinAll(s.phase.hardened), MaxAll(gsns))))
    case GctCommit =>
      if !s.phase.Committing? || s.phase.next >= |s.workers| then None
      else
        var it := s.workers[s.phase.next];
        var n := Ready(it.queue, s.durable, s.phase.minHardened);
        Some(Put(s, s.phase.next, it.(queue := it.queue[n..]))
             .(committed := s.committed + (set i | 0 <= i < n :: it.queue[i]),
               phase := Committing(s.phase.next + 1, s.phase.minHardened, s.phase.maxLogs)))
    case GctStore =>
      if !s.phase.Committing? || s.phase.next < |s.workers| then None
      else Some(s.(flushed := s.durable, sync := s.phase.maxLogs, phase := ReadWorkers([], [])))
  }

  // ----- the invariant

  /** The GSN that a reader of the log at position n sees. */
  function GsnAt(records: seq<Record>, n: nat): (r: nat)
    requires n <= |records|
  {
    if n == 0 then 0 else records[n - 1].gsn
  }

  ghost predicate LogShape(my: Worker, w: nat) {
    && (forall k | 0 <= k < |my.records| ::
       my.records[k].log == w && my.records[k].index == k && 0 < my.records[k].gsn <= my.logClock)
    && (forall i, j | 0 <= i < j < |my.records| :: my.records[i].gsn < my.records[j].gsn)
    && (my.records != [] ==> my.records[|my.records| - 1].gsn == my.logClock)
    && (my.open ==> my.records != [])
    && my.published == (if my.open then |my.records| - 1 else |my.records|)
    && my.lastGsn == GsnAt(my.records, my.published)
    && my.written <= my.published
  }

  ghost predicate LogOk(my: Worker, w: nat) {
    && LogShape(my, w)
    && my.logClock <= my.clock && my.visible <= my.clock && my.lastGsn <= my.visible
    && (my.open ==> my.visible < my.logClock)
  }

  /** Everything not yet written is above the watermark, and so is everything still to come. */
  ghost predicate Durable(my: Worker, d: nat) {
    && d <= my.visible
    && forall k | my.written <= k < |my.records| :: d < my.records[k].gsn
  }

  ghost predicate IsRecord(s: Sys, r: Record) {
    && r.log < |s.workers| && r.index < |s.workers[r.log].records| && s.workers[r.log].records[r.index] == r
  }

  ghost predicate SeenOk(s: Sys, seen: set<Record>, gsn: nat) {
    forall r | r in seen :: IsRecord(s, r) && r.gsn <= gsn
  }

  ghost predicate IsWritten(s: Sys, r: Record) {
    IsRecord(s, r) && r.index < s.workers[r.log].written
  }

  ghost predicate PagesOk(s: Sys) {
    forall w, k | 0 <= w < |s.workers| && 0 <= k < |s.workers[w].records| ::
      s.workers[w].records[k].gsn <= PageGsn(s, s.workers[w].records[k].page)
  }

  /** What the round has read of worker i, while that worker goes on. */
  ghost predicate ReadOk(my: Worker, d: nat, visible: nat) {
    d <= visible <= my.visible
  }

  ghost predicate CopyOk(my: Worker, visible: nat, copy: Copy) {
    && my.written <= copy.index <= my.published && my.published <= |my.records|
    && copy.gsn == GsnAt(my.records, copy.index)
    && forall k | copy.index <= k < |my.records| :: visible < my.records[k].gsn
  }

  ghost predicate RoundOk(s: Sys) {
    match s.phase
    case ReadWorkers(vs, hs) =>
      && |vs| == |hs| < |s.workers|
      && (forall i | 0 <= i < |vs| :: ReadOk(s.workers[i], s.durable, vs[i]))
    case ReadLogs(vs, hs, copies) =>
      && |vs| == |hs| == |s.workers| && |copies| <= |s.workers|
      && (forall i | 0 <= i < |vs| :: ReadOk(s.workers[i], s.durable, vs[i]))
      && (forall i | 0 <= i < |copies| :: CopyOk(s.workers[i], vs[i], copies[i]))
    case Committing(next, _, _) => next <= |s.workers|
  }

  ghost predicate LastSeenOk(s: Sys) {
    && |s.lastSeen| == |s.workers|
    && forall w | 0 <= w < |s.workers| ::
         s.workers[w].written <= |s.workers[w].records|
           && s.lastSeen[w] == GsnAt(s.workers[w].records, s.workers[w].written)
  }

  ghost predicate TxOk(s: Sys) {
    && (forall w | 0 <= w < |s.workers| :: SeenOk(s, s.workers[w].seen, s.workers[w].clock))
    && (forall w, i | 0 <= w < |s.workers| && 0 <= i < |s.workers[w].queue| ::
          SeenOk(s, s.workers[w].queue[i].seen, s.workers[w].queue[i].maxGsn))
    && (forall tx | tx in s.committed :: tx.maxGsn <= s.durable && SeenOk(s, tx.seen, tx.maxGsn))
  }

  ghost predicate Inv(s: Sys) {
    && s.workers != [] && s.flushed <= s.durable
    && (forall w | 0 <= w < |s.workers| :: LogOk(s.workers[w], w) && Durable(s.workers[w], s.durable))
    && LastSeenOk(s) && RoundOk(s) && PagesOk(s) && TxOk(s)
  }
}
