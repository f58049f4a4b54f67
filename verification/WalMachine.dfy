/**
  One write-ahead log as a step machine: the workers that reserve, fill and publish records in the
  ring buffer (Logging), and the group committer that copies the ring to its device segment
  (groupCommiter, LogManager::add_pwrite).

  A step is what one thread does between two points where another thread can be observed. The log
  buffer mutex is the field `phase`: every phase but Idle is held by one worker.
 */
module WalMachine {
  import opened Wrappers
  import opened Align

  /** FLAGS_wal_buffer_size, CR_ENTRY_SIZE, MAX_PENDING_HOLES, log_segment_size, fake_wrap_around_offset. */
  datatype Config = Config(bufSize: nat, crSize: nat, maxHoles: nat, segSize: nat, fakeWrap: nat)

  ghost predicate ValidConfig(c: Config) {
    && 2 * BLOCK <= c.bufSize && Aligned(c.bufSize)
    && 0 < c.crSize < BLOCK
    && 0 < c.maxHoles
    && Multiple(c.bufSize, c.segSize) && 2 * c.bufSize <= c.segSize
    && Multiple(c.bufSize, c.fakeWrap) && 2 * c.fakeWrap <= c.segSize
  }

  /**
    A queue entry: ring offset of its end, GSN and latch bit; start, size and lsn are in its owner's WALEntryHandler.
   */
  datatype Hole = Hole(offset: nat, gsn: nat, locked: bool, start: nat, size: nat, lsn: nat)

  /** WorkerToLW */
  datatype Published = Published(offset: nat, gsn: nat)

  /** One request queued by add_pwrite: size bytes of the ring at buf go to the segment at dev. */
  datatype Write = Write(buf: nat, size: nat, dev: nat)

  /** A group commit round in flight; copied holds the segment offsets the device has already transferred. */
  datatype Round = NoRound | Round(pub: Published, writes: seq<Write>, copied: set<nat>)

  /** Where the holder of the log buffer mutex is inside walEnsureEnoughSpace and reserveDTEntry. */
  datatype Phase =
    | Idle
    | Granted(req: nat)             // the spin on walFreeSpace has ended
    | CrBumped(req: nat)            // LSN counter moved past the carriage return, entry not written yet
    | SkipBumped(req: nat)          // LSN counter moved past the skipped bytes, entry not written yet
    | Ready(req: nat)               // walEnsureEnoughSpace has returned
    | Draining(req: nat, lsn: nat)  // the segment is being closed, waiting in drain_holes
    | Bumped(req: nat, lsn: nat)    // reserveLSN has returned, record not written yet

  datatype Log = Log(
    cursor: nat,            // wal_log_cursor
    lsn: nat,               // wal_lsn_counter
    ring: seq<byte>,        // wal_buffer
    gsnClock: nat,          // log_gsn_clock
    holes: seq<Hole>,       // holes, front first
    head: nat,              // absolute index of the front hole
    pub: Published,         // wt_to_lw
    redirect: bool,         // redirect_to_sink_log
    phase: Phase,
    gctCursor: nat,         // wal_gct_cursor
    seenGsn: nat,           // per_log_last_seen_gsn
    segOffset: nat,         // per_worker_log_segment.offset
    device: map<nat, byte>, // the segment, by offset
    round: Round)

  function Init(c: Config): (s: Log) {
    Log(0, 0, seq(c.bufSize, i => 0), 0, [], 0, Published(0, 0), false, Idle, 0, 0, 0, map[], NoRound)
  }

  /** Crash: one of the source's ensure or SIGTRAP checks fires. Blocked: the thread waits, nothing changes. */
  datatype Outcome = Next(log: Log) | Blocked | Crash

  function FreeSpace(c: Config, gctCursor: nat, cursor: nat): (r: int) {
    var gct := DownAlign(gctCursor);
    if gct == cursor then c.bufSize
    else if gct < cursor then gct + (c.bufSize - cursor)
    else gct - cursor
  }

  function ContiguousFreeSpace(c: Config, gctCursor: nat, cursor: nat): (r: int) {
    var gct := DownAlign(gctCursor);
    if gct > cursor then gct - cursor else c.bufSize - cursor
  }

  /** wait_untill_free_bytes: the bytes of a skip to the next block are not counted. */
  function WaitBytes(c: Config, cursor: nat, req: nat): (r: int) {
    req + c.crSize + (if c.bufSize - cursor < req + c.crSize then c.bufSize - cursor else 0)
  }

  // ----- the hole queue

  function UnlockedPrefix(hs: seq<Hole>): (k: nat)
    ensures k <= |hs|
    ensures forall i :: 0 <= i < k ==> !hs[i].locked
    ensures k < |hs| ==> hs[k].locked
  {
    if hs == [] || hs[0].locked then 0 else 1 + UnlockedPrefix(hs[1..])
  }

  /** collect_filled_holes(false) */
  function CollectHoles(s: Log): (r: Log) {
    var k := UnlockedPrefix(s.holes);
    if k == 0 then s
    else s.(holes := s.holes[k..], head := s.head + k, pub := Published(s.holes[k - 1].offset, s.holes[k - 1].gsn))
  }

  /** The hole with absolute index a is queued and being filled. */
  predicate LockedAt(s: Log, a: nat) {
    s.head <= a < s.head + |s.holes| && s.holes[a - s.head].locked
  }

  /** insertHole: waits while the queue is full and its front is locked. */
  function InsertHole(c: Config, s: Log, h: Hole): (r: Outcome) {
    if |s.holes| >= c.maxHoles && UnlockedPrefix(s.holes) == 0 then Blocked
    else
      var s' := CollectHoles(s);
      if |s'.holes| >= c.maxHoles then Crash else Next(s'.(holes := s'.holes + [h]))
  }

  // ----- the group committer

  datatype Plan = Plan(writes: seq<Write>, segOffset: nat) | PlanCrash

  /** LogManager::add_pwrite, on the list of requests built so far. */
  function AddPwrite(c: Config, p: Plan, buf: nat, size: nat, blockFull: bool): (r: Plan)
    requires p.Plan?
  {
    if !Aligned(size) then PlanCrash
    else if size == 0 then p
    else if !Aligned(p.segOffset) then PlanCrash
    else
      var end := p.segOffset + size;
      if end >= c.segSize then PlanCrash
      else
        var off := if blockFull then end else end - BLOCK;
        var ws := p.writes + [Write(buf, size, p.segOffset)];
        if c.fakeWrap != 0 && off >= c.fakeWrap then
          if off != c.fakeWrap then PlanCrash else Plan(ws, 0)
        else Plan(ws, off)
  }

  /** The requests of one round for one log: one range, or two when the published offset has wrapped. */
  function PlanWrites(c: Config, s: Log): (r: Plan) {
    var p0 := Plan([], s.segOffset);
    var lower := DownAlign(s.gctCursor);
    var upper := UpAlign(s.pub.offset);
    var full := upper == s.pub.offset;
    if s.pub.offset > s.gctCursor then AddPwrite(c, p0, lower, upper - lower, full)
    else if s.pub.offset < s.gctCursor then
      if c.bufSize < lower then PlanCrash
      else
        var p1 := AddPwrite(c, p0, lower, c.bufSize - lower, true);
        if p1.PlanCrash? then PlanCrash else AddPwrite(c, p1, 0, upper, full)
    else p0
  }

  predicate AllCopied(ws: seq<Write>, copied: set<nat>) {
    forall w | 0 <= w < |ws| :: forall p | ws[w].dev <= p < ws[w].dev + ws[w].size :: p in copied
  }

  // ----- steps

  datatype Event =
    | Grant(req: nat)
    | Branch
    | WriteCr(entry: seq<byte>)
    | WriteSkip(skipType: byte)
    | BumpRecord(gsn: nat)
    | Drain
    | WriteRecord(header: seq<byte>)
    | Fill(index: nat, pos: nat, b: byte) // the hole is named by its absolute index
    | Unlock(index: nat)
    | Collect
    | GctBegin
    | GctCopy(w: nat, k: nat)
    | GctEnd

  function Splice(ring: seq<byte>, at: nat, bytes: seq<byte>): (r: seq<byte>)
    requires at + |bytes| <= |ring|
    ensures |r| == |ring|
    ensures forall i :: 0 <= i < |ring| ==> r[i] == if at <= i < at + |bytes| then bytes[i - at] else ring[i]
  {
    ring[..at] + bytes + ring[at + |bytes|..]
  }

  function Step(c: Config, s: Log, e: Event): (r: Outcome) {
    match e
    case Grant(req) =>
      if !s.phase.Idle? || s.redirect || req == 0 || req + c.crSize > BLOCK then Blocked
      else if FreeSpace(c, s.gctCursor, s.cursor) < WaitBytes(c, s.cursor, req) then Blocked
      else Next(s.(phase := Granted(req)))
    case Branch => StepBranch(c, s)
    case WriteCr(entry) =>
      if !s.phase.CrBumped? || |entry| != c.crSize then Blocked
      else if s.cursor + c.crSize > |s.ring| then Crash
      else
        InsertHole(c, s.(ring := Splice(s.ring, s.cursor, entry), cursor := 0, phase := Ready(s.phase.req)),
                   Hole(0, s.gsnClock, false, 0, 0, 0))
    case WriteSkip(b) =>
      if !s.phase.SkipBumped? then Blocked
      else if s.cursor >= |s.ring| then Crash
      else
        InsertHole(c,
                   s.(ring := Splice(s.ring, s.cursor, [b]), cursor := UpAlign(s.cursor), phase := Ready(s.phase.req)),
                   Hole(UpAlign(s.cursor), s.gsnClock, false, 0, 0, 0))
    case BumpRecord(gsn) => StepBumpRecord(c, s, gsn)
    case Drain =>
      if !s.phase.Draining? || UnlockedPrefix(s.holes) < |s.holes| then Blocked
      else
        var s' := s.(phase := Bumped(s.phase.req, s.phase.lsn));
        if s.holes == [] then Next(s')
        else
          var last := s.holes[|s.holes| - 1];
          Next(s'.(pub := Published(last.offset, last.gsn)))
    case WriteRecord(header) =>
      if !s.phase.Bumped? || |header| > s.phase.req then Blocked
      else if s.cursor + s.phase.req > |s.ring| then Crash
      else
        var end := s.cursor + s.phase.req;
        InsertHole(c, s.(ring := Splice(s.ring, s.cursor, header), cursor := end, phase := Idle),
                   Hole(end, s.gsnClock, true, s.cursor, s.phase.req, s.phase.lsn))
    case Fill(a, pos, b) =>
      if !LockedAt(s, a) || pos >= s.holes[a - s.head].size then Blocked
      else if s.holes[a - s.head].start + pos >= |s.ring| then Crash
      else Next(s.(ring := s.ring[s.holes[a - s.head].start + pos := b]))
    case Unlock(a) =>
      if !LockedAt(s, a) then Blocked
      else Next(s.(holes := s.holes[a - s.head := s.holes[a - s.head].(locked := false)]))
    case Collect =>
      if !s.phase.Idle? then Blocked else Next(CollectHoles(s))
    case GctBegin =>
      if !s.round.NoRound? || s.pub.gsn == s.seenGsn then Blocked
      else if s.pub.gsn < s.seenGsn then Crash
      else
        var p := PlanWrites(c, s);
        if p.PlanCrash? then Crash
        else Next(s.(segOffset := p.segOffset, round := Round(s.pub, p.writes, {})))
    case GctCopy(w, k) =>
      if !s.round.Round? || w >= |s.round.writes| || k >= s.round.writes[w].size then Blocked
      else
        var wr := s.round.writes[w];
        if wr.buf + k >= |s.ring| then Crash
        else Next(s.(device := s.device[wr.dev + k := s.ring[wr.buf + k]],
                     round := s.round.(copied := s.round.copied + {wr.dev + k})))
    case GctEnd =>
      if !s.round.Round? || !AllCopied(s.round.writes, s.round.copied) then Blocked
      else Next(s.(gctCursor := s.round.pub.offset, seenGsn := s.round.pub.gsn, round := NoRound))
  }

  /** The branches of walEnsureEnoughSpace, with the GCT cursor read again. */
  function StepBranch(c: Config, s: Log): (r: Outcome) {
    if !s.phase.Granted? then Blocked
    else
      var req := s.phase.req;
      if ContiguousFreeSpace(c, s.gctCursor, s.cursor) < req + c.crSize then
        if s.cursor > c.bufSize then Crash
        else
          var lsn := s.lsn + (c.bufSize - s.cursor);
          if c.fakeWrap != 0 && lsn >= c.fakeWrap then
            if lsn != c.fakeWrap then Crash else Next(s.(lsn := 0, phase := CrBumped(req)))
          else Next(s.(lsn := lsn, phase := CrBumped(req)))
      else if DownAlign(s.cursor) != DownAlign(s.cursor + req) then
        Next(s.(lsn := UpAlign(s.lsn), phase := SkipBumped(req)))
      else Next(s.(phase := Ready(req)))
  }

  /** The checks that end walEnsureEnoughSpace, the GSN assignment, and reserveLSN. */
  function StepBumpRecord(c: Config, s: Log, gsn: nat): (r: Outcome) {
    if !s.phase.Ready? || gsn <= s.gsnClock then Blocked
    else
      var req := s.phase.req;
      if ContiguousFreeSpace(c, s.gctCursor, s.cursor) < req || s.cursor + req + c.crSize > c.bufSize then Crash
      else if s.lsn >= c.segSize then Crash
      else
        var lsn := s.lsn + req;
        var s' := s.(gsnClock := gsn, lsn := lsn);
        if c.segSize - lsn <= c.bufSize then Next(s'.(redirect := true, phase := Draining(req, s.lsn)))
        else Next(s'.(phase := Bumped(req, s.lsn)))
  }
}
