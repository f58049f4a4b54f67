/** Every step of the log keeps the invariant that ties it to the linear log. */
module WalProof {
  import opened Wrappers
  import opened Align
  import opened WalMachine
  import opened WalHistory

  lemma InitInv(c: Config)
    requires ValidConfig(c)
    ensures Inv(c, World(Init(c), INIT_HISTORY))
  {
  }

  /** Alignment commutes with ring offsets: laps and the ring are whole blocks. */
  lemma OffDown(c: Config, lap: nat, p: nat)
    requires ValidConfig(c) && Aligned(lap) && lap <= DownAlign(p) + c.bufSize
    ensures DownAlign(Off(c, lap, p)) == Off(c, lap, DownAlign(p))
    ensures UpAlign(Off(c, lap, p)) == if p >= lap then UpAlign(p) - lap else UpAlign(p) + c.bufSize - lap
  {
    Gap(DownAlign(p), lap);
    if p >= lap {
      AlignShift(p - lap, lap);
    } else {
      OffDownBefore(c, lap, p);
    }
  }

  lemma OffDownBefore(c: Config, lap: nat, p: nat)
    requires ValidConfig(c) && Aligned(lap) && p < lap <= DownAlign(p) + c.bufSize
    ensures DownAlign(p + c.bufSize - lap) == DownAlign(p) + c.bufSize - lap
    ensures UpAlign(p + c.bufSize - lap) == UpAlign(p) + c.bufSize - lap
  {
    AlignShift(p + c.bufSize - lap, lap);
    AlignShift(p, c.bufSize);
  }

  /** What the worker reads from the two cursors, in linear terms. */
  lemma FreeSpaceMeaning(c: Config, s: Log, h: History)
    requires ValidConfig(c) && Cursors(c, s, h) && Window(c, s, h)
    ensures FreeSpace(c, s.gctCursor, s.cursor) == DownAlign(h.gct) + c.bufSize - |h.lin|
    ensures ContiguousFreeSpace(c, s.gctCursor, s.cursor)
         == if DownAlign(h.gct) < h.lap then DownAlign(h.gct) + c.bufSize - |h.lin|
            else c.bufSize - s.cursor
  {
    OffDown(c, h.lap, h.gct);
  }

  // ----- reservation

  lemma GrantKeeps(c: Config, w: World, req: nat, w': World)
    requires ValidConfig(c) && Inv(c, w) && StepTo(c, w, Grant(req), w')
    ensures Inv(c, w')
  {
    FreeSpaceMeaning(c, w.log, w.hist);
    GrantShape(c, w, req, w');
    GrantReserving(c, w, req, w');
    OnlyReserving(c, w, w');
  }

  lemma GrantShape(c: Config, w: World, req: nat, w': World)
    requires StepTo(c, w, Grant(req), w')
    ensures w' == World(w.log.(phase := Granted(req)), w.hist) && w.log.phase.Idle? && !w.log.redirect
    ensures 0 < req && req + c.crSize <= BLOCK
    ensures FreeSpace(c, w.log.gctCursor, w.log.cursor) >= WaitBytes(c, w.log.cursor, req)
  {
  }

  lemma GrantReserving(c: Config, w: World, req: nat, w': World)
    requires Reserving(c, w) && w' == World(w.log.(phase := Granted(req)), w.hist) && w.log.phase.Idle?
    requires !w.log.redirect
    requires 0 < req && req + c.crSize <= BLOCK
    requires DownAlign(w.hist.gct) + c.bufSize - |w.hist.lin| >= WaitBytes(c, w.log.cursor, req)
    ensures Reserving(c, w')
  {
  }

  /** What the invariant says about the queue and the records it has released. */
  ghost predicate Queue(c: Config, w: World) {
    HolesOk(c, w.log,
            w.hist) && EveryHoleOk(c, w.log, w.hist) && Ordered(w.log, w.hist) && EverySubmittedOk(c, w.log, w.hist)
  }

  /** A step that leaves queue, published offset and linear log alone keeps what is said about holes and records. */
  lemma SameHoles(c: Config, w: World, w': World)
    requires Queue(c, w)
    requires w'.log.holes == w.log.holes && w'.log.pub == w.log.pub && w'.log.gsnClock >= w.log.gsnClock
    requires w.hist.drained > 0 ==> w'.log.phase == w.log.phase
    requires w'.hist == w.hist.(lsnBase := w'.hist.lsnBase, segBase := w'.hist.segBase, gct := w'.hist.gct,
             roundEnd := w'.hist.roundEnd)
    ensures Queue(c, w')
  {
    forall i | 0 <= i < |w'.log.holes| && i >= w'.hist.drained
      ensures HoleOk(c, w'.log, w'.hist, i)
    {
      assert HoleOk(c, w.log, w.hist, i);
    }
    forall i | 0 <= i < w'.hist.drained
      ensures DrainedHoleOk(c, w'.log, w'.hist, i)
    {
      assert DrainedHoleOk(c, w.log, w.hist, i);
    }
    forall r | r in w'.hist.submitted
      ensures SubmittedOk(c, w'.log, w'.hist, r)
    {
      assert SubmittedOk(c, w.log, w.hist, r);
    }
  }

  /**
    With enough bytes waited for, the carriage return is taken exactly when the record does not fit before the end of
    the ring.
   */
  lemma BranchChoice(c: Config, s: Log, h: History)
    requires ValidConfig(c) && Cursors(c, s, h) && Window(c, s, h) && PhaseOk(c, s, h) && s.phase.Granted?
    ensures ContiguousFreeSpace(c, s.gctCursor, s.cursor) < s.phase.req + c.crSize
       <==> c.bufSize - s.cursor < s.phase.req + c.crSize
  {
    FreeSpaceMeaning(c, s, h);
  }

  lemma BranchKeeps(c: Config, w: World, w': World)
    requires ValidConfig(c) && Inv(c, w) && StepTo(c, w, Branch, w')
    ensures Inv(c, w')
  {
    MultipleOfBlocks(c.bufSize, c.segSize);
    BranchFrame(c, w, w');
    BranchCursors(c, w, w');
    OnlyReserving(c, w, w');
  }

  lemma BranchFrame(c: Config, w: World, w': World)
    requires StepTo(c, w, Branch, w')
    ensures w.log.phase.Granted? && w'.log == w.log.(lsn := w'.log.lsn, phase := w'.log.phase)
    ensures w'.hist == w.hist.(lsnBase := w'.hist.lsnBase)
  {
  }

  ghost predicate Reserving(c: Config, w: World) {
    Cursors(c, w.log, w.hist) && Window(c, w.log, w.hist) && SegmentRoom(c, w.log, w.hist) && PhaseOk(c, w.log, w.hist)
  }

  /** Reservation, cursors and window do not depend on contents, queue or round. */
  lemma SameReserving(c: Config, w: World, w': World)
    requires Reserving(c, w)
    requires |w'.log.ring| == |w.log.ring| && |w'.hist.lin| == |w.hist.lin|
    requires w'.log == w.log.(ring := w'.log.ring, holes := w'.log.holes, device := w'.log.device,
             round := w'.log.round)
    requires w'.hist == w.hist.(lin := w'.hist.lin, ends := w'.hist.ends, drained := w'.hist.drained,
             submitted := w'.hist.submitted)
    ensures Reserving(c, w')
  {
    assert Pending(c, w'.log) == Pending(c, w.log);
  }

  /** A step that changes nothing but the reservation in progress. */
  lemma OnlyReserving(c: Config, w: World, w': World)
    requires ValidConfig(c) && Inv(c, w) && Reserving(c, w') && !w.log.phase.Bumped?
    requires w'.log == w.log.(lsn := w'.log.lsn, phase := w'.log.phase, gsnClock := w'.log.gsnClock,
             redirect := w'.log.redirect)
    requires w.log.gsnClock <= w'.log.gsnClock
    requires w'.hist == w.hist.(lsnBase := w'.hist.lsnBase)
    ensures Inv(c, w')
  {
    SameHoles(c, w, w');
    SameRound(c, w, w');
    SameContents(c, w, w');
    Assemble(c, w');
  }

  /** Ring and device are unchanged, and so is what they have to hold. */
  lemma SameContents(c: Config, w: World, w': World)
    requires Cursors(c, w.log, w.hist) && RingOk(c, w.log, w.hist) && (c.fakeWrap == 0 ==> DeviceOk(w.log, w.hist))
    requires w'.log.ring == w.log.ring && w'.log.cursor == w.log.cursor && w'.log.device == w.log.device
    requires w'.log.round == w.log.round
    requires w'.hist.lin == w.hist.lin && w'.hist.lap == w.hist.lap && w'.hist.gct == w.hist.gct
    requires w'.hist.roundEnd == w.hist.roundEnd
    ensures RingOk(c, w'.log, w'.hist) && (c.fakeWrap == 0 ==> DeviceOk(w'.log, w'.hist))
  {
  }

  lemma BranchCursors(c: Config, w: World, w': World)
    requires ValidConfig(c) && Reserving(c, w) && StepTo(c, w, Branch, w') && Aligned(c.segSize)
    ensures Reserving(c, w')
  {
    var (s, h) := (w.log, w.hist);
    if s.phase.Granted? {
      BranchChoice(c, s, h);
    }
    BranchShape(c, w, w');
    var req := s.phase.req;
    if c.bufSize - s.cursor < req + c.crSize {
      CrCursors(c, w, w');
    } else if DownAlign(s.cursor) != DownAlign(s.cursor + req) {
      SkipCursors(c, w, w');
    } else {
      StayCursors(c, w, w');
    }
  }

  lemma StayCursors(c: Config, w: World, w': World)
    requires ValidConfig(c) && Reserving(c, w) && w.log.phase.Granted?
    requires var (s, req) := (w.log, w.log.phase.req);
             && c.bufSize - s.cursor >= req + c.crSize && DownAlign(s.cursor) == DownAlign(s.cursor + req)
             && w' == World(s.(phase := Ready(req)), w.hist)
    ensures Reserving(c, w')
  {
    assert Fits(c, w.log, w.hist, w.log.phase.req);
  }

  /** The state after the branch, for each of its three outcomes. */
  ghost predicate BranchTaken(c: Config, w: World, w': World) {
    var (s, h) := (w.log, w.hist);
    && s.phase.Granted?
    && var req := s.phase.req;
    if c.bufSize - s.cursor < req + c.crSize then
      && s.cursor <= c.bufSize
      && var lsn := s.lsn + (c.bufSize - s.cursor);
      if c.fakeWrap != 0 && lsn >= c.fakeWrap
      then lsn == c.fakeWrap
           && w' == World(s.(lsn := 0, phase := CrBumped(req)), h.(lsnBase := |h.lin| + c.bufSize - s.cursor))
      else w'.log == s.(lsn := lsn, phase := CrBumped(req)) && (lsn > 0 ==> w'.hist == h)
    else if DownAlign(s.cursor) != DownAlign(s.cursor + req)
         then w' == World(s.(lsn := UpAlign(s.lsn), phase := SkipBumped(req)), h)
    else w' == World(s.(phase := Ready(req)), h)
  }

  lemma BranchShape(c: Config, w: World, w': World)
    requires StepTo(c, w, Branch, w') && 0 < c.bufSize
    requires w.log.phase.Granted? ==>
               (ContiguousFreeSpace(c, w.log.gctCursor, w.log.cursor) < w.log.phase.req + c.crSize
                <==> c.bufSize - w.log.cursor < w.log.phase.req + c.crSize)
    ensures BranchTaken(c, w, w')
  {
  }

  lemma CrCursors(c: Config, w: World, w': World)
    requires ValidConfig(c) && Reserving(c, w) && BranchTaken(c, w, w')
    requires c.bufSize - w.log.cursor < w.log.phase.req + c.crSize
    ensures Reserving(c, w')
  {
    NextLap(c, w.hist.lap, w.hist.lsnBase);
  }

  lemma SkipCursors(c: Config, w: World, w': World)
    requires ValidConfig(c) && Reserving(c, w) && BranchTaken(c, w, w') && w'.log.phase.SkipBumped?
    requires Aligned(c.segSize)
    requires w.log.phase.Granted? && c.bufSize - w.log.cursor >= w.log.phase.req + c.crSize
    ensures Reserving(c, w')
  {
    var (s, h) := (w.log, w.hist);
    SkipArithmetic(c, s.cursor, s.phase.req, h.lap, h.gct, s.lsn, h.lsnBase);
    if c.fakeWrap != 0 {
      NextLap(c, h.lap, h.lsnBase);
    }
    SkipReserving(c, s, h, w');
  }

  lemma SkipReserving(c: Config, s: Log, h: History, w': World)
    requires Reserving(c, World(s, h)) && s.phase.Granted? && !s.redirect
    requires w' == World(s.(lsn := UpAlign(s.lsn), phase := SkipBumped(s.phase.req)), h)
    requires DownAlign(s.cursor) < s.cursor && UpAlign(s.cursor) + BLOCK <= c.bufSize
    requires h.lap + UpAlign(s.cursor) + BLOCK <= DownAlign(h.gct) + c.bufSize
    requires UpAlign(s.lsn) - s.lsn == UpAlign(s.cursor) - s.cursor
    requires UpAlign(UpAlign(s.lsn)) == UpAlign(s.lsn) && UpAlign(s.lsn) + c.bufSize <= c.segSize
    requires c.fakeWrap != 0 && h.lap - h.lsnBase < c.fakeWrap ==> h.lap - h.lsnBase + c.bufSize <= c.fakeWrap
    ensures Reserving(c, w')
  {
  }

  /**
    Skipped bytes are not counted in the wait, yet the next block is free: cursor and committer are both at block
    boundaries.
   */
  lemma SkipArithmetic(c: Config, cursor: nat, req: nat, lap: nat, gct: nat, lsn: nat, lsnBase: nat)
    requires ValidConfig(c) && Aligned(c.segSize) && Aligned(lap) && Multiple(c.bufSize, lsnBase)
    requires 0 < req && req + c.crSize <= BLOCK && DownAlign(cursor) != DownAlign(cursor + req)
    requires cursor + req + c.crSize <= c.bufSize
    requires lap + cursor + req + c.crSize <= DownAlign(gct) + c.bufSize
    requires lsn + lsnBase == lap + cursor && lsn + c.bufSize < c.segSize
    ensures DownAlign(cursor) < cursor
    ensures UpAlign(cursor) + BLOCK <= c.bufSize
    ensures lap + UpAlign(cursor) + BLOCK <= DownAlign(gct) + c.bufSize
    ensures UpAlign(lsn) - lsn == UpAlign(cursor) - cursor
    ensures UpAlign(UpAlign(lsn)) == UpAlign(lsn) && UpAlign(lsn) + c.bufSize <= c.segSize
  {
    var up := UpAlign(cursor);
    SkipBlock(cursor, req);
    Gap(up, c.bufSize);
    MultipleSum(BLOCK, lap, up);
    MultipleSum(BLOCK, DownAlign(gct), c.bufSize);
    Gap(lap + up, DownAlign(gct) + c.bufSize);
    MultipleOfBlocks(c.bufSize, lsnBase);
    AlignShift(lsn, lsnBase);
    AlignShift(cursor, lap);
    BelowSegment(c, lsn);
    UpUnique(UpAlign(lsn), UpAlign(lsn));
  }

  lemma BelowSegment(c: Config, lsn: nat)
    requires ValidConfig(c) && Aligned(c.segSize) && lsn + c.bufSize < c.segSize
    ensures UpAlign(lsn) + c.bufSize <= c.segSize
  {
    MultipleDifference(BLOCK, c.bufSize, c.segSize);
    Gap(c.segSize - c.bufSize, UpAlign(lsn));
  }

  /** Segment and wrap offset are whole laps away from LSN 0, so the next lap starts at or before them. */
  lemma NextLap(c: Config, lap: nat, base: nat)
    requires ValidConfig(c) && Multiple(c.bufSize, lap) && Multiple(c.bufSize, base) && base <= lap
    ensures Multiple(c.bufSize, lap + c.bufSize)
    ensures lap - base < c.fakeWrap ==> lap - base + c.bufSize <= c.fakeWrap
    ensures lap - base + c.bufSize < c.segSize ==> lap - base + 2 * c.bufSize <= c.segSize
  {
    MultipleDifference(c.bufSize, base, lap);
    if lap - base < c.fakeWrap {
      NextMultiple(c.bufSize, lap - base, c.fakeWrap);
    }
    if lap - base + c.bufSize < c.segSize {
      NextMultiple(c.bufSize, lap - base + c.bufSize, c.segSize);
    }
  }

  lemma BumpRecordKeeps(c: Config, w: World, gsn: nat, w': World)
    requires ValidConfig(c) && Inv(c, w) && StepTo(c, w, BumpRecord(gsn), w')
    ensures Inv(c, w')
  {
    BumpRecordCursors(c, w, gsn, w');
    OnlyReserving(c, w, w');
  }

  lemma BumpRecordCursors(c: Config, w: World, gsn: nat, w': World)
    requires ValidConfig(c) && Reserving(c, w) && StepTo(c, w, BumpRecord(gsn), w')
    ensures Reserving(c, w')
  {
    var (s, h) := (w.log, w.hist);
    BumpRecordShape(c, w, gsn, w');
    MultipleOfBlocks(c.bufSize, c.segSize);
    RecordBelowSegment(c, s.lsn, s.phase.req);
    NextLap(c, h.lap, h.lsnBase);
    BumpedReserving(c, s, h, w'.log);
  }

  lemma BumpRecordShape(c: Config, w: World, gsn: nat, w': World)
    requires StepTo(c, w, BumpRecord(gsn), w')
    ensures BumpedTo(c, w.log, w'.log) && w'.hist == w.hist
  {
  }

  ghost predicate BumpedTo(c: Config, s: Log, s': Log) {
    && s.phase.Ready?
    && var (req, lsn) := (s.phase.req, s.lsn + s.phase.req);
    && s' == s.(gsnClock := s'.gsnClock, lsn := lsn, redirect := s'.redirect, phase := s'.phase)
    && if c.segSize - lsn <= c.bufSize then s'.redirect && s'.phase == Draining(req, s.lsn)
       else s'.redirect == s.redirect && s'.phase == Bumped(req, s.lsn)
  }

  lemma BumpedReserving(c: Config, s: Log, h: History, s': Log)
    requires 0 < c.crSize && Reserving(c, World(s, h)) && BumpedTo(c, s, s')
    requires UpAlign(s.lsn + s.phase.req) + BLOCK <= c.segSize
    requires c.fakeWrap != 0 && h.lap - h.lsnBase < c.fakeWrap ==> h.lap - h.lsnBase + c.bufSize <= c.fakeWrap
    ensures Reserving(c, World(s', h))
  {
    assert Fits(c, s', h, s.phase.req);
  }

  /** The last record of a segment ends at least a block before the segment does. */
  lemma RecordBelowSegment(c: Config, lsn: nat, req: nat)
    requires ValidConfig(c) && Aligned(c.segSize) && lsn + c.bufSize <= c.segSize && req + c.crSize <= BLOCK
    ensures UpAlign(lsn + req) + BLOCK <= c.segSize
  {
    MultipleDifference(BLOCK, c.bufSize, c.segSize);
    MultipleSum(BLOCK, c.segSize - c.bufSize, BLOCK);
    Gap(c.segSize - c.bufSize + BLOCK, UpAlign(lsn + req));
  }

  // ----- publication

  /** A step that publishes more, or not, and leaves ring, linear log and round alone. */
  lemma OnlyPublishing(c: Config, w: World, w': World)
    requires ValidConfig(c) && Inv(c, w) && Queue(c, w') && Reserving(c, w')
    requires w'.log == w.log.(holes := w'.log.holes, head := w'.log.head, pub := w'.log.pub, phase := w'.log.phase)
    requires w'.hist == w.hist.(ends := w'.hist.ends, pub := w'.hist.pub, drained := w'.hist.drained)
    requires w.hist.pub <= w'.hist.pub && w.log.pub.gsn <= w'.log.pub.gsn
    ensures Inv(c, w')
  {
    SameRound(c, w, w');
    SameContents(c, w, w');
    Assemble(c, w');
  }

  lemma CollectKeeps(c: Config, w: World, w': World)
    requires ValidConfig(c) && Inv(c, w)
    requires w'.log == CollectHoles(w.log) && w'.hist == CollectHistory(w.log, w.hist)
    ensures Inv(c, w') && w'.hist.drained == 0
  {
    var k := UnlockedPrefix(w.log.holes);
    if w.hist.drained > 0 {
      assert DrainedHoleOk(c, w.log, w.hist, 0);
    }
    if k > 0 {
      PopKeeps(c, w, k, w');
    } else {
      assert w' == w;
    }
  }

  lemma PopKeeps(c: Config, w: World, k: nat, w': World)
    requires ValidConfig(c) && Inv(c, w)
    requires 0 < k <= |w.log.holes| && (k < |w.log.holes| ==> w.log.holes[k].locked)
    requires w'.log == w.log.(holes := w.log.holes[k..], head := w.log.head + k,
                              pub := Published(w.log.holes[k - 1].offset, w.log.holes[k - 1].gsn))
    requires w'.hist == w.hist.(ends := w.hist.ends[k..], pub := w.hist.ends[k - 1], drained := 0)
    ensures Inv(c, w')
  {
    PopPublishes(c, w, k);
    PopQueue(c, w, k, w');
    PublishReserving(c, w, w');
    OnlyPublishing(c, w, w');
  }

  lemma PublishReserving(c: Config, w: World, w': World)
    requires Reserving(c, w)
    requires w'.log == w.log.(holes := w'.log.holes, head := w'.log.head, pub := w'.log.pub)
    requires w'.hist == w.hist.(ends := w'.hist.ends, pub := w'.hist.pub, drained := w'.hist.drained)
    requires w.hist.pub <= w'.hist.pub <= |w.hist.lin| && w.hist.lap <= w'.hist.pub + c.bufSize
    requires w'.log.pub.offset == Off(c, w.hist.lap, w'.hist.pub)
    ensures Reserving(c, w')
  {
    assert Pending(c, w'.log) == Pending(c, w.log);
  }

  /**
    Collecting never moves the published offset or GSN backwards, not even after drain_holes has published holes that
    are still queued.
   */
  lemma PopPublishes(c: Config, w: World, k: nat)
    requires Queue(c, w) && Cursors(c, w.log, w.hist)
    requires 0 < k <= |w.log.holes| && (k < |w.log.holes| ==> w.log.holes[k].locked)
    ensures w.hist.drained <= k
    ensures w.hist.pub <= w.hist.ends[k - 1] <= |w.hist.lin|
    ensures w.hist.lap <= w.hist.ends[k - 1] + c.bufSize
    ensures w.log.holes[k - 1].offset == Off(c, w.hist.lap, w.hist.ends[k - 1])
    ensures w.log.pub.gsn <= w.log.holes[k - 1].gsn <= w.log.gsnClock
  {
    var (s, h) := (w.log, w.hist);
    assert k < h.drained ==> DrainedHoleOk(c, s, h, k);
    assert k - 1 < h.drained ==> DrainedHoleOk(c, s, h, k - 1);
    assert k - 1 >= h.drained ==> HoleOk(c, s, h, k - 1);
  }

  lemma PopQueue(c: Config, w: World, k: nat, w': World)
    requires Queue(c, w) && Cursors(c, w.log, w.hist)
    requires 0 < k <= |w.log.holes| && (k < |w.log.holes| ==> w.log.holes[k].locked)
    requires w'.log == w.log.(holes := w.log.holes[k..], head := w.log.head + k,
                              pub := Published(w.log.holes[k - 1].offset, w.log.holes[k - 1].gsn))
    requires w'.hist == w.hist.(ends := w.hist.ends[k..], pub := w.hist.ends[k - 1], drained := 0)
    ensures Queue(c, w')
  {
    var (s, h) := (w.log, w.hist);
    var (s', h') := (w'.log, w'.hist);
    PopPublishes(c, w, k);
    forall i | 0 <= i < |s'.holes|
      ensures HoleOk(c, s', h', i)
    {
      assert HoleOk(c, s, h, i + k);
      assert h.ends[k - 1] + s.holes[i + k].size <= h.ends[i + k];
    }
    forall r | r in h'.submitted
      ensures SubmittedOk(c, s', h', r)
    {
      assert SubmittedOk(c, s, h, r);
    }
  }

  lemma DrainKeeps(c: Config, w: World, w': World)
    requires ValidConfig(c) && Inv(c, w) && StepTo(c, w, Drain, w')
    ensures Inv(c, w')
  {
    DrainShape(c, w, w');
    DrainQueue(c, w, w');
    DrainReserving(c, w, w');
    OnlyPublishing(c, w, w');
  }

  /** Where the drained queue ends, and what the step changes. */
  ghost predicate Drained(c: Config, w: World, w': World) {
    && |w.hist.ends| == |w.log.holes| && w.log.phase.Draining?
    && w'.log == w.log.(phase := Bumped(w.log.phase.req, w.log.phase.lsn), pub := w'.log.pub)
    && w'.hist == w.hist.(pub := w'.hist.pub, drained := w'.hist.drained)
    && var n := |w.log.holes|;
    if n == 0 then w'.log.pub == w.log.pub && w'.hist == w.hist
    else && w'.log.pub == Published(w.log.holes[n - 1].offset, w.log.holes[n - 1].gsn)
         && w'.hist.pub == w.hist.ends[n - 1] && w'.hist.drained == n
  }

  lemma DrainShape(c: Config, w: World, w': World)
    requires StepTo(c, w, Drain, w')
    ensures Drained(c, w, w')
  {
  }

  lemma DrainReserving(c: Config, w: World, w': World)
    requires Reserving(c, w) && HolesOk(c, w.log, w.hist) && EveryHoleOk(c, w.log, w.hist) && Drained(c, w, w')
    ensures Reserving(c, w') && w.hist.pub <= w'.hist.pub && w.log.pub.gsn <= w'.log.pub.gsn
  {
    if w.log.holes != [] {
      assert HoleOk(c, w.log, w.hist, |w.log.holes| - 1);
    }
    assert Pending(c, w'.log) == Pending(c, w.log);
  }

  lemma DrainQueue(c: Config, w: World, w': World)
    requires Queue(c, w) && Cursors(c, w.log, w.hist) && StepTo(c, w, Drain, w')
    ensures Queue(c, w')
  {
    var (s, h) := (w.log, w.hist);
    var (s', h') := (w'.log, w'.hist);
    if s.holes != [] {
      var last := |s.holes| - 1;
      assert HoleOk(c, s, h, last);
      forall i | 0 <= i < h'.drained
        ensures DrainedHoleOk(c, s', h', i)
      {
        assert HoleOk(c, s, h, i);
        assert i < last ==> h.ends[i] <= h.ends[last] && s.holes[i].gsn <= s.holes[last].gsn;
      }
      forall r | r in h'.submitted
        ensures SubmittedOk(c, s', h', r)
      {
        assert SubmittedOk(c, s, h, r);
      }
    }
  }

  // ----- writing at the cursor

  /** size bytes at the cursor, the first of them written, become part of the linear log and get a hole. */
  ghost predicate Appended(c: Config, w: World, written: seq<byte>, size: nat, hole: Hole, w': World)
    requires Cursors(c, w.log, w.hist)
  {
    var (s, h) := (w.log, w.hist);
    && 0 < size && |written| <= size && s.cursor + size <= c.bufSize
    && w'.log == s.(ring := Splice(s.ring, s.cursor, written), cursor := w'.log.cursor, phase := w'.log.phase,
       holes := s.holes + [hole])
    && |h.lin| + size == w'.hist.lap + w'.log.cursor
    && w'.hist == h.(lin := h.lin + written + s.ring[s.cursor + |written|..s.cursor + size],
                     lap := w'.hist.lap, ends := h.ends + [|h.lin| + size])
    && (w'.hist.lap == h.lap || (w'.hist.lap == h.lap + c.bufSize && w'.log.cursor == 0 && h.lap <= DownAlign(h.gct)))
    && hole.offset == w'.log.cursor && hole.gsn == s.gsnClock
    && |s.holes| < c.maxHoles
    && (if hole.locked
        then w'.hist.lap == h.lap && hole.size == size && hole.start == s.cursor && InOneBlock(|h.lin|, size)
             && (c.fakeWrap == 0 ==> hole.lsn == |h.lin|)
        else hole.size == 0)
  }

  lemma AppendKeeps(c: Config, w: World, written: seq<byte>, size: nat, hole: Hole, w': World)
    requires ValidConfig(c) && Inv(c, w) && w.hist.drained == 0
    requires Appended(c, w, written, size, hole, w') && Reserving(c, w')
    ensures Inv(c, w')
  {
    AppendRing(c, w, written, size, hole, w');
    AppendQueue(c, w, written, size, hole, w');
    AppendRound(c, w, written, size, hole, w');
  }

  lemma AppendRing(c: Config, w: World, written: seq<byte>, size: nat, hole: Hole, w': World)
    requires Cursors(c, w.log, w.hist) && RingOk(c, w.log, w.hist)
    requires Appended(c, w, written, size, hole, w')
    ensures |w'.log.ring| == c.bufSize && |w'.hist.lin| == w'.hist.lap + w'.log.cursor && w'.log.cursor <= c.bufSize
    ensures RingOk(c, w'.log, w'.hist)
  {
    RingAfterSplice(c, w.log, w.hist, written, size, w'.log, w'.hist);
  }

  lemma RingAfterSplice(c: Config, s: Log, h: History, written: seq<byte>, size: nat, s': Log, h': History)
    requires |s.ring| == c.bufSize && |h.lin| == h.lap + s.cursor && s.cursor <= c.bufSize && RingOk(c, s, h)
    requires |written| <= size && s.cursor + size <= c.bufSize
    requires s'.ring == Splice(s.ring, s.cursor, written)
    requires h'.lin == h.lin + written + s.ring[s.cursor + |written|..s.cursor + size]
    requires h'.lap + s'.cursor == h.lap + s.cursor + size
    requires h'.lap == h.lap || (h'.lap == h.lap + c.bufSize && s'.cursor == 0)
    ensures RingOk(c, s', h')
  {
    SpliceExtends(s.ring, s.cursor, h.lin, h.lap, written, size);
    if h'.lap == h.lap && h.lap >= c.bufSize {
      forall i | s'.cursor <= i < c.bufSize
        ensures s'.ring[i] == h'.lin[h'.lap - c.bufSize + i]
      {
        assert s.ring[i] == h.lin[h.lap - c.bufSize + i];
        ExtendKeeps(h.lin, written, s.ring[s.cursor + |written|..s.cursor + size], h.lap - c.bufSize + i);
      }
    }
  }

  lemma ExtendKeeps(lin: seq<byte>, a: seq<byte>, b: seq<byte>, i: nat)
    requires i < |lin|
    ensures (lin + a + b)[i] == lin[i]
  {
  }

  /** Bytes not written keep what the ring holds, on both sides. */
  lemma SpliceExtends(ring: seq<byte>, cursor: nat, lin: seq<byte>, lap: nat, written: seq<byte>, size: nat)
    requires |lin| == lap + cursor && |written| <= size && cursor + size <= |ring|
    requires forall i :: 0 <= i < cursor ==> ring[i] == lin[lap + i]
    ensures var lin' := lin + written + ring[cursor + |written|..cursor + size];
      forall i :: 0 <= i < cursor + size ==> Splice(ring, cursor, written)[i] == lin'[lap + i]
  {
  }

  lemma AppendQueue(c: Config, w: World, written: seq<byte>, size: nat, hole: Hole, w': World)
    requires Cursors(c, w.log, w.hist) && Window(c, w.log, w.hist) && Queue(c, w) && w.hist.drained == 0
    requires Appended(c, w, written, size, hole, w') && Cursors(c, w'.log, w'.hist)
    ensures Queue(c, w')
  {
    var (s, h) := (w.log, w.hist);
    var (s', h') := (w'.log, w'.hist);
    forall i | 0 <= i < |s'.holes|
      ensures HoleOk(c, s', h', i)
    {
      AppendHole(c, w, written, size, hole, w', i);
    }
    AppendOrdered(c, w, written, size, hole, w');
    AppendSubmitted(c, w, written, size, hole, w');
  }

  lemma AppendHole(c: Config, w: World, written: seq<byte>, size: nat, hole: Hole, w': World, i: nat)
    requires Cursors(c, w.log, w.hist) && Window(c, w.log, w.hist) && HolesOk(c, w.log, w.hist) && w.hist.drained == 0
    requires i < |w.log.holes| ==> HoleOk(c, w.log, w.hist, i)
    requires Appended(c, w, written, size, hole, w') && i <= |w.log.holes|
    ensures |w'.hist.ends| == |w'.log.holes| == |w.log.holes| + 1 && HoleOk(c, w'.log, w'.hist, i)
  {
    if i < |w.log.holes| {
      assert w'.log.holes[i] == w.log.holes[i] && w'.hist.ends[i] == w.hist.ends[i];
      OldHole(c, w.log, w.hist, w'.log, w'.hist, i);
    } else {
      assert w'.log.holes[i] == hole && w'.hist.ends[i] == |w.hist.lin| + size;
    }
  }

  lemma OldHole(c: Config, s: Log, h: History, s': Log, h': History, i: nat)
    requires |h.ends| == |s.holes| && i < |s.holes| && HoleOk(c, s, h, i) && h.drained == 0
    requires |h'.ends| == |s'.holes| && i < |s'.holes| && s'.holes[i] == s.holes[i] && h'.ends[i] == h.ends[i]
    requires h'.pub == h.pub && h'.drained == 0 && s'.pub == s.pub && s'.gsnClock == s.gsnClock && |h.lin| <= |h'.lin|
    requires h'.lap == h.lap || (h'.lap == h.lap + c.bufSize && h.lap <= h.pub)
    requires |h.lin| < h.lap + c.bufSize
    ensures HoleOk(c, s', h', i)
  {
  }

  lemma AppendOrdered(c: Config, w: World, written: seq<byte>, size: nat, hole: Hole, w': World)
    requires Cursors(c, w.log, w.hist) && HolesOk(c, w.log, w.hist) && EveryHoleOk(c, w.log, w.hist)
    requires Ordered(w.log, w.hist)
    requires w.hist.drained == 0 && Appended(c, w, written, size, hole, w')
    ensures |w'.hist.ends| == |w'.log.holes| && Ordered(w'.log, w'.hist)
  {
    var (s', h') := (w'.log, w'.hist);
    forall i, j | 0 <= i < j < |s'.holes|
      ensures h'.ends[i] + s'.holes[j].size <= h'.ends[j] && s'.holes[i].gsn <= s'.holes[j].gsn
    {
      assert HoleOk(c, w.log, w.hist, i);
    }
  }

  lemma AppendSubmitted(c: Config, w: World, written: seq<byte>, size: nat, hole: Hole, w': World)
    requires Cursors(c, w.log, w.hist) && |w.hist.ends| == |w.log.holes| && EverySubmittedOk(c, w.log, w.hist)
    requires Appended(c, w, written, size, hole, w')
    ensures EverySubmittedOk(c, w'.log, w'.hist)
  {
    forall r | r in w'.hist.submitted
      ensures SubmittedOk(c, w'.log, w'.hist, r)
    {
      assert SubmittedOk(c, w.log, w.hist, r);
      assert w'.hist.lin[r.at..r.at + |r.bytes|] == w.hist.lin[r.at..r.at + |r.bytes|];
    }
  }

  lemma AppendRound(c: Config, w: World, written: seq<byte>, size: nat, hole: Hole, w': World)
    requires ValidConfig(c) && Cursors(c, w.log, w.hist) && Window(c, w.log, w.hist) && RoundOk(c, w.log, w.hist)
    requires c.fakeWrap == 0 ==> DeviceOk(w.log, w.hist)
    requires Appended(c, w, written, size, hole, w') && Cursors(c, w'.log, w'.hist)
    ensures RoundOk(c, w'.log, w'.hist)
    ensures c.fakeWrap == 0 ==> DeviceOk(w'.log, w'.hist)
  {
    var (s, h) := (w.log, w.hist);
    if s.round.Round? && h.lap < w'.hist.lap {
      Gap(w'.hist.lap, UpAlign(h.roundEnd));
      forall i | 0 <= i < |s.round.writes|
        ensures WriteOk(c, w'.hist, s.round.writes[i])
      {
        assert WriteOk(c, h, s.round.writes[i]);
      }
    } else if s.round.Round? {
      assert forall wr :: WriteOk(c, h, wr) == WriteOk(c, w'.hist, wr);
    }
  }

  ghost function Collected(w: World): (r: World)
    requires |w.hist.ends| == |w.log.holes|
  {
    World(CollectHoles(w.log), CollectHistory(w.log, w.hist))
  }

  /** insertHole collects first; that commutes with what its caller has just written. */
  lemma InsertCollects(c: Config, s: Log, ring: seq<byte>, cursor: nat, phase: Phase, hole: Hole)
    requires InsertHole(c, s.(ring := ring, cursor := cursor, phase := phase), hole).Next?
    ensures |CollectHoles(s).holes| < c.maxHoles
    ensures InsertHole(c, s.(ring := ring, cursor := cursor, phase := phase), hole).log
         == CollectHoles(s).(ring := ring, cursor := cursor, phase := phase, holes := CollectHoles(s).holes + [hole])
  {
  }

  ghost predicate AllFilled(holes: seq<Hole>) {
    forall i | 0 <= i < |holes| :: !holes[i].locked
  }

  lemma {:induction false} FilledPrefix(holes: seq<Hole>)
    requires AllFilled(holes)
    ensures UnlockedPrefix(holes) == |holes|
    decreases |holes|
  {
    if holes != [] {
      FilledPrefix(holes[1..]);
    }
  }

  lemma CollectsAll(s: Log)
    requires AllFilled(s.holes)
    ensures UnlockedPrefix(s.holes) == |s.holes| && CollectHoles(s).holes == []
    ensures CollectHoles(s).pub.gsn == if s.holes == [] then s.pub.gsn else s.holes[|s.holes| - 1].gsn
  {
    FilledPrefix(s.holes);
  }

  /** Where the log stands at a step that writes at the cursor: the queue has been collected, nothing else differs. */
  ghost predicate AtWrite(c: Config, w: World, e: Event, w1: World, w': World) {
    && ValidConfig(c) && StepTo(c, w, e, w') && w1 == Collected(w)
    && w1.log == w.log.(holes := w1.log.holes, head := w1.log.head, pub := w1.log.pub)
    && w1.hist == w.hist.(ends := w1.hist.ends, pub := w1.hist.pub, drained := w1.hist.drained)
  }

  lemma WriteKeeps(c: Config, w: World, e: Event, w': World)
    requires ValidConfig(c) && Inv(c, w) && StepTo(c, w, e, w')
    requires e.WriteCr? || e.WriteSkip? || e.WriteRecord?
    ensures Inv(c, w')
  {
    var w1 := Collected(w);
    CollectKeeps(c, w, w1);
    match e
    case WriteCr(entry) => WriteCrKeeps(c, w, w1, entry, w');
    case WriteSkip(b) => WriteSkipKeeps(c, w, w1, b, w');
    case WriteRecord(header) => WriteRecordKeeps(c, w, w1, header, w');
  }

  /** Log and linear log after `size` bytes at the cursor, the first of them written, with their hole. */
  ghost predicate WrittenAt(c: Config, w: World, written: seq<byte>, size: nat, cursor: nat, lap: nat, phase: Phase,
                            hole: Hole, w': World)
  {
    var (s, h) := (w.log, w.hist);
    && |written| <= size && s.cursor + size <= |s.ring| && |s.holes| < c.maxHoles
    && w'.log == s.(ring := Splice(s.ring, s.cursor, written), cursor := cursor, phase := phase,
       holes := s.holes + [hole])
    && w'.hist == h.(lin := h.lin + written + s.ring[s.cursor + |written|..s.cursor + size], lap := lap,
                     ends := h.ends + [|h.lin| + size])
  }

  lemma LinearSize(lin: seq<byte>, written: seq<byte>, ring: seq<byte>, cursor: nat, size: nat)
    requires |written| <= size && cursor + size <= |ring|
    ensures |lin + written + ring[cursor + |written|..cursor + size]| == |lin| + size
  {
  }

  lemma WriteCrKeeps(c: Config, w: World, w1: World, entry: seq<byte>, w': World)
    requires AtWrite(c, w, WriteCr(entry), w1, w') && Inv(c, w1) && w1.hist.drained == 0
    ensures Inv(c, w')
  {
    var hole := Hole(0, w1.log.gsnClock, false, 0, 0, 0);
    WriteCrShape(c, w, w1, entry, hole, w');
    WriteCrAppends(c, w1, entry, hole, w');
    WriteCrCursors(c, w1, entry, hole, w');
    AppendKeeps(c, w1, entry, c.bufSize - w1.log.cursor, hole, w');
  }

  lemma WriteCrShape(c: Config, w: World, w1: World, entry: seq<byte>, hole: Hole, w': World)
    requires AtWrite(c, w, WriteCr(entry), w1, w') && |w.log.ring| == c.bufSize && w.log.cursor + c.crSize <= c.bufSize
    requires hole == Hole(0, w1.log.gsnClock, false, 0, 0, 0)
    ensures w1.log.phase.CrBumped?
    ensures WrittenAt(c, w1, entry, c.bufSize - w1.log.cursor, 0, w1.hist.lap + c.bufSize, Ready(w1.log.phase.req),
            hole, w')
  {
    var s := w.log;
    LinearSize(w.hist.lin, entry, s.ring, s.cursor, c.bufSize - s.cursor);
    InsertCollects(c, s, Splice(s.ring, s.cursor, entry), 0, Ready(s.phase.req), hole);
  }

  lemma WriteCrAppends(c: Config, w: World, entry: seq<byte>, hole: Hole, w': World)
    requires ValidConfig(c) && Reserving(c, w) && w.log.phase.CrBumped?
    requires hole == Hole(0, w.log.gsnClock, false, 0, 0, 0)
    requires WrittenAt(c, w, entry, c.bufSize - w.log.cursor, 0, w.hist.lap + c.bufSize, Ready(w.log.phase.req), hole,
             w')
    ensures Appended(c, w, entry, c.bufSize - w.log.cursor, hole, w')
  {
  }

  lemma WriteCrCursors(c: Config, w: World, entry: seq<byte>, hole: Hole, w': World)
    requires ValidConfig(c) && Reserving(c, w) && w.log.phase.CrBumped?
    requires Appended(c, w, entry, c.bufSize - w.log.cursor, hole, w')
    requires w'.hist.lap == w.hist.lap + c.bufSize && w'.log.phase == Ready(w.log.phase.req)
    ensures Reserving(c, w')
  {
    MultipleSum(BLOCK, w.hist.lap, c.bufSize);
    assert Fits(c, w'.log, w'.hist, w.log.phase.req);
  }

  lemma WriteSkipKeeps(c: Config, w: World, w1: World, b: byte, w': World)
    requires AtWrite(c, w, WriteSkip(b), w1, w') && Inv(c, w1) && w1.hist.drained == 0
    ensures Inv(c, w')
  {
    var up := UpAlign(w1.log.cursor);
    var hole := Hole(up, w1.log.gsnClock, false, 0, 0, 0);
    WriteSkipPhase(c, w, w1, b, w');
    SkipIsInside(c, w1.log, w1.hist);
    WriteSkipShape(c, w, w1, b, hole, w');
    SkipWrittenKeeps(c, w1, b, hole, w');
  }

  lemma SkipWrittenKeeps(c: Config, w: World, b: byte, hole: Hole, w': World)
    requires ValidConfig(c) && Inv(c, w) && w.hist.drained == 0 && w.log.phase.SkipBumped?
    requires w.log.cursor < UpAlign(w.log.cursor) <= c.bufSize
    requires hole == Hole(UpAlign(w.log.cursor), w.log.gsnClock, false, 0, 0, 0)
    requires var up := UpAlign(w.log.cursor);
             WrittenAt(c, w, [b], up - w.log.cursor, up, w.hist.lap, Ready(w.log.phase.req), hole, w')
    ensures Inv(c, w')
  {
    WriteSkipAppends(c, w, b, hole, w');
    WriteSkipCursors(c, w, b, hole, w');
    AppendKeeps(c, w, [b], UpAlign(w.log.cursor) - w.log.cursor, hole, w');
  }

  lemma WriteSkipPhase(c: Config, w: World, w1: World, b: byte, w': World)
    requires AtWrite(c, w, WriteSkip(b), w1, w')
    ensures w1.log.phase.SkipBumped?
  {
  }

  lemma SkipIsInside(c: Config, s: Log, h: History)
    requires Cursors(c, s, h) && PhaseOk(c, s, h) && s.phase.SkipBumped?
    ensures s.cursor < UpAlign(s.cursor) <= c.bufSize == |s.ring|
  {
    Unaligned(s.cursor);
  }

  lemma WriteSkipShape(c: Config, w: World, w1: World, b: byte, hole: Hole, w': World)
    requires AtWrite(c, w, WriteSkip(b), w1, w') && w.log.cursor < UpAlign(w.log.cursor) <= |w.log.ring|
    requires hole == Hole(UpAlign(w1.log.cursor), w1.log.gsnClock, false, 0, 0, 0)
    ensures w1.log.phase.SkipBumped?
    ensures var up := UpAlign(w1.log.cursor);
            WrittenAt(c, w1, [b], up - w1.log.cursor, up, w1.hist.lap, Ready(w1.log.phase.req), hole, w')
  {
    var s := w.log;
    LinearSize(w.hist.lin, [b], s.ring, s.cursor, UpAlign(s.cursor) - s.cursor);
    InsertCollects(c, s, Splice(s.ring, s.cursor, [b]), UpAlign(s.cursor), Ready(s.phase.req), hole);
  }

  lemma WriteSkipAppends(c: Config, w: World, b: byte, hole: Hole, w': World)
    requires Cursors(c, w.log, w.hist) && w.log.phase.SkipBumped? && w.log.cursor < UpAlign(w.log.cursor) <= c.bufSize
    requires hole == Hole(UpAlign(w.log.cursor), w.log.gsnClock, false, 0, 0, 0)
    requires var up := UpAlign(w.log.cursor);
             WrittenAt(c, w, [b], up - w.log.cursor, up, w.hist.lap, Ready(w.log.phase.req), hole, w')
    ensures Appended(c, w, [b], UpAlign(w.log.cursor) - w.log.cursor, hole, w')
  {
  }

  lemma WriteSkipCursors(c: Config, w: World, b: byte, hole: Hole, w': World)
    requires ValidConfig(c) && Reserving(c, w) && w.log.phase.SkipBumped?
    requires w.log.cursor < UpAlign(w.log.cursor) && Appended(c, w, [b], UpAlign(w.log.cursor) - w.log.cursor, hole, w')
    requires w'.hist.lap == w.hist.lap && w'.log.phase == Ready(w.log.phase.req)
    ensures Reserving(c, w')
  {
    DownUnique(w'.log.cursor, w'.log.cursor);
    assert Fits(c, w'.log, w'.hist, w.log.phase.req);
  }

  lemma WriteRecordKeeps(c: Config, w: World, w1: World, header: seq<byte>, w': World)
    requires AtWrite(c, w, WriteRecord(header), w1, w') && Inv(c, w1) && w1.hist.drained == 0
    ensures Inv(c, w')
  {
    var s := w1.log;
    WriteRecordPhase(c, w, w1, header, w');
    var hole := Hole(s.cursor + s.phase.req, s.gsnClock, true, s.cursor, s.phase.req, s.phase.lsn);
    WriteRecordShape(c, w, w1, header, hole, w');
    WriteRecordAppends(c, w1, header, hole, w');
    WriteRecordCursors(c, w1, header, hole, w');
    AppendKeeps(c, w1, header, s.phase.req, hole, w');
  }

  lemma WriteRecordPhase(c: Config, w: World, w1: World, header: seq<byte>, w': World)
    requires AtWrite(c, w, WriteRecord(header), w1, w')
    ensures w1.log.phase.Bumped?
  {
  }

  lemma BlockShift(cursor: nat, lap: nat, size: nat)
    requires Aligned(lap) && InOneBlock(cursor, size)
    ensures InOneBlock(lap + cursor, size)
  {
    AlignShift(cursor, lap);
  }

  lemma WriteRecordShape(c: Config, w: World, w1: World, header: seq<byte>, hole: Hole, w': World)
    requires AtWrite(c, w, WriteRecord(header), w1, w') && w1.log.phase.Bumped?
    requires var s := w1.log; hole == Hole(s.cursor + s.phase.req, s.gsnClock, true, s.cursor, s.phase.req, s.phase.lsn)
    ensures var s := w1.log; WrittenAt(c, w1, header, s.phase.req, s.cursor + s.phase.req, w1.hist.lap, Idle, hole, w')
  {
    var s := w.log;
    LinearSize(w.hist.lin, header, s.ring, s.cursor, s.phase.req);
    InsertCollects(c, s, Splice(s.ring, s.cursor, header), s.cursor + s.phase.req, Idle, hole);
  }

  lemma WriteRecordAppends(c: Config, w: World, header: seq<byte>, hole: Hole, w': World)
    requires Cursors(c, w.log, w.hist) && PhaseOk(c, w.log, w.hist) && w.log.phase.Bumped?
    requires var s := w.log;
             && hole == Hole(s.cursor + s.phase.req, s.gsnClock, true, s.cursor, s.phase.req, s.phase.lsn)
             && WrittenAt(c, w, header, s.phase.req, s.cursor + s.phase.req, w.hist.lap, Idle, hole, w')
    ensures Appended(c, w, header, w.log.phase.req, hole, w')
  {
    BlockShift(w.log.cursor, w.hist.lap, w.log.phase.req);
  }

  lemma WriteRecordCursors(c: Config, w: World, header: seq<byte>, hole: Hole, w': World)
    requires ValidConfig(c) && Reserving(c, w) && w.log.phase.Bumped?
    requires Appended(c, w, header, w.log.phase.req, hole, w')
    requires w'.hist.lap == w.hist.lap && w'.log.phase == Idle
    ensures Reserving(c, w')
  {
  }

  // ----- filling and releasing a record

  /** Where a locked hole's byte lies, in the ring and in the linear log. */
  lemma HolePlace(c: Config, s: Log, h: History, i: nat, pos: nat)
    requires Cursors(c, s, h) && Window(c, s, h) && HolesOk(c, s, h) && EveryHoleOk(c, s, h)
    requires i < |s.holes| && s.holes[i].locked && (pos < s.holes[i].size || pos == 0)
    ensures HoleOk(c, s, h, i)
    ensures var (p, x) := (h.ends[i] - s.holes[i].size + pos, s.holes[i].start + pos);
      && h.pub <= p < |h.lin| && x < c.bufSize
      && (if p >= h.lap then x == p - h.lap && x < s.cursor else x == p + c.bufSize - h.lap && s.cursor <= x)
  {
    assert i < h.drained ==> DrainedHoleOk(c, s, h, i);
    assert i >= h.drained ==> HoleOk(c, s, h, i);
    HoleAt(c, s, h, i, pos);
  }

  lemma HoleAt(c: Config, s: Log, h: History, i: nat, pos: nat)
    requires Cursors(c, s, h) && Window(c, s, h) && |h.ends| == |s.holes|
    requires i < |s.holes| && s.holes[i].locked && (pos < s.holes[i].size || pos == 0) && HoleOk(c, s, h, i)
    ensures var (p, x) := (h.ends[i] - s.holes[i].size + pos, s.holes[i].start + pos);
      && h.pub <= p < |h.lin| && x < c.bufSize
      && (if p >= h.lap then x == p - h.lap && x < s.cursor else x == p + c.bufSize - h.lap && s.cursor <= x)
  {
  }

  lemma FillKeeps(c: Config, w: World, a: nat, pos: nat, b: byte, w': World)
    requires ValidConfig(c) && Inv(c, w) && StepTo(c, w, Fill(a, pos, b), w')
    ensures Inv(c, w')
  {
    var p, x := FillPlace(c, w, a, pos, b, w');
    FillKeepsAt(c, w, a - w.log.head, p, x, b, w');
  }

  lemma FillKeepsAt(c: Config, w: World, i: nat, p: nat, x: nat, b: byte, w': World)
    requires Inv(c, w) && FilledAt(c, w, i, p, x, b, w')
    ensures Inv(c, w')
  {
    FillQueue(c, w, i, p, x, b, w');
    FillRing(c, w, i, p, x, b, w');
    SameRound(c, w, w');
    SameReserving(c, w, w');
    if c.fakeWrap == 0 {
      FillDevice(w, p, b, w');
    }
  }

  /** Byte p of the linear log, byte x of the ring, inside locked hole i, becomes b. */
  ghost predicate FilledAt(c: Config, w: World, i: nat, p: nat, x: nat, b: byte, w': World) {
    && i < |w.log.holes| == |w.hist.ends| && w.log.holes[i].locked && w.log.holes[i].size <= w.hist.ends[i]
    && w.hist.ends[i] - w.log.holes[i].size <= p < w.hist.ends[i]
    && w.hist.pub <= p < |w.hist.lin| && x < c.bufSize == |w.log.ring|
    && (if p >= w.hist.lap then x == p - w.hist.lap && x < w.log.cursor
        else x == p + c.bufSize - w.hist.lap && w.log.cursor <= x)
    && w'.log == w.log.(ring := w.log.ring[x := b]) && w'.hist == w.hist.(lin := w.hist.lin[p := b])
  }

  lemma FillPlace(c: Config, w: World, a: nat, pos: nat, b: byte, w': World) returns (p: nat, x: nat)
    requires Cursors(c, w.log, w.hist) && Window(c, w.log, w.hist) && HolesOk(c, w.log, w.hist)
    requires EveryHoleOk(c, w.log, w.hist)
    requires StepTo(c, w, Fill(a, pos, b), w')
    ensures LockedAt(w.log, a) && FilledAt(c, w, a - w.log.head, p, x, b, w')
  {
    var i := a - w.log.head;
    HolePlace(c, w.log, w.hist, i, pos);
    p, x := w.hist.ends[i] - w.log.holes[i].size + pos, w.log.holes[i].start + pos;
  }

  lemma FillRing(c: Config, w: World, i: nat, p: nat, x: nat, b: byte, w': World)
    requires Cursors(c, w.log, w.hist) && RingOk(c, w.log, w.hist) && FilledAt(c, w, i, p, x, b, w')
    ensures RingOk(c, w'.log, w'.hist)
  {
  }

  lemma FillDevice(w: World, p: nat, b: byte, w': World)
    requires DeviceOk(w.log, w.hist) && w.hist.gct <= w.hist.pub <= p < |w.hist.lin|
    requires w.log.round.Round? ==> w.hist.roundEnd <= w.hist.pub
    requires w'.log.device == w.log.device && w'.log.round == w.log.round
    requires w'.hist == w.hist.(lin := w.hist.lin[p := b])
    ensures DeviceOk(w'.log, w'.hist)
  {
  }

  /** What a round has planned does not depend on ring contents, queue or linear log. */
  lemma SameRound(c: Config, w: World, w': World)
    requires RoundOk(c, w.log, w.hist)
    requires w'.log.round.Round? == w.log.round.Round?
    requires w.log.round.Round? ==> w'.log.round == w.log.round.(copied := w'.log.round.copied)
    requires w'.log.segOffset == w.log.segOffset && w'.log.seenGsn == w.log.seenGsn && w.log.pub.gsn <= w'.log.pub.gsn
    requires w'.hist.gct == w.hist.gct && w'.hist.lap == w.hist.lap && w'.hist.segBase == w.hist.segBase
    requires w'.hist.roundEnd == w.hist.roundEnd && w.hist.pub <= w'.hist.pub
    ensures RoundOk(c, w'.log, w'.hist)
  {
    assert forall wr :: WriteOk(c, w.hist, wr) == WriteOk(c, w'.hist, wr);
  }

  lemma FillQueue(c: Config, w: World, i: nat, p: nat, x: nat, b: byte, w': World)
    requires Queue(c, w) && FilledAt(c, w, i, p, x, b, w')
    ensures Queue(c, w')
  {
    var (s, h) := (w.log, w.hist);
    var (s', h') := (w'.log, w'.hist);
    forall j | 0 <= j < |s'.holes|
      ensures j >= h'.drained ==> HoleOk(c, s', h', j)
      ensures j < h'.drained ==> DrainedHoleOk(c, s', h', j)
    {
      assert j >= h.drained ==> HoleOk(c, s, h, j);
      assert j < h.drained ==> DrainedHoleOk(c, s, h, j);
    }
    forall r | r in h'.submitted
      ensures SubmittedOk(c, s', h', r)
    {
      assert SubmittedOk(c, s, h, r);
      assert h'.lin[r.at..r.at + |r.bytes|] == h.lin[r.at..r.at + |r.bytes|];
    }
  }

  lemma UnlockKeeps(c: Config, w: World, a: nat, w': World)
    requires ValidConfig(c) && Inv(c, w) && StepTo(c, w, Unlock(a), w')
    ensures Inv(c, w')
  {
    var r := UnlockRecord(c, w, a, w');
    UnlockKeepsAt(c, w, a - w.log.head, r, w');
  }

  lemma UnlockKeepsAt(c: Config, w: World, i: nat, r: Submitted, w': World)
    requires Inv(c, w) && UnlockedAt(c, w, i, r, w')
    ensures Inv(c, w')
  {
    UnlockQueue(c, w, i, r, w');
    SameRound(c, w, w');
    SameReserving(c, w, w');
    SameContents(c, w, w');
    Assemble(c, w');
  }

  /** The parts of the invariant, put together. */
  lemma Assemble(c: Config, w: World)
    requires Reserving(c, w) && RingOk(c, w.log, w.hist) && Queue(c, w) && RoundOk(c, w.log, w.hist)
    requires c.fakeWrap == 0 ==> DeviceOk(w.log, w.hist)
    ensures Inv(c, w)
  {
  }

  ghost predicate UnlockedAt(c: Config, w: World, i: nat, r: Submitted, w': World) {
    && i < |w.log.holes| == |w.hist.ends| && w.log.holes[i].locked && HoleOk(c, w.log, w.hist, i)
    && r.at + |r.bytes| <= |w.hist.lin| && w.hist.lin[r.at..r.at + |r.bytes|] == r.bytes
    && r.lsn == w.log.holes[i].lsn && r.gsn == w.log.holes[i].gsn
    && r.at == w.hist.ends[i] - w.log.holes[i].size && |r.bytes| == w.log.holes[i].size
    && w'.log == w.log.(holes := w.log.holes[i := w.log.holes[i].(locked := false)])
    && w'.hist == w.hist.(submitted := w.hist.submitted + [r])
  }

  lemma UnlockShape(c: Config, w: World, a: nat, i: nat, w': World)
    requires StepTo(c, w, Unlock(a), w') && w.log.head + i == a
    ensures i < |w.log.holes| == |w.hist.ends| && w.log.holes[i].locked
    ensures w'.log == w.log.(holes := w.log.holes[i := w.log.holes[i].(locked := false)])
    ensures var hole := w.log.holes[i];
            hole.size <= w.hist.ends[i] && hole.start + hole.size <= |w.log.ring| ==>
              w'.hist == w.hist.(submitted := w.hist.submitted + [RecordIn(w, i)])
  {
  }

  /** The record that hole i stands for. */
  ghost function RecordIn(w: World, i: nat): (r: Submitted)
    requires i < |w.log.holes| == |w.hist.ends| && w.log.holes[i].size <= w.hist.ends[i]
    requires w.log.holes[i].start + w.log.holes[i].size <= |w.log.ring|
  {
    var hole := w.log.holes[i];
    Submitted(hole.lsn, w.hist.ends[i] - hole.size, w.log.ring[hole.start..hole.start + hole.size], hole.gsn)
  }

  lemma UnlockRecord(c: Config, w: World, a: nat, w': World) returns (r: Submitted)
    requires Cursors(c, w.log, w.hist) && Window(c, w.log, w.hist) && RingOk(c, w.log, w.hist) && Queue(c, w)
    requires StepTo(c, w, Unlock(a), w')
    ensures LockedAt(w.log, a) && UnlockedAt(c, w, a - w.log.head, r, w')
  {
    var i := a - w.log.head;
    UnlockShape(c, w, a, i, w');
    r := UnlockRecordAt(c, w, i, w');
  }

  lemma UnlockRecordAt(c: Config, w: World, i: nat, w': World) returns (r: Submitted)
    requires Cursors(c, w.log, w.hist) && Window(c, w.log, w.hist) && RingOk(c, w.log, w.hist) && Queue(c, w)
    requires i < |w.log.holes| == |w.hist.ends| && w.log.holes[i].locked
    requires w'.log == w.log.(holes := w.log.holes[i := w.log.holes[i].(locked := false)])
    requires var hole := w.log.holes[i];
             hole.size <= w.hist.ends[i] && hole.start + hole.size <= |w.log.ring| ==>
               w'.hist == w.hist.(submitted := w.hist.submitted + [RecordIn(w, i)])
    ensures UnlockedAt(c, w, i, r, w')
  {
    HolePlace(c, w.log, w.hist, i, 0);
    HoleSpan(c, w.log, w.hist, i);
    r := RecordIn(w, i);
    UnlockBytes(c, w, i, r);
  }

  /** Linear range [a, a + n) lies at ring offset b, in the current lap or in the one before. */
  ghost predicate SameBytes(c: Config, s: Log, h: History, a: nat, b: nat, n: nat) {
    (h.lap <= a && b == a - h.lap && b + n <= s.cursor) 
    || (c.bufSize <= h.lap && a + n <= h.lap && b + h.lap == a + c.bufSize && s.cursor <= b && b + n <= c.bufSize)
  }

  lemma HoleSpan(c: Config, s: Log, h: History, i: nat)
    requires Cursors(c, s, h) && Window(c, s, h) && |h.ends| == |s.holes|
    requires i < |s.holes| && s.holes[i].locked && HoleOk(c, s, h, i)
    ensures SameBytes(c, s, h, h.ends[i] - s.holes[i].size, s.holes[i].start, s.holes[i].size)
    ensures h.ends[i] <= |h.lin|
  {
    HoleAt(c, s, h, i, 0);
    HoleAt(c, s, h, i, s.holes[i].size - 1);
  }

  lemma RingSlice(c: Config, s: Log, h: History, a: nat, b: nat, n: nat)
    requires |s.ring| == c.bufSize && |h.lin| == h.lap + s.cursor && s.cursor <= c.bufSize && RingOk(c, s, h)
    requires SameBytes(c, s, h, a, b, n) && a + n <= |h.lin|
    ensures b + n <= |s.ring| && h.lin[a..a + n] == s.ring[b..b + n]
  {
    forall x | b <= x < b + n
      ensures s.ring[x] == h.lin[a + (x - b)]
    {
      assert h.lap <= a ==> s.ring[x] == h.lin[h.lap + x];
      assert h.lap > a ==> s.ring[x] == h.lin[h.lap - c.bufSize + x];
    }
  }

  /** The bytes the owner leaves in the ring are the bytes of the linear log. */
  lemma UnlockBytes(c: Config, w: World, i: nat, r: Submitted)
    requires Cursors(c, w.log, w.hist) && Window(c, w.log, w.hist) && RingOk(c, w.log, w.hist)
    requires i < |w.log.holes| == |w.hist.ends| && w.log.holes[i].locked && HoleOk(c, w.log, w.hist, i)
    requires w.log.holes[i].start + w.log.holes[i].size <= |w.log.ring|
    requires r == Submitted(w.log.holes[i].lsn, w.hist.ends[i] - w.log.holes[i].size,
                            w.log.ring[w.log.holes[i].start..w.log.holes[i].start + w.log.holes[i].size],
                            w.log.holes[i].gsn)
    ensures r.at + |r.bytes| <= |w.hist.lin| && w.hist.lin[r.at..r.at + |r.bytes|] == r.bytes
  {
    HoleSpan(c, w.log, w.hist, i);
    RingSlice(c, w.log, w.hist, w.hist.ends[i] - w.log.holes[i].size, w.log.holes[i].start, w.log.holes[i].size);
  }

  lemma UnlockQueue(c: Config, w: World, i: nat, r: Submitted, w': World)
    requires Queue(c, w) && UnlockedAt(c, w, i, r, w')
    ensures Queue(c, w')
  {
    var (s, h) := (w.log, w.hist);
    var (s', h') := (w'.log, w'.hist);
    forall j | 0 <= j < |s'.holes|
      ensures j >= h'.drained ==> HoleOk(c, s', h', j)
      ensures j < h'.drained ==> DrainedHoleOk(c, s', h', j)
    {
      assert j >= h.drained ==> HoleOk(c, s, h, j);
      assert j < h.drained ==> DrainedHoleOk(c, s, h, j);
    }
    UnlockSubmitted(c, w, i, r, w');
  }

  lemma UnlockSubmitted(c: Config, w: World, i: nat, r: Submitted, w': World)
    requires Queue(c, w) && UnlockedAt(c, w, i, r, w')
    ensures EverySubmittedOk(c, w'.log, w'.hist)
  {
    var (s, h) := (w.log, w.hist);
    var (s', h') := (w'.log, w'.hist);
    assert SubmittedOk(c, s', h', r);
    forall q | q in h'.submitted
      ensures SubmittedOk(c, s', h', q)
    {
      assert q in h.submitted ==> SubmittedOk(c, s, h, q);
    }
  }

  // ----- the group committer

  lemma GctCopyKeeps(c: Config, w: World, wi: nat, k: nat, w': World)
    requires ValidConfig(c) && Inv(c, w) && StepTo(c, w, GctCopy(wi, k), w')
    ensures Inv(c, w')
  {
    GctCopyKeepsAt(c, w, w.log.round.writes[wi], k, w');
  }

  lemma GctCopyKeepsAt(c: Config, w: World, wr: Write, k: nat, w': World)
    requires Inv(c, w) && w.log.round.Round? && wr in w.log.round.writes && k < wr.size && wr.buf + k < |w.log.ring|
    requires w' == w.(log := w.log.(device := w.log.device[wr.dev + k := w.log.ring[wr.buf + k]],
                                    round := w.log.round.(copied := w.log.round.copied + {wr.dev + k})))
    ensures Inv(c, w')
  {
    SameHoles(c, w, w');
    SameRound(c, w, w');
    SameReserving(c, w, w');
    if c.fakeWrap == 0 {
      GctCopyDevice(c, w, wr, k, w');
    }
    SameRing(c, w, w');
    Assemble(c, w');
  }

  lemma GctCopyDevice(c: Config, w: World, wr: Write, k: nat, w': World)
    requires Inv(c, w) && w.log.round.Round? && wr in w.log.round.writes && k < wr.size && wr.buf + k < |w.log.ring|
    requires c.fakeWrap == 0 && w'.hist == w.hist
    requires w'.log == w.log.(device := w.log.device[wr.dev + k := w.log.ring[wr.buf + k]],
                              round := w.log.round.(copied := w.log.round.copied + {wr.dev + k}))
    ensures DeviceOk(w'.log, w'.hist)
  {
    assert WriteOk(c, w.hist, wr);
    CopyPlace(c, w.log, w.hist, wr, k);
    CopyDevice(w.log, w.hist, wr.dev + k, w.log.ring[wr.buf + k], w'.log);
  }

  lemma SameRing(c: Config, w: World, w': World)
    requires Cursors(c, w.log, w.hist) && RingOk(c, w.log, w.hist)
    requires w'.log.ring == w.log.ring && w'.log.cursor == w.log.cursor && w'.hist == w.hist
    ensures RingOk(c, w'.log, w'.hist)
  {
  }

  lemma CopyDevice(s: Log, h: History, p: nat, b: byte, s': Log)
    requires DeviceOk(s, h) && s.round.Round? && h.gct <= h.roundEnd
    requires p < h.roundEnd ==> b == h.lin[p]
    requires s' == s.(device := s.device[p := b], round := s.round.(copied := s.round.copied + {p}))
    ensures DeviceOk(s', h)
  {
  }

  /** A copied byte below the published end is the byte of the linear log: the ring has not been reused under it. */
  lemma CopyPlace(c: Config, s: Log, h: History, wr: Write, k: nat)
    requires Cursors(c, s, h) && Window(c, s, h) && RingOk(c, s, h)
    requires c.fakeWrap == 0 && WriteOk(c, h, wr) && k < wr.size
    ensures wr.dev + k < h.pub ==> wr.buf + k < |s.ring| && s.ring[wr.buf + k] == h.lin[wr.dev + k]
  {
  }

  lemma GctEndKeeps(c: Config, w: World, w': World)
    requires ValidConfig(c) && Inv(c, w) && StepTo(c, w, GctEnd, w')
    ensures Inv(c, w')
  {
    GctEndKeepsAt(c, w, w');
  }

  lemma GctEndKeepsAt(c: Config, w: World, w': World)
    requires ValidConfig(c) && Inv(c, w) && w.log.round.Round? && AllCopied(w.log.round.writes, w.log.round.copied)
    requires w'.log == w.log.(gctCursor := w.log.round.pub.offset, seenGsn := w.log.round.pub.gsn, round := NoRound)
    requires w'.hist == w.hist.(gct := w.hist.roundEnd)
    ensures Inv(c, w')
  {
    SameHoles(c, w, w');
    GctEndCursors(c, w, w');
    if c.fakeWrap == 0 {
      GctEndDevice(w.log, w.hist, w'.log, w'.hist);
    }
  }

  /** Moving the committer forward only makes room. */
  lemma GctEndCursors(c: Config, w: World, w': World)
    requires Reserving(c, w) && RoundOk(c, w.log, w.hist) && w.log.round.Round?
    requires w'.log == w.log.(gctCursor := w.log.round.pub.offset, seenGsn := w.log.round.pub.gsn, round := NoRound)
    requires w'.hist == w.hist.(gct := w.hist.roundEnd)
    ensures Reserving(c, w')
  {
    AlignMonotone(w.hist.gct, w.hist.roundEnd);
    assert Pending(c, w'.log) == Pending(c, w.log);
    MoreRoom(c, w.log, w.hist, w'.log, w'.hist);
    GctEndSegment(c, w.log, w.hist, w'.log, w'.hist);
  }

  lemma MoreRoom(c: Config, s: Log, h: History, s': Log, h': History)
    requires PhaseOk(c, s, h) && DownAlign(h.gct) <= DownAlign(h'.gct)
    requires s'.phase == s.phase && s'.cursor == s.cursor && h' == h.(gct := h'.gct)
    ensures PhaseOk(c, s', h')
  {
  }

  lemma GctEndSegment(c: Config, s: Log, h: History, s': Log, h': History)
    requires SegmentRoom(c, s, h) && s'.lsn == s.lsn && s'.redirect == s.redirect && s'.phase == s.phase
    ensures SegmentRoom(c, s', h')
  {
  }

  lemma GctEndDevice(s: Log, h: History, s': Log, h': History)
    requires s.round.Round? && DeviceOk(s, h) && Covers(s.round.writes, h.gct, h.roundEnd)
    requires AllCopied(s.round.writes, s.round.copied)
    requires s'.round.NoRound? && s'.device == s.device && h' == h.(gct := h.roundEnd)
    ensures DeviceOk(s', h')
  {
    forall p: nat | h.gct <= p < h.roundEnd
      ensures p in s.round.copied
    {
      assert CoveredBy(s.round.writes, p);
    }
  }
}
