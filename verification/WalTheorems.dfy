/** What every run of one log guarantees. */
module WalTheorems {
  import opened Wrappers
  import opened Align
  import opened WalMachine
  import opened WalHistory
  import opened WalProof
  import opened WalRound
  import CircularQueue

  /** Every step of every thread keeps the ring, the queue and the segment in agreement with the linear log. */
  lemma StepKeeps(c: Config, w: World, e: Event, w': World)
    requires ValidConfig(c) && Inv(c, w) && StepTo(c, w, e, w')
    ensures Inv(c, w')
  {
    match e
    case Grant(req) => GrantKeeps(c, w, req, w');
    case Branch => BranchKeeps(c, w, w');
    case WriteCr(_) => WriteKeeps(c, w, e, w');
    case WriteSkip(_) => WriteKeeps(c, w, e, w');
    case BumpRecord(gsn) => BumpRecordKeeps(c, w, gsn, w');
    case Drain => DrainKeeps(c, w, w');
    case WriteRecord(_) => WriteKeeps(c, w, e, w');
    case Fill(i, pos, b) => FillKeeps(c, w, i, pos, b, w');
    case Unlock(i) => UnlockKeeps(c, w, i, w');
    case Collect => CollectKeeps(c, w, w');
    case GctBegin => GctBeginKeeps(c, w, w');
    case GctCopy(wi, k) => GctCopyKeeps(c, w, wi, k, w');
    case GctEnd => GctEndKeeps(c, w, w');
  }

  lemma {:induction false} RunKeeps(c: Config, worlds: seq<World>, events: seq<Event>, i: nat)
    requires ValidConfig(c) && Run(c, worlds, events) && i < |worlds|
    ensures Inv(c, worlds[i])
    decreases i
  {
    if i == 0 {
      InitInv(c);
    } else {
      RunKeeps(c, worlds, events, i - 1);
      assert StepAt(c, worlds, events, i - 1);
      StepKeeps(c, worlds[i - 1], events[i - 1], worlds[i]);
    }
  }

  ghost predicate Reachable(c: Config, w: World) {
    exists worlds, events :: Run(c, worlds, events) && w == worlds[|events|]
  }

  lemma ReachableInv(c: Config, w: World)
    requires ValidConfig(c) && Reachable(c, w)
    ensures Inv(c, w)
  {
    var worlds, events :| Run(c, worlds, events) && w == worlds[|events|];
    RunKeeps(c, worlds, events, |events|);
  }

  /** No ensure or SIGTRAP of the modelled code is reachable, whatever step comes next. */
  lemma NeverCrashes(c: Config, worlds: seq<World>, events: seq<Event>, i: nat, e: Event)
    requires ValidConfig(c) && Run(c, worlds, events) && i < |worlds|
    ensures Step(c, worlds[i].log, e) != Crash
  {
    RunKeeps(c, worlds, events, i);
    StepIsSafe(c, worlds[i], e);
  }

  /** The checks themselves: each fires exactly when what it is about is wrong. */
  lemma ChecksAreMade(c: Config, s: Log, e: Event)
    ensures Step(c, s, e).Crash? <==>
      match e
      case Branch =>
        && s.phase.Granted? && ContiguousFreeSpace(c, s.gctCursor, s.cursor) < s.phase.req + c.crSize
        && (c.bufSize < s.cursor || (c.fakeWrap != 0 && c.fakeWrap < s.lsn + c.bufSize - s.cursor))
      case BumpRecord(gsn) =>
        && s.phase.Ready? && s.gsnClock < gsn
        && (ContiguousFreeSpace(c, s.gctCursor, s.cursor) < s.phase.req || c.bufSize < s.cursor + s.phase.req + c.crSize
            || c.segSize <= s.lsn)
      case WriteCr(entry) =>
        s.phase.CrBumped? && |entry| == c.crSize && (|s.ring| < s.cursor + c.crSize || NoSlot(c, s))
      case WriteSkip(_) => s.phase.SkipBumped? && (|s.ring| <= s.cursor || NoSlot(c, s))
      case WriteRecord(header) =>
        s.phase.Bumped? && |header| <= s.phase.req && (|s.ring| < s.cursor + s.phase.req || NoSlot(c, s))
      case Fill(a, pos, _) =>
        LockedAt(s, a) && pos < s.holes[a - s.head].size && |s.ring| <= s.holes[a - s.head].start + pos
      case GctBegin =>
        s.round.NoRound? && (s.pub.gsn < s.seenGsn || (s.seenGsn < s.pub.gsn && PlanWrites(c, s).PlanCrash?))
      case GctCopy(w, k) =>
        && s.round.Round? && w < |s.round.writes| && k < s.round.writes[w].size
        && |s.ring| <= s.round.writes[w].buf + k
      case _ => false
  {
  }

  /** insertHole finds no room although it has not waited: more holes are queued than there are slots. */
  predicate NoSlot(c: Config, s: Log) {
    0 < UnlockedPrefix(s.holes) && c.maxHoles + UnlockedPrefix(s.holes) <= |s.holes|
  }

  /** add_pwrite: an unaligned size or offset, a write up to the segment's end, or one past the fake wrap. */
  lemma WriteChecksAreMade(c: Config, p: Plan, buf: nat, size: nat, blockFull: bool)
    requires p.Plan?
    ensures AddPwrite(c, p, buf, size, blockFull).PlanCrash? <==>
      || !Aligned(size)
      || (0 < size && (!Aligned(p.segOffset) || c.segSize <= p.segOffset + size
                       || (c.fakeWrap != 0 && c.fakeWrap < p.segOffset + size - (if blockFull then 0 else BLOCK))))
  {
  }

  lemma StepIsSafe(c: Config, w: World, e: Event)
    requires ValidConfig(c) && Inv(c, w)
    ensures Step(c, w.log, e) != Crash
  {
    var (s, h) := (w.log, w.hist);
    match e
    case Branch => BranchIsSafe(c, s, h);
    case BumpRecord(gsn) => BumpIsSafe(c, s, h, gsn);
    case Fill(i, pos, b) => FillIsSafe(c, s, h, i, pos, b);
    case GctBegin => GctBeginIsSafe(c, s, h);
    case GctCopy(wi, k) => GctCopyIsSafe(c, s, h, wi, k);
    case _ => OtherIsSafe(c, s, h, e);
  }

  lemma BranchIsSafe(c: Config, s: Log, h: History)
    requires ValidConfig(c) && Cursors(c, s, h) && Window(c, s, h) && PhaseOk(c, s, h)
    ensures Step(c, s, Branch) != Crash
  {
    if s.phase.Granted? {
      BranchChoice(c, s, h);
      NextLap(c, h.lap, h.lsnBase);
    }
  }

  lemma BumpIsSafe(c: Config, s: Log, h: History, gsn: nat)
    requires ValidConfig(c) && Cursors(c, s, h) && Window(c, s, h) && SegmentRoom(c, s, h) && PhaseOk(c, s, h)
    ensures Step(c, s, BumpRecord(gsn)) != Crash
  {
    if s.phase.Ready? {
      FreeSpaceMeaning(c, s, h);
      UpAlignBound(s.lsn, c.segSize);
    }
  }

  lemma FillIsSafe(c: Config, s: Log, h: History, a: nat, pos: nat, b: byte)
    requires Cursors(c, s, h) && Window(c, s, h) && HolesOk(c, s, h) && EveryHoleOk(c, s, h)
    ensures Step(c, s, Fill(a, pos, b)) != Crash
  {
    if LockedAt(s, a) && pos < s.holes[a - s.head].size {
      HolePlace(c, s, h, a - s.head, pos);
    }
  }

  lemma GctBeginIsSafe(c: Config, s: Log, h: History)
    requires ValidConfig(c) && Inv(c, World(s, h))
    ensures Step(c, s, GctBegin) != Crash
  {
    if s.round.NoRound? {
      PlanKept(c, s, h);
    }
  }

  lemma GctCopyIsSafe(c: Config, s: Log, h: History, wi: nat, k: nat)
    requires Cursors(c, s, h) && RoundOk(c, s, h)
    ensures Step(c, s, GctCopy(wi, k)) != Crash
  {
    if s.round.Round? && wi < |s.round.writes| {
      assert WriteOk(c, h, s.round.writes[wi]);
    }
  }

  lemma OtherIsSafe(c: Config, s: Log, h: History, e: Event)
    requires ValidConfig(c) && Cursors(c, s, h) && PhaseOk(c, s, h) && HolesOk(c, s, h)
    requires !e.Branch? && !e.BumpRecord? && !e.Fill? && !e.GctBegin? && !e.GctCopy?
    ensures Step(c, s, e) != Crash
  {
  }

  lemma UpAlignBound(x: nat, y: nat)
    requires UpAlign(x) < y
    ensures x < y
  {
  }

  /**
    Refinement: once the committer's cursor is past a record, the segment holds at the record's LSN the
    bytes its owner filled, in this state and in every later one.
   */
  lemma DurableRecord(c: Config, worlds: seq<World>, events: seq<Event>, i: nat, r: Submitted, j: nat)
    requires ValidConfig(c) && c.fakeWrap == 0 && Run(c, worlds, events) && i < |worlds|
    requires r in worlds[i].hist.submitted && r.at + |r.bytes| <= worlds[i].hist.gct && j < |r.bytes|
    ensures r.lsn + j in worlds[i].log.device && worlds[i].log.device[r.lsn + j] == r.bytes[j]
  {
    RunKeeps(c, worlds, events, i);
    var h := worlds[i].hist;
    assert SubmittedOk(c, worlds[i].log, h, r);
    assert h.lin[r.at..r.at + |r.bytes|][j] == h.lin[r.at + j];
  }

  /**
    The segment is the linear log up to the committer's cursor, padding included, even while a round is rewriting its
    last block.
   */
  lemma DevicePrefix(c: Config, worlds: seq<World>, events: seq<Event>, i: nat, p: nat)
    requires ValidConfig(c) && c.fakeWrap == 0 && Run(c, worlds, events) && i < |worlds| && p < worlds[i].hist.gct
    ensures p < |worlds[i].hist.lin| && p in worlds[i].log.device && worlds[i].log.device[p] == worlds[i].hist.lin[p]
  {
    RunKeeps(c, worlds, events, i);
  }

  /** The counters that only move forward between resets, and the records that are never forgotten. */
  ghost predicate Forward(w: World, w': World) {
    && w.hist.pub <= w'.hist.pub && w.hist.gct <= w'.hist.gct && |w.hist.lin| <= |w'.hist.lin|
    && w.log.pub.gsn <= w'.log.pub.gsn && w.log.seenGsn <= w'.log.seenGsn && w.log.gsnClock <= w'.log.gsnClock
    && (w.log.redirect ==> w'.log.redirect)
    && w.hist.submitted <= w'.hist.submitted
  }

  lemma StepForward(c: Config, w: World, e: Event, w': World)
    requires ValidConfig(c) && Inv(c, w) && StepTo(c, w, e, w')
    ensures Forward(w, w')
    ensures c.fakeWrap == 0 ==> w.log.lsn <= w'.log.lsn
  {
    if e.WriteCr? || e.WriteSkip? || e.WriteRecord? {
      CollectForward(c, w);
      WriteForward(c, w, e, w');
    } else if e.Collect? {
      CollectForward(c, w);
      CollectStep(c, w, w');
    } else if e.Drain? {
      DrainForward(c, w, w');
    } else {
      OtherForward(c, w, e, w');
    }
  }

  lemma CollectStep(c: Config, w: World, w': World)
    requires StepTo(c, w, Collect, w')
    requires w.hist.pub <= Collected(w).hist.pub && w.log.pub.gsn <= Collected(w).log.pub.gsn
    ensures Forward(w, w') && w.log.lsn == w'.log.lsn
  {
  }

  lemma DrainForward(c: Config, w: World, w': World)
    requires HolesOk(c, w.log, w.hist) && EveryHoleOk(c, w.log, w.hist) && StepTo(c, w, Drain, w')
    ensures Forward(w, w') && w.log.lsn == w'.log.lsn
  {
    if w.log.holes != [] {
      assert HoleOk(c, w.log, w.hist, |w.log.holes| - 1);
    }
  }

  lemma OtherForward(c: Config, w: World, e: Event, w': World)
    requires ValidConfig(c) && Cursors(c, w.log, w.hist) && RoundOk(c, w.log, w.hist) && StepTo(c, w, e, w')
    requires !e.WriteCr? && !e.WriteSkip? && !e.WriteRecord? && !e.Collect? && !e.Drain?
    ensures Forward(w, w')
    ensures c.fakeWrap == 0 ==> w.log.lsn <= w'.log.lsn
  {
    match e
    case Grant(_) =>
    case Branch => BranchForward(c, w, w');
    case BumpRecord(_) => BumpForward(c, w, e, w');
    case Fill(_, _, _) =>
    case Unlock(_) =>
    case GctBegin =>
    case GctCopy(_, _) =>
    case GctEnd =>
  }

  lemma BranchForward(c: Config, w: World, w': World)
    requires ValidConfig(c) && Cursors(c, w.log, w.hist) && StepTo(c, w, Branch, w')
    ensures Forward(w, w')
    ensures c.fakeWrap == 0 ==> w.log.lsn <= w'.log.lsn
  {
  }

  lemma BumpForward(c: Config, w: World, e: Event, w': World)
    requires StepTo(c, w, e, w') && e.BumpRecord?
    ensures Forward(w, w')
    ensures c.fakeWrap == 0 ==> w.log.lsn <= w'.log.lsn
  {
  }

  lemma WriteForward(c: Config, w: World, e: Event, w': World)
    requires |w.hist.ends| == |w.log.holes| && StepTo(c, w, e, w') && |w.log.ring| == c.bufSize
    requires e.WriteCr? || e.WriteSkip? || e.WriteRecord?
    requires w.hist.pub <= Collected(w).hist.pub && w.log.pub.gsn <= Collected(w).log.pub.gsn
    ensures Forward(w, w') && w.log.lsn == w'.log.lsn
  {
    var s := w.log;
    match e
    case WriteCr(entry) =>
      InsertCollects(c, s, Splice(s.ring, s.cursor, entry), 0, Ready(s.phase.req), Hole(0, s.gsnClock, false, 0, 0, 0));
    case WriteSkip(b) =>
      var up := UpAlign(s.cursor);
      InsertCollects(c, s, Splice(s.ring, s.cursor, [b]), up, Ready(s.phase.req), Hole(up, s.gsnClock, false, 0, 0, 0));
    case WriteRecord(header) =>
      var end := s.cursor + s.phase.req;
      InsertCollects(c, s, Splice(s.ring, s.cursor, header), end, Idle,
                     Hole(end, s.gsnClock, true, s.cursor, s.phase.req, s.phase.lsn));
  }

  lemma CollectForward(c: Config, w: World)
    requires ValidConfig(c) && Inv(c, w)
    ensures w.hist.pub <= Collected(w).hist.pub && w.log.pub.gsn <= Collected(w).log.pub.gsn
  {
    if UnlockedPrefix(w.log.holes) > 0 {
      PopPublishes(c, w, UnlockedPrefix(w.log.holes));
    }
  }

  lemma RunStepForward(c: Config, worlds: seq<World>, events: seq<Event>, i: nat)
    requires ValidConfig(c) && Run(c, worlds, events) && i < |events|
    ensures Forward(worlds[i], worlds[i + 1])
    ensures c.fakeWrap == 0 ==> worlds[i].log.lsn <= worlds[i + 1].log.lsn
  {
    RunKeeps(c, worlds, events, i);
    assert StepAt(c, worlds, events, i);
    StepForward(c, worlds[i], events[i], worlds[i + 1]);
  }

  lemma ForwardTwice(a: World, b: World, c: World)
    requires Forward(a, b) && Forward(b, c)
    ensures Forward(a, c)
  {
  }

  /** Publication, commit cursor, GSNs and closing never move backwards over a run. */
  lemma {:induction false} RunForward(c: Config, worlds: seq<World>, events: seq<Event>, i: nat, j: nat)
    requires ValidConfig(c) && Run(c, worlds, events) && i <= j < |worlds|
    ensures Forward(worlds[i], worlds[j])
    decreases j
  {
    if i < j {
      RunForward(c, worlds, events, i, j - 1);
      RunStepForward(c, worlds, events, j - 1);
      ForwardTwice(worlds[i], worlds[j - 1], worlds[j]);
    }
  }

  /** The published offset ends a filled prefix: every record still being filled starts at or after it. */
  lemma PublishedIsFilled(c: Config, worlds: seq<World>, events: seq<Event>, i: nat, k: nat)
    requires ValidConfig(c) && Run(c, worlds, events) && i < |worlds|
    requires k < |worlds[i].log.holes| && worlds[i].log.holes[k].locked
    ensures var w := worlds[i];
      && |w.hist.ends| == |w.log.holes|
      && w.hist.pub + w.log.holes[k].size <= w.hist.ends[k] <= |w.hist.lin|
      && w.log.pub.gsn <= w.log.holes[k].gsn
  {
    RunKeeps(c, worlds, events, i);
    HolePlace(c, worlds[i].log, worlds[i].hist, k, 0);
  }

  /** The hole with absolute index a is queued, and it is this one. */
  ghost predicate HoleIs(s: Log, a: nat, hole: Hole) {
    s.head <= a < s.head + |s.holes| && s.holes[a - s.head] == hole
  }

  lemma CollectKeepsHole(s: Log, a: nat, hole: Hole)
    requires HoleIs(s, a, hole) && hole.locked
    ensures HoleIs(CollectHoles(s), a, hole)
  {
  }

  lemma InsertKeepsHole(c: Config, s: Log, h: Hole, a: nat, hole: Hole)
    requires HoleIs(s, a, hole) && hole.locked && InsertHole(c, s, h).Next?
    ensures HoleIs(InsertHole(c, s, h).log, a, hole)
  {
    CollectKeepsHole(s, a, hole);
  }

  lemma CrKeepsHole(c: Config, s: Log, entry: seq<byte>, a: nat, hole: Hole)
    requires Step(c, s, WriteCr(entry)).Next? && HoleIs(s, a, hole) && hole.locked
    ensures HoleIs(Step(c, s, WriteCr(entry)).log, a, hole)
  {
    InsertKeepsHole(c, s.(ring := Splice(s.ring, s.cursor, entry), cursor := 0, phase := Ready(s.phase.req)),
                    Hole(0, s.gsnClock, false, 0, 0, 0), a, hole);
  }

  lemma SkipKeepsHole(c: Config, s: Log, b: byte, a: nat, hole: Hole)
    requires Step(c, s, WriteSkip(b)).Next? && HoleIs(s, a, hole) && hole.locked
    ensures HoleIs(Step(c, s, WriteSkip(b)).log, a, hole)
  {
    var up := UpAlign(s.cursor);
    InsertKeepsHole(c, s.(ring := Splice(s.ring, s.cursor, [b]), cursor := up, phase := Ready(s.phase.req)),
                    Hole(up, s.gsnClock, false, 0, 0, 0), a, hole);
  }

  lemma RecordKeepsHole(c: Config, s: Log, header: seq<byte>, a: nat, hole: Hole)
    requires Step(c, s, WriteRecord(header)).Next? && HoleIs(s, a, hole) && hole.locked
    ensures HoleIs(Step(c, s, WriteRecord(header)).log, a, hole)
  {
    var end := s.cursor + s.phase.req;
    InsertKeepsHole(c, s.(ring := Splice(s.ring, s.cursor, header), cursor := end, phase := Idle),
                    Hole(end, s.gsnClock, true, s.cursor, s.phase.req, s.phase.lsn), a, hole);
  }

  lemma OtherKeepsHole(c: Config, s: Log, e: Event, a: nat, hole: Hole)
    requires Step(c, s, e).Next? && HoleIs(s, a, hole) && hole.locked && e != Unlock(a)
    requires !e.WriteCr? && !e.WriteSkip? && !e.WriteRecord? && !e.Collect?
    ensures HoleIs(Step(c, s, e).log, a, hole)
  {
  }

  lemma StepKeepsHole(c: Config, s: Log, e: Event, a: nat, hole: Hole)
    requires Step(c, s, e).Next? && HoleIs(s, a, hole) && hole.locked && e != Unlock(a)
    ensures HoleIs(Step(c, s, e).log, a, hole)
  {
    match e
    case WriteCr(entry) => CrKeepsHole(c, s, entry, a, hole);
    case WriteSkip(b) => SkipKeepsHole(c, s, b, a, hole);
    case WriteRecord(header) => RecordKeepsHole(c, s, header, a, hole);
    case Collect => CollectKeepsHole(s, a, hole);
    case _ => OtherKeepsHole(c, s, e, a, hole);
  }

  /**
    The pointer that a worker gets with its hole stays good until it unlocks the hole: over any part of a run without
    that step the hole stays queued, unchanged, at its absolute index, and no other queued hole lives in its slot.
   */
  lemma HoleStays(c: Config, worlds: seq<World>, events: seq<Event>, i: nat, j: nat, a: nat, hole: Hole)
    requires ValidConfig(c) && Run(c, worlds, events) && i <= j < |worlds|
    requires HoleIs(worlds[i].log, a, hole) && hole.locked && Unlock(a) !in events[i..j]
    ensures HoleIs(worlds[j].log, a, hole)
    ensures forall b: nat | b != a && worlds[j].log.head <= b < worlds[j].log.head + |worlds[j].log.holes| ::
              a % c.maxHoles != b % c.maxHoles
  {
    SameHole(c, worlds, events, i, j, a, hole);
    FewHoles(c, worlds, events, j);
    OwnSlot(c, worlds[j].log, a);
  }

  lemma {:induction false} SameHole(c: Config, worlds: seq<World>, events: seq<Event>, i: nat, j: nat, a: nat,
                                    hole: Hole)
    requires Run(c, worlds, events) && i <= j < |worlds|
    requires HoleIs(worlds[i].log, a, hole) && hole.locked && Unlock(a) !in events[i..j]
    ensures HoleIs(worlds[j].log, a, hole)
    decreases j
  {
    if i < j {
      assert events[i..j] == events[i..j - 1] + [events[j - 1]];
      SameHole(c, worlds, events, i, j - 1, a, hole);
      assert StepAt(c, worlds, events, j - 1);
      HoleSurvives(c, worlds[j - 1], events[j - 1], worlds[j], a, hole);
    }
  }

  lemma HoleSurvives(c: Config, w: World, e: Event, w': World, a: nat, hole: Hole)
    requires StepTo(c, w, e, w') && HoleIs(w.log, a, hole) && hole.locked && e != Unlock(a)
    ensures HoleIs(w'.log, a, hole)
  {
    StepKeepsHole(c, w.log, e, a, hole);
  }

  lemma FewHoles(c: Config, worlds: seq<World>, events: seq<Event>, i: nat)
    requires ValidConfig(c) && Run(c, worlds, events) && i < |worlds|
    ensures |worlds[i].log.holes| <= c.maxHoles
  {
    RunKeeps(c, worlds, events, i);
  }

  lemma OwnSlot(c: Config, s: Log, a: nat)
    requires |s.holes| <= c.maxHoles && s.head <= a < s.head + |s.holes|
    ensures forall b: nat | b != a && s.head <= b < s.head + |s.holes| :: a % c.maxHoles != b % c.maxHoles
  {
    forall b: nat | b != a && s.head <= b < s.head + |s.holes|
      ensures a % c.maxHoles != b % c.maxHoles
    {
      if a < b {
        CircularQueue.SlotsDiffer(c.maxHoles, a, b);
      } else {
        CircularQueue.SlotsDiffer(c.maxHoles, b, a);
      }
    }
  }

  /**
    What walEnsureEnoughSpace returns with: one block, room for a carriage return, and no byte the committer still has
    to write.
   */
  lemma ReservedRange(c: Config, worlds: seq<World>, events: seq<Event>, i: nat)
    requires ValidConfig(c) && Run(c, worlds, events) && i < |worlds| && worlds[i].log.phase.Ready?
    ensures var (s, h, req) := (worlds[i].log, worlds[i].hist, worlds[i].log.phase.req);
      && 0 < req && DownAlign(s.cursor) == DownAlign(s.cursor + req - 1)
      && s.cursor + req + c.crSize <= c.bufSize
      && (forall p: nat | DownAlign(h.gct) <= p < |h.lin| && h.lap <= p + c.bufSize ::
            Off(c, h.lap, p) < s.cursor || s.cursor + req + c.crSize <= Off(c, h.lap, p))
  {
    RunKeeps(c, worlds, events, i);
    var s := worlds[i].log;
    DownUnique(s.cursor + s.phase.req - 1, DownAlign(s.cursor));
  }

  /** A full ring never looks empty: equal cursors mean that nothing is left to write in the blocks before them. */
  lemma FullNeverLooksEmpty(c: Config, worlds: seq<World>, events: seq<Event>, i: nat)
    requires ValidConfig(c) && Run(c, worlds, events) && i < |worlds|
    ensures DownAlign(worlds[i].log.gctCursor) == worlds[i].log.cursor ==>
            |worlds[i].hist.lin| == DownAlign(worlds[i].hist.gct)
    ensures FreeSpace(c, worlds[i].log.gctCursor, worlds[i].log.cursor)
         == c.bufSize - (|worlds[i].hist.lin| - DownAlign(worlds[i].hist.gct))
  {
    RunKeeps(c, worlds, events, i);
    FreeSpaceMeaning(c, worlds[i].log, worlds[i].hist);
    OffDown(c, worlds[i].hist.lap, worlds[i].hist.gct);
  }

  /**
    LSN counter and log cursor, segment offset and committer cursor, agree modulo the ring size, with or without the
    fake wrap.
   */
  lemma Congruent(c: Config, worlds: seq<World>, events: seq<Event>, i: nat)
    requires ValidConfig(c) && Run(c, worlds, events) && i < |worlds|
    ensures worlds[i].log.phase.Idle? ==> worlds[i].log.lsn % c.bufSize == worlds[i].log.cursor
    ensures worlds[i].log.round.NoRound? ==> worlds[i].log.segOffset % c.bufSize == DownAlign(worlds[i].log.gctCursor)
    ensures c.fakeWrap != 0 ==> worlds[i].log.lsn < c.fakeWrap && worlds[i].log.segOffset < c.fakeWrap
  {
    RunKeeps(c, worlds, events, i);
    var (s, h) := (worlds[i].log, worlds[i].hist);
    if s.phase.Idle? {
      MultipleDifference(c.bufSize, h.lsnBase, h.lap);
      ModInLap(c.bufSize, h.lap - h.lsnBase, s.lsn);
    }
    if s.round.NoRound? {
      OffDown(c, h.lap, h.gct);
      SegmentLap(c, s, h);
    }
  }

  lemma SegmentLap(c: Config, s: Log, h: History)
    requires ValidConfig(c) && Cursors(c, s, h) && Window(c, s, h) && RoundOk(c, s, h) && s.round.NoRound?
    ensures s.segOffset % c.bufSize == Off(c, h.lap, DownAlign(h.gct))
  {
    var lap := if DownAlign(h.gct) >= h.lap then h.lap else h.lap - c.bufSize;
    if DownAlign(h.gct) < h.lap {
      MultipleDifference(c.bufSize, c.bufSize, h.lap);
    }
    if lap < h.segBase {
      NextMultiple(c.bufSize, lap, h.segBase);
    }
    MultipleDifference(c.bufSize, h.segBase, lap);
    ModInLap(c.bufSize, lap - h.segBase, s.segOffset);
  }

  /** A segment is closed one ring before its end, so every device write ends strictly below it. */
  lemma WritesStayInSegment(c: Config, worlds: seq<World>, events: seq<Event>, i: nat, k: nat)
    requires ValidConfig(c) && Run(c, worlds, events) && i < |worlds|
    requires worlds[i].log.round.Round? && k < |worlds[i].log.round.writes|
    ensures var w := worlds[i].log.round.writes[k]; w.dev + w.size < c.segSize
    ensures !worlds[i].log.redirect && worlds[i].log.phase.Idle? ==> worlds[i].log.lsn + c.bufSize < c.segSize
  {
    RunKeeps(c, worlds, events, i);
    assert WriteOk(c, worlds[i].hist, worlds[i].log.round.writes[k]);
  }
}
