/**
  The append-only linear log that the ring, the hole queue and the segment implement.

  The history is not part of the program: no step of WalMachine reads it. Position p of `lin` is the
  p-th byte ever reserved, carriage returns and skipped bytes included.
 */
module WalHistory {
  import opened Wrappers
  import opened Align
  import opened WalMachine

  /**
    A record handed to submit(): the LSN and GSN its owner got, where it lies in the linear log, the bytes its
    owner filled.
   */
  datatype Submitted = Submitted(lsn: nat, at: nat, bytes: seq<byte>, gsn: nat)

  datatype History = History(
    lin: seq<byte>,
    lap: nat,       // linear position of ring offset 0 in the current lap
    lsnBase: nat,   // linear position of LSN 0
    segBase: nat,   // linear position of segment offset 0
    gct: nat,       // linear position of wal_gct_cursor
    pub: nat,       // linear position of the published offset
    roundEnd: nat,  // linear position of the offset the round in flight has read
    ends: seq<nat>, // linear ends of the queued holes
    drained: nat,   // queued holes that drain_holes has already published
    submitted: seq<Submitted>)

  const INIT_HISTORY := History([], 0, 0, 0, 0, 0, 0, [], 0, [])

  datatype World = World(log: Log, hist: History)

  function CollectHistory(s: Log, h: History): (r: History)
    requires |h.ends| == |s.holes|
  {
    var k := UnlockedPrefix(s.holes);
    if k == 0 then h else h.(ends := h.ends[k..], pub := h.ends[k - 1], drained := 0)
  }

  /** Bytes enter the linear log with whatever the ring still holds at their place. */
  function Extend(s: Log, h: History, written: seq<byte>, size: nat): (r: History)
    requires |h.ends| == |s.holes|
    requires |written| <= size && s.cursor + size <= |s.ring|
  {
    var h' := CollectHistory(s, h);
    var lin := h.lin + written + s.ring[s.cursor + |written|..s.cursor + size];
    h'.(lin := lin, ends := h'.ends + [|lin|])
  }

  ghost function HistoryStep(c: Config, s: Log, h: History, e: Event): (r: History)
    requires |h.ends| == |s.holes|
    requires Step(c, s, e).Next?
  {
    var s' := Step(c, s, e).log;
    match e
    case Branch =>
      if s'.phase.CrBumped? && s'.lsn == 0 && s.cursor <= c.bufSize
      then h.(lsnBase := |h.lin| + c.bufSize - s.cursor) else h
    case WriteCr(entry) =>
      if s.cursor + c.crSize <= c.bufSize <= |s.ring|
      then Extend(s, h, entry, c.bufSize - s.cursor).(lap := h.lap + c.bufSize) else h
    case WriteSkip(b) =>
      if s.cursor < UpAlign(s.cursor) <= |s.ring|
      then Extend(s, h, [b], UpAlign(s.cursor) - s.cursor) else h
    case Drain =>
      if s.holes == [] then h else h.(pub := h.ends[|h.ends| - 1], drained := |h.ends|)
    case WriteRecord(header) => Extend(s, h, header, s.phase.req)
    case Fill(a, pos, b) =>
      var i := a - s.head;
      var p := h.ends[i] - s.holes[i].size + pos;
      if 0 <= p < |h.lin| then h.(lin := h.lin[p := b]) else h
    case Unlock(a) =>
      var i := a - s.head;
      var hole := s.holes[i];
      if hole.size <= h.ends[i] && hole.start + hole.size <= |s.ring|
      then
        var bytes := s.ring[hole.start..hole.start + hole.size];
        h.(submitted := h.submitted + [Submitted(hole.lsn, h.ends[i] - hole.size, bytes, hole.gsn)])
      else h
    case Collect => CollectHistory(s, h)
    case GctBegin =>
      h.(roundEnd := h.pub,
         segBase := if s'.segOffset < s.segOffset then h.segBase + c.fakeWrap else h.segBase)
    case GctEnd => h.(gct := h.roundEnd)
    case _ => h
  }

  // ----- the invariant

  /** Ring offset of linear position p, for p in the current lap or the one before. */
  function Off(c: Config, lap: nat, p: nat): (r: nat)
    requires lap <= p + c.bufSize
  {
    if p >= lap then p - lap else p + c.bufSize - lap
  }

  /** How far the LSN counter runs ahead of the linear log. */
  function Pending(c: Config, s: Log): (r: nat) {
    match s.phase
    case CrBumped(_) => if s.cursor <= c.bufSize then c.bufSize - s.cursor else 0
    case SkipBumped(_) => UpAlign(s.cursor) - s.cursor
    case Draining(req, _) => req
    case Bumped(req, _) => req
    case _ => 0
  }

  ghost predicate Cursors(c: Config, s: Log, h: History) {
    && |s.ring| == c.bufSize > 0
    && |h.lin| == h.lap + s.cursor
    && Aligned(h.lap) && Multiple(c.bufSize, h.lap)
    && s.cursor + c.crSize <= c.bufSize
    && s.lsn + h.lsnBase == |h.lin| + Pending(c, s)
    && Multiple(c.bufSize, h.lsnBase)
    && (!s.phase.CrBumped? ==> h.lsnBase <= h.lap)
    && h.lsnBase <= h.lap + c.bufSize
    && (c.fakeWrap == 0 ==> h.lsnBase == 0)
    && (c.fakeWrap != 0 ==> s.lsn < c.fakeWrap)
  }

  /**
    The ring holds no more than one lap beyond the first block the committer may still write, so it never looks empty
    when full.
   */
  ghost predicate Window(c: Config, s: Log, h: History) {
    && h.lap <= DownAlign(h.gct) + c.bufSize
    && h.gct <= h.pub <= |h.lin|
    && |h.lin| + c.crSize <= DownAlign(h.gct) + c.bufSize
    && s.gctCursor == Off(c, h.lap, h.gct)
    && s.pub.offset == Off(c, h.lap, h.pub)
  }

  /** The segment is closed before its last buffer-sized part, and no device write can reach its end. */
  ghost predicate SegmentRoom(c: Config, s: Log, h: History) {
    && UpAlign(s.lsn) < c.segSize
    && (!s.redirect ==>
          match s.phase
          case Idle => s.lsn + c.bufSize < c.segSize
          case Granted(_) => s.lsn + c.bufSize < c.segSize
          case Bumped(_, _) => s.lsn + c.bufSize < c.segSize
          case _ => s.lsn + c.bufSize <= c.segSize)
    && (s.redirect ==> s.phase.Idle? || s.phase.Draining? || s.phase.Bumped?)
    && (s.phase.Draining? ==> s.redirect)
  }

  predicate InOneBlock(at: nat, size: nat) {
    at + size <= DownAlign(at) + BLOCK
  }

  /**
    req bytes at the cursor lie in one block, leave room for a carriage return and touch no block the committer still
    needs.
   */
  ghost predicate Fits(c: Config, s: Log, h: History, req: nat) {
    && 0 < req && req + c.crSize <= BLOCK
    && s.cursor + req + c.crSize <= c.bufSize
    && InOneBlock(s.cursor, req)
    && |h.lin| + req + c.crSize <= DownAlign(h.gct) + c.bufSize
  }

  ghost predicate PhaseOk(c: Config, s: Log, h: History) {
    var room := DownAlign(h.gct) + c.bufSize;
    match s.phase
    case Idle => true
    case Granted(req) =>
      && 0 < req && req + c.crSize <= BLOCK
      && |h.lin| + req + c.crSize <= room
      && (c.bufSize - s.cursor < req + c.crSize ==> h.lap + req + c.crSize <= DownAlign(h.gct))
    case CrBumped(req) =>
      && 0 < req && req + c.crSize <= BLOCK
      && h.lap + req + c.crSize <= DownAlign(h.gct)
    case SkipBumped(req) =>
      && 0 < req && req + c.crSize <= BLOCK
      && DownAlign(s.cursor) < s.cursor
      && UpAlign(s.cursor) + BLOCK <= c.bufSize
      && h.lap + UpAlign(s.cursor) + BLOCK <= room
    case Ready(req) => Fits(c, s, h, req)
    case Draining(req, lsn) => Fits(c, s, h, req) && lsn + h.lsnBase == |h.lin|
    case Bumped(req, lsn) => Fits(c, s, h, req) && lsn + h.lsnBase == |h.lin|
  }

  /** The ring is the last lap of the linear log. */
  ghost predicate RingOk(c: Config, s: Log, h: History)
    requires |s.ring| == c.bufSize && |h.lin| == h.lap + s.cursor && s.cursor <= c.bufSize
  {
    && (forall i :: 0 <= i < s.cursor ==> s.ring[i] == h.lin[h.lap + i])
    && (h.lap >= c.bufSize ==> forall i :: s.cursor <= i < c.bufSize ==> s.ring[i] == h.lin[h.lap - c.bufSize + i])
  }

  ghost predicate HoleOk(c: Config, s: Log, h: History, i: nat)
    requires |h.ends| == |s.holes| && i < |s.holes|
  {
    var hole := s.holes[i];
    && h.lap <= h.ends[i] + c.bufSize && h.ends[i] <= |h.lin|
    && hole.offset == Off(c, h.lap, h.ends[i])
    && hole.gsn <= s.gsnClock
    && hole.size <= h.ends[i]
    && (hole.locked ==> 0 < hole.size && i >= h.drained && h.pub <= h.ends[i] - hole.size)
    && (0 < hole.size ==>
          && hole.start + hole.size == hole.offset
          && InOneBlock(h.ends[i] - hole.size, hole.size)
          && (c.fakeWrap == 0 ==> hole.lsn == h.ends[i] - hole.size))
    && s.pub.gsn <= hole.gsn
    && (i >= h.drained ==> h.pub <= h.ends[i])
  }

  ghost predicate HolesOk(c: Config, s: Log, h: History) {
    && |h.ends| == |s.holes| <= c.maxHoles
    && s.pub.gsn <= s.gsnClock
    && h.drained <= |h.ends|
    && (h.drained > 0 ==> s.phase.Bumped?)
    && (h.drained > 0 ==> h.pub == h.ends[h.drained - 1] && s.pub.gsn == s.holes[h.drained - 1].gsn)
    && (if h.ends == [] then h.pub == |h.lin| else h.ends[|h.ends| - 1] == |h.lin|)
  }

  ghost predicate EveryHoleOk(c: Config, s: Log, h: History)
    requires |h.ends| == |s.holes|
  {
    && (forall i | 0 <= i < |s.holes| && i >= h.drained :: HoleOk(c, s, h, i))
    && (forall i | 0 <= i < h.drained && i < |s.holes| :: DrainedHoleOk(c, s, h, i))
  }

  /** A hole that drain_holes published and collect has not popped yet. */
  ghost predicate DrainedHoleOk(c: Config, s: Log, h: History, i: nat)
    requires |h.ends| == |s.holes| && i < |s.holes|
  {
    && !s.holes[i].locked
    && h.lap <= h.ends[i] + c.bufSize && h.ends[i] <= h.pub
    && s.holes[i].offset == Off(c, h.lap, h.ends[i])
    && s.holes[i].gsn <= s.pub.gsn
  }

  ghost predicate Ordered(s: Log, h: History)
    requires |h.ends| == |s.holes|
  {
    forall i, j | 0 <= i < j < |s.holes| ::
      h.ends[i] + s.holes[j].size <= h.ends[j] && s.holes[i].gsn <= s.holes[j].gsn
  }

  ghost predicate RoundOk(c: Config, s: Log, h: History) {
    && 0 < c.bufSize && s.seenGsn <= s.pub.gsn
    && Multiple(c.bufSize, h.segBase)
    && (c.fakeWrap == 0 ==> h.segBase == 0)
    && (c.fakeWrap != 0 ==> s.segOffset < c.fakeWrap)
    && match s.round
       case NoRound => s.segOffset + h.segBase == DownAlign(h.gct)
       case Round(pub, ws, copied) =>
         && s.segOffset + h.segBase == DownAlign(h.roundEnd)
         && h.gct <= h.roundEnd <= h.pub
         && h.lap <= h.roundEnd + c.bufSize
         && pub.offset == Off(c, h.lap, h.roundEnd)
         && s.seenGsn < pub.gsn <= s.pub.gsn
         && (forall w | 0 <= w < |ws| :: WriteOk(c, h, ws[w]))
         && (c.fakeWrap == 0 ==> Covers(ws, h.gct, h.roundEnd))
  }

  /** The request maps ring bytes to the linear positions they stand for. */
  ghost predicate WriteOk(c: Config, h: History, w: Write) {
    && 0 < w.size && w.buf + w.size <= c.bufSize
    && w.dev + w.size < c.segSize
    && (c.fakeWrap == 0 ==>
          && DownAlign(h.gct) <= w.dev && w.dev + w.size <= UpAlign(h.roundEnd)
          && h.lap <= w.dev + c.bufSize
          && w.buf == Off(c, h.lap, w.dev)
          && (w.dev < h.lap ==> w.dev + w.size <= h.lap))
  }

  ghost predicate Covers(ws: seq<Write>, lo: nat, hi: nat) {
    forall p: nat | lo <= p < hi :: CoveredBy(ws, p)
  }

  ghost predicate CoveredBy(ws: seq<Write>, p: nat) {
    exists w :: 0 <= w < |ws| && ws[w].dev <= p < ws[w].dev + ws[w].size
  }

  /** What the device owes: the log up to the GCT cursor, and what the round in flight has copied. */
  ghost predicate DeviceOk(s: Log, h: History) {
    && h.gct <= |h.lin|
    && (forall p | 0 <= p < h.gct :: p in s.device && s.device[p] == h.lin[p])
    && (s.round.Round? ==>
          && h.roundEnd <= |h.lin|
          && forall p | p in s.round.copied && p < h.roundEnd :: p in s.device && s.device[p] == h.lin[p])
  }

  ghost predicate SubmittedOk(c: Config, s: Log, h: History, r: Submitted)
    requires |h.ends| == |s.holes|
  {
    && r.at + |r.bytes| <= |h.lin|
    && h.lin[r.at..r.at + |r.bytes|] == r.bytes
    && 0 < |r.bytes| && InOneBlock(r.at, |r.bytes|)
    && (c.fakeWrap == 0 ==> r.lsn == r.at)
    && forall i | 0 <= i < |s.holes| && s.holes[i].locked ::
         r.at + |r.bytes| <= h.ends[i] - s.holes[i].size || h.ends[i] <= r.at
  }

  ghost predicate EverySubmittedOk(c: Config, s: Log, h: History)
    requires |h.ends| == |s.holes|
  {
    forall r | r in h.submitted :: SubmittedOk(c, s, h, r)
  }

  ghost predicate Inv(c: Config, w: World) {
    var (s, h) := (w.log, w.hist);
    && Cursors(c, s, h) && Window(c, s, h) && SegmentRoom(c, s, h) && PhaseOk(c, s, h)
    && RingOk(c, s, h)
    && HolesOk(c, s, h) && EveryHoleOk(c, s, h) && Ordered(s, h)
    && RoundOk(c, s, h)
    && (c.fakeWrap == 0 ==> DeviceOk(s, h))
    && EverySubmittedOk(c, s, h)
  }

  // ----- runs

  ghost predicate StepTo(c: Config, w: World, e: Event, w': World) {
    && |w.hist.ends| == |w.log.holes|
    && Step(c, w.log, e) == Next(w'.log)
    && w'.hist == HistoryStep(c, w.log, w.hist, e)
  }

  ghost predicate StepAt(c: Config, worlds: seq<World>, events: seq<Event>, i: nat)
    requires |worlds| == |events| + 1 && i < |events|
  {
    StepTo(c, worlds[i], events[i], worlds[i + 1])
  }

  /** A run: worlds[i + 1] follows from worlds[i] by events[i]. */
  ghost predicate Run(c: Config, worlds: seq<World>, events: seq<Event>) {
    && |worlds| == |events| + 1
    && worlds[0] == World(Init(c), INIT_HISTORY)
    && forall i | 0 <= i < |events| :: StepAt(c, worlds, events, i)
  }
}
