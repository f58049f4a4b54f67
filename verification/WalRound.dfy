/** The block ranges a group commit round writes, and where add_pwrite places them in the segment. */
module WalRound {
  import opened Align
  import opened WalMachine
  import opened WalHistory
  import opened WalProof

  /** add_pwrite on an aligned range that ends inside the segment and at or before the fake wrap. */
  lemma AddPwriteResult(c: Config, p: Plan, buf: nat, size: nat, full: bool)
    requires p.Plan? && Aligned(p.segOffset) && Aligned(size) && 0 < size && p.segOffset + size < c.segSize
    requires BLOCK <= size
    requires c.fakeWrap != 0 ==> p.segOffset + size <= c.fakeWrap
    ensures var r := AddPwrite(c, p, buf, size, full);
      && r.Plan?
      && r.writes == p.writes + [Write(buf, size, p.segOffset)]
      && r.segOffset == (if full && c.fakeWrap != 0 && p.segOffset + size == c.fakeWrap then 0
                         else p.segOffset + size - (if full then 0 else BLOCK))
  {
  }

  /** The situation when a round starts. */
  ghost predicate Starting(c: Config, s: Log, h: History) {
    && ValidConfig(c) && Cursors(c, s, h) && Window(c, s, h) && SegmentRoom(c, s, h) && RoundOk(c, s, h)
    && s.round.NoRound?
  }

  /** Everything published lies below the end of the segment. */
  lemma PublishedBelowEnd(c: Config, s: Log, h: History)
    requires Starting(c, s, h) && c.fakeWrap == 0
    ensures UpAlign(h.pub) < c.segSize && h.lap < c.segSize
  {
    AlignMonotone(h.pub, s.lsn);
    UpFromDown(s.lsn);
  }

  /** A lap that starts before the fake wrap ends at or before it. */
  lemma LapBelowWrap(c: Config, s: Log, h: History, lap: nat)
    requires Starting(c, s, h) && c.fakeWrap != 0
    requires Multiple(c.bufSize, lap) && lap <= DownAlign(h.gct) < lap + c.bufSize
    ensures h.segBase <= lap && lap + c.bufSize - h.segBase <= c.fakeWrap < c.segSize
  {
    if lap < h.segBase {
      NextMultiple(c.bufSize, lap, h.segBase);
    }
    MultipleDifference(c.bufSize, h.segBase, lap);
    NextMultiple(c.bufSize, lap - h.segBase, c.fakeWrap);
  }

  /** What a planned round owes to the linear log. */
  ghost predicate PlanOk(c: Config, s: Log, h: History, p: Plan) {
    p.Plan? && OffsetOk(c, s, h, p) && WritesOk(c, h, p)
  }

  ghost predicate OffsetOk(c: Config, s: Log, h: History, p: Plan)
    requires p.Plan?
  {
    var wrapped := p.segOffset < s.segOffset;
    var base := if wrapped then h.segBase + c.fakeWrap else h.segBase;
    && p.segOffset + base == DownAlign(h.pub)
    && Multiple(c.bufSize, base)
    && (c.fakeWrap == 0 ==> !wrapped)
    && (c.fakeWrap != 0 ==> p.segOffset < c.fakeWrap)
  }

  ghost predicate WritesOk(c: Config, h: History, p: Plan)
    requires p.Plan?
  {
    && (forall w | 0 <= w < |p.writes| :: WriteOk(c, h.(roundEnd := h.pub), p.writes[w]))
    && (c.fakeWrap == 0 ==> Covers(p.writes, h.gct, h.pub))
  }

  /** The range of a round that stays in one lap, in linear terms. */
  ghost predicate OneRangeFacts(c: Config, s: Log, h: History)
    requires Cursors(c, s, h) && Window(c, s, h)
  {
    var (lo, hi) := (DownAlign(h.gct), UpAlign(h.pub));
    && DownAlign(s.gctCursor) == Off(c, h.lap, lo)
    && UpAlign(s.pub.offset) - DownAlign(s.gctCursor) == hi - lo
    && (UpAlign(s.pub.offset) == s.pub.offset <==> hi == h.pub)
    && lo + BLOCK <= hi && Aligned(hi - lo)
    && h.segBase <= lo && Aligned(s.segOffset)
    && UpAlign(s.pub.offset) <= c.bufSize && hi < h.segBase + c.segSize
    && (h.pub < h.lap ==> hi <= h.lap)
    && (h.gct < h.lap ==> h.pub < h.lap)
    && (if hi == h.pub then DownAlign(h.pub) == h.pub else hi == DownAlign(h.pub) + BLOCK)
    && (c.fakeWrap != 0 ==> hi <= h.segBase + c.fakeWrap && DownAlign(h.pub) < h.segBase + c.fakeWrap)
  }

  /** Cursor and published offset in the same lap: one range. */
  lemma OneRange(c: Config, s: Log, h: History)
    requires Starting(c, s, h) && s.gctCursor < s.pub.offset
    ensures PlanOk(c, s, h, PlanWrites(c, s))
  {
    OneRangeCursors(c, s, h);
    OneRangeAligned(c, s, h);
    OneRangeRoom(c, s, h);
    assert OneRangeFacts(c, s, h);
    OneRangePlan(c, s, h);
  }

  lemma OneRangeCursors(c: Config, s: Log, h: History)
    requires Starting(c, s, h) && s.gctCursor < s.pub.offset
    ensures h.gct < h.lap ==> h.pub < h.lap
    ensures DownAlign(s.gctCursor) == Off(c, h.lap, DownAlign(h.gct))
    ensures UpAlign(s.pub.offset) == if h.pub >= h.lap then UpAlign(h.pub) - h.lap
            else UpAlign(h.pub) + c.bufSize - h.lap
  {
    AlignMonotone(h.gct, h.pub);
    OffDown(c, h.lap, h.gct);
    OffDown(c, h.lap, h.pub);
  }

  lemma OneRangeAligned(c: Config, s: Log, h: History)
    requires Starting(c, s, h) && s.gctCursor < s.pub.offset
    ensures DownAlign(h.gct) + BLOCK <= UpAlign(h.pub) && Aligned(UpAlign(h.pub) - DownAlign(h.gct))
    ensures Aligned(s.segOffset)
    ensures if UpAlign(h.pub) == h.pub then DownAlign(h.pub) == h.pub else UpAlign(h.pub) == DownAlign(h.pub) + BLOCK
  {
    var (lo, hi) := (DownAlign(h.gct), UpAlign(h.pub));
    AlignMonotone(h.gct, h.pub);
    Gap(lo, hi);
    MultipleDifference(BLOCK, lo, hi);
    MultipleOfBlocks(c.bufSize, h.segBase);
    MultipleDifference(BLOCK, h.segBase, lo);
    UpFromDown(h.pub);
  }

  lemma OneRangeRoom(c: Config, s: Log, h: History)
    requires Starting(c, s, h) && s.gctCursor < s.pub.offset
    ensures UpAlign(h.pub) < h.segBase + c.segSize
    ensures UpAlign(s.pub.offset) <= c.bufSize
    ensures h.pub < h.lap ==> UpAlign(h.pub) <= h.lap
    ensures c.fakeWrap != 0 ==> UpAlign(h.pub) <= h.segBase + c.fakeWrap && DownAlign(h.pub) < h.segBase + c.fakeWrap
  {
    OneRangeLap(c, s, h);
    if c.fakeWrap == 0 {
      PublishedBelowEnd(c, s, h);
    } else {
      OneRangeWrap(c, s, h);
    }
  }

  lemma OneRangeLap(c: Config, s: Log, h: History)
    requires Starting(c, s, h)
    ensures UpAlign(s.pub.offset) <= c.bufSize && UpAlign(h.pub) <= h.lap + c.bufSize
    ensures h.pub < h.lap ==> UpAlign(h.pub) <= h.lap
  {
    AlignMonotone(h.gct, h.pub);
    Gap(h.lap, UpAlign(h.pub));
    MultipleSum(BLOCK, h.lap, c.bufSize);
    Gap(h.lap + c.bufSize, UpAlign(h.pub));
    OffDown(c, h.lap, h.pub);
  }

  lemma OneRangeWrap(c: Config, s: Log, h: History)
    requires Starting(c, s, h) && s.gctCursor < s.pub.offset && c.fakeWrap != 0
    requires UpAlign(h.pub) <= h.lap + c.bufSize && (h.pub < h.lap ==> UpAlign(h.pub) <= h.lap)
    ensures UpAlign(h.pub) <= h.segBase + c.fakeWrap && DownAlign(h.pub) < h.segBase + c.fakeWrap
    ensures UpAlign(h.pub) < h.segBase + c.segSize
  {
    if h.gct >= h.lap {
      Gap(DownAlign(h.gct), h.lap);
      LapBelowWrap(c, s, h, h.lap);
    } else {
      MultipleDifference(c.bufSize, c.bufSize, h.lap);
      LapBelowWrap(c, s, h, h.lap - c.bufSize);
    }
  }

  lemma OneRangePlan(c: Config, s: Log, h: History)
    requires Starting(c, s, h) && s.gctCursor < s.pub.offset && OneRangeFacts(c, s, h)
    ensures PlanOk(c, s, h, PlanWrites(c, s))
  {
    OneRangeWrite(c, s, h);
    AlignMonotone(h.gct, h.pub);
    OneRangeOk(c, s, h, PlanWrites(c, s));
  }

  lemma OneRangeOk(c: Config, s: Log, h: History, p: Plan)
    requires ValidConfig(c) && Cursors(c, s, h) && Window(c, s, h) && RoundOk(c, s, h) && s.round.NoRound?
    requires OneRangeFacts(c, s, h) && DownAlign(h.gct) <= DownAlign(h.pub)
    requires p == Plan([Write(DownAlign(s.gctCursor), UpAlign(h.pub) - DownAlign(h.gct), s.segOffset)],
                       DownAlign(h.pub) - h.segBase)
    ensures PlanOk(c, s, h, p)
  {
    OneRangeOffset(c, s, h, p);
    OneRangeEach(c, s, h, p.writes[0]);
    if c.fakeWrap == 0 {
      SingleCovers(p.writes, h.gct, h.pub);
    }
  }

  lemma OneRangeEach(c: Config, s: Log, h: History, w: Write)
    requires Cursors(c, s, h) && Window(c, s, h) && OneRangeFacts(c, s, h)
    requires s.segOffset + h.segBase == DownAlign(h.gct) && (c.fakeWrap == 0 ==> h.segBase == 0)
    requires c.fakeWrap != 0 ==> h.segBase + c.fakeWrap <= h.segBase + c.segSize
    requires w == Write(DownAlign(s.gctCursor), UpAlign(h.pub) - DownAlign(h.gct), s.segOffset)
    ensures WriteOk(c, h.(roundEnd := h.pub), w)
  {
  }

  lemma OneRangeOffset(c: Config, s: Log, h: History, p: Plan)
    requires RoundOk(c, s, h) && s.round.NoRound? && p.Plan? && DownAlign(h.gct) <= DownAlign(h.pub)
    requires h.segBase <= DownAlign(h.gct) && p.segOffset == DownAlign(h.pub) - h.segBase
    requires c.fakeWrap != 0 ==> DownAlign(h.pub) < h.segBase + c.fakeWrap
    ensures OffsetOk(c, s, h, p)
  {
  }

  lemma OneRangeWrite(c: Config, s: Log, h: History)
    requires Starting(c, s, h) && s.gctCursor < s.pub.offset && OneRangeFacts(c, s, h)
    ensures PlanWrites(c, s) == Plan([Write(DownAlign(s.gctCursor), UpAlign(h.pub) - DownAlign(h.gct), s.segOffset)],
                                     DownAlign(h.pub) - h.segBase)
  {
    AddPwriteResult(c, Plan([], s.segOffset), DownAlign(s.gctCursor), UpAlign(h.pub) - DownAlign(h.gct),
                    UpAlign(h.pub) == h.pub);
  }

  lemma SingleCovers(ws: seq<Write>, lo: nat, hi: nat)
    requires |ws| == 1 && ws[0].dev <= lo && hi <= ws[0].dev + ws[0].size
    ensures Covers(ws, lo, hi)
  {
    forall p: nat | lo <= p < hi
      ensures CoveredBy(ws, p)
    {
      assert ws[0].dev <= p < ws[0].dev + ws[0].size;
    }
  }

  /** The published offset has wrapped: the rest of the old lap, then the start of the new one. */
  lemma TwoRanges(c: Config, s: Log, h: History)
    requires Starting(c, s, h) && s.pub.offset < s.gctCursor
    ensures PlanOk(c, s, h, PlanWrites(c, s))
  {
    TwoRangesCursors(c, s, h);
    TwoRangesAligned(c, s, h);
    TwoRangesRoom(c, s, h);
    assert TwoRangesFacts(c, s, h);
    TwoRangesPlan(c, s, h);
  }

  lemma TwoRangesCursors(c: Config, s: Log, h: History)
    requires Starting(c, s, h) && s.pub.offset < s.gctCursor
    ensures h.gct < h.lap <= h.pub
    ensures DownAlign(s.gctCursor) == DownAlign(h.gct) + c.bufSize - h.lap
    ensures UpAlign(s.pub.offset) == UpAlign(h.pub) - h.lap
  {
    AlignMonotone(h.gct, h.pub);
    OffDown(c, h.lap, h.gct);
    OffDown(c, h.lap, h.pub);
    Gap(DownAlign(h.gct), h.lap);
  }

  lemma TwoRangesAligned(c: Config, s: Log, h: History)
    requires Starting(c, s, h) && h.gct < h.lap <= h.pub
    ensures DownAlign(h.gct) + BLOCK <= h.lap && Aligned(h.lap - DownAlign(h.gct))
    ensures Aligned(UpAlign(h.pub) - h.lap) && h.lap <= DownAlign(h.pub)
    ensures UpAlign(h.pub) > h.lap ==> UpAlign(h.pub) >= h.lap + BLOCK
    ensures Aligned(s.segOffset)
    ensures if UpAlign(h.pub) == h.pub then DownAlign(h.pub) == h.pub else UpAlign(h.pub) == DownAlign(h.pub) + BLOCK
  {
    AlignMonotone(h.gct, h.pub);
    Gap(DownAlign(h.gct), h.lap);
    Gap(h.lap, UpAlign(h.pub));
    Gap(DownAlign(h.pub), h.lap);
    MultipleDifference(BLOCK, DownAlign(h.gct), h.lap);
    MultipleDifference(BLOCK, h.lap, UpAlign(h.pub));
    MultipleOfBlocks(c.bufSize, h.segBase);
    MultipleDifference(BLOCK, h.segBase, DownAlign(h.gct));
    UpFromDown(h.pub);
  }

  lemma TwoRangesRoom(c: Config, s: Log, h: History)
    requires Starting(c, s, h) && h.gct < h.lap <= h.pub
    ensures UpAlign(h.pub) <= h.lap + c.bufSize
    ensures c.fakeWrap == 0 ==> h.lap < c.segSize && UpAlign(h.pub) < c.segSize
    ensures c.fakeWrap != 0 ==>
      && h.segBase + c.bufSize <= h.lap <= h.segBase + c.fakeWrap && c.bufSize <= c.fakeWrap < c.segSize
      && (h.lap < h.segBase + c.fakeWrap ==> h.lap + c.bufSize <= h.segBase + c.fakeWrap)
  {
    MultipleSum(BLOCK, h.lap, c.bufSize);
    Gap(h.lap + c.bufSize, UpAlign(h.pub));
    if c.fakeWrap == 0 {
      PublishedBelowEnd(c, s, h);
    } else {
      NextMultiple(c.bufSize, 0, c.fakeWrap);
      MultipleDifference(c.bufSize, c.bufSize, h.lap);
      LapBelowWrap(c, s, h, h.lap - c.bufSize);
      if h.lap < h.segBase + c.fakeWrap {
        MultipleDifference(c.bufSize, h.segBase, h.lap);
        NextMultiple(c.bufSize, h.lap - h.segBase, c.fakeWrap);
      }
    }
  }

  ghost predicate TwoRangesFacts(c: Config, s: Log, h: History) {
    && h.gct < h.lap <= h.pub
    && DownAlign(s.gctCursor) == DownAlign(h.gct) + c.bufSize - h.lap
    && UpAlign(s.pub.offset) == UpAlign(h.pub) - h.lap
    && DownAlign(h.gct) + BLOCK <= h.lap && Aligned(h.lap - DownAlign(h.gct))
    && Aligned(UpAlign(h.pub) - h.lap) && h.lap <= DownAlign(h.pub)
    && (UpAlign(h.pub) > h.lap ==> UpAlign(h.pub) >= h.lap + BLOCK)
    && Aligned(s.segOffset)
    && (if UpAlign(h.pub) == h.pub then DownAlign(h.pub) == h.pub else UpAlign(h.pub) == DownAlign(h.pub) + BLOCK)
    && UpAlign(h.pub) <= h.lap + c.bufSize
    && (c.fakeWrap == 0 ==> h.lap < c.segSize && UpAlign(h.pub) < c.segSize)
    && (c.fakeWrap != 0 ==>
          && h.segBase + c.bufSize <= h.lap <= h.segBase + c.fakeWrap && c.bufSize <= c.fakeWrap < c.segSize
          && (h.lap < h.segBase + c.fakeWrap ==> h.lap + c.bufSize <= h.segBase + c.fakeWrap))
  }

  /** The linear position of segment offset 0 after the first range. */
  ghost function NewBase(c: Config, h: History): (r: nat) {
    if c.fakeWrap != 0 && h.lap == h.segBase + c.fakeWrap then h.lap else h.segBase
  }

  lemma TwoRangesPlan(c: Config, s: Log, h: History)
    requires Starting(c, s, h) && s.pub.offset < s.gctCursor && TwoRangesFacts(c, s, h)
    ensures PlanOk(c, s, h, PlanWrites(c, s))
  {
    TwoRangesWrites(c, s, h);
    TwoRangesOk(c, s, h, PlanWrites(c, s));
  }

  ghost predicate TwoRangesShape(c: Config, s: Log, h: History, p: Plan) {
    var base := NewBase(c, h);
    && p.Plan? && 1 <= |p.writes| <= 2
    && base <= h.lap <= DownAlign(h.pub) && DownAlign(h.gct) <= h.lap <= UpAlign(h.pub)
    && p.writes[0] == Write(DownAlign(s.gctCursor), h.lap - DownAlign(h.gct), s.segOffset)
    && (if UpAlign(h.pub) > h.lap then |p.writes| == 2 && p.writes[1] == Write(0, UpAlign(h.pub) - h.lap, h.lap - base)
       else |p.writes| == 1)
    && p.segOffset == DownAlign(h.pub) - base
  }

  lemma TwoRangesOk(c: Config, s: Log, h: History, p: Plan)
    requires ValidConfig(c) && Cursors(c, s, h) && Window(c, s, h) && RoundOk(c, s, h) && s.round.NoRound?
    requires TwoRangesFacts(c, s, h) && TwoRangesShape(c, s, h, p)
    ensures PlanOk(c, s, h, p)
  {
    TwoRangesOffset(c, s, h, p);
    TwoRangesEach(c, s, h, p);
    if c.fakeWrap == 0 {
      PairCovers(p.writes, h.gct, h.lap, h.pub);
    }
  }

  lemma TwoRangesEach(c: Config, s: Log, h: History, p: Plan)
    requires ValidConfig(c) && s.segOffset + h.segBase == DownAlign(h.gct) && (c.fakeWrap == 0 ==> h.segBase == 0)
    requires c.fakeWrap != 0 ==> s.segOffset < c.fakeWrap
    requires TwoRangesFacts(c, s, h) && TwoRangesShape(c, s, h, p)
    ensures forall w | 0 <= w < |p.writes| :: WriteOk(c, h.(roundEnd := h.pub), p.writes[w])
  {
    forall w | 0 <= w < |p.writes|
      ensures WriteOk(c, h.(roundEnd := h.pub), p.writes[w])
    {
      assert w == 0 || w == 1;
    }
  }

  lemma TwoRangesOffset(c: Config, s: Log, h: History, p: Plan)
    requires ValidConfig(c) && Cursors(c, s, h) && Window(c, s, h) && RoundOk(c, s, h) && s.round.NoRound?
    requires TwoRangesFacts(c, s, h) && TwoRangesShape(c, s, h, p)
    ensures OffsetOk(c, s, h, p)
  {
    if c.fakeWrap != 0 && h.lap == h.segBase + c.fakeWrap {
      assert p.segOffset < s.segOffset;
    }
  }

  lemma NewBaseAligned(c: Config, h: History)
    requires ValidConfig(c) && Multiple(c.bufSize, h.segBase) && Aligned(h.lap) && h.segBase <= h.lap
    ensures Aligned(h.segBase) && Aligned(h.lap - h.segBase)
  {
    MultipleOfBlocks(c.bufSize, h.segBase);
    MultipleDifference(BLOCK, h.segBase, h.lap);
  }

  lemma TwoRangesWrites(c: Config, s: Log, h: History)
    requires ValidConfig(c) && RoundOk(c, s, h) && s.round.NoRound? && Aligned(h.lap)
    requires s.pub.offset < s.gctCursor && s.pub.offset == h.pub - h.lap && TwoRangesFacts(c, s, h)
    ensures TwoRangesShape(c, s, h, PlanWrites(c, s))
  {
    NewBaseAligned(c, h);
    TwoWrites(c, s.segOffset, DownAlign(s.gctCursor), h.lap - DownAlign(h.gct), UpAlign(h.pub) - h.lap,
              UpAlign(s.pub.offset) == s.pub.offset);
    TwoRangesCalls(c, s);
    TwoRangesMeaning(c, s, h, PlanWrites(c, s));
  }

  lemma TwoRangesMeaning(c: Config, s: Log, h: History, p: Plan)
    requires s.segOffset + h.segBase == DownAlign(h.gct) && TwoRangesFacts(c, s, h) && p.Plan?
    requires var mid := if c.fakeWrap != 0 && h.lap == h.segBase + c.fakeWrap then 0 else h.lap - h.segBase;
      var (buf, n1, n2) := (DownAlign(s.gctCursor), h.lap - DownAlign(h.gct), UpAlign(h.pub) - h.lap);
      && p.writes
         == (if n2 > 0 then [Write(buf, n1, s.segOffset), Write(0, n2, mid)] else [Write(buf, n1, s.segOffset)])
      && p.segOffset == (if n2 > 0 && UpAlign(h.pub) != h.pub then mid + n2 - BLOCK else mid + n2)
    ensures TwoRangesShape(c, s, h, p)
  {
  }

  /** The two calls, for a published offset that has wrapped. */
  lemma TwoRangesCalls(c: Config, s: Log)
    requires s.pub.offset < s.gctCursor && DownAlign(s.gctCursor) <= c.bufSize
    ensures var p1 := AddPwrite(c, Plan([], s.segOffset), DownAlign(s.gctCursor), c.bufSize - DownAlign(s.gctCursor),
            true);
            p1.Plan? ==>
              PlanWrites(c, s) == AddPwrite(c, p1, 0, UpAlign(s.pub.offset), UpAlign(s.pub.offset) == s.pub.offset)
  {
  }

  /** Two add_pwrite calls, the first up to the end of the ring. */
  lemma TwoWrites(c: Config, seg: nat, buf: nat, n1: nat, n2: nat, full: bool)
    requires Aligned(seg) && Aligned(n1) && BLOCK <= n1 && seg + n1 < c.segSize
    requires c.fakeWrap != 0 ==> seg + n1 <= c.fakeWrap
    requires var mid := if c.fakeWrap != 0 && seg + n1 == c.fakeWrap then 0 else seg + n1;
      && Aligned(mid) && Aligned(n2)
      && (n2 > 0 ==> BLOCK <= n2 && mid + n2 < c.segSize && (c.fakeWrap != 0 ==> mid + n2 <= c.fakeWrap))
      && (full && c.fakeWrap != 0 ==> mid + n2 < c.fakeWrap)
    ensures var mid := if c.fakeWrap != 0 && seg + n1 == c.fakeWrap then 0 else seg + n1;
      var p1 := AddPwrite(c, Plan([], seg), buf, n1, true);
      && p1.Plan?
      && var p := AddPwrite(c, p1, 0, n2, full);
         && p.Plan?
         && p.writes == (if n2 > 0 then [Write(buf, n1, seg), Write(0, n2, mid)] else [Write(buf, n1, seg)])
         && p.segOffset == (if n2 > 0 && !full then mid + n2 - BLOCK else mid + n2)
  {
    AddPwriteResult(c, Plan([], seg), buf, n1, true);
    if n2 > 0 {
      AddPwriteResult(c, AddPwrite(c, Plan([], seg), buf, n1, true), 0, n2, full);
    }
  }

  lemma PairCovers(ws: seq<Write>, lo: nat, mid: nat, hi: nat)
    requires |ws| == 2 || (|ws| == 1 && hi <= mid)
    requires ws[0].dev <= lo && mid <= ws[0].dev + ws[0].size
    requires |ws| == 2 ==> ws[1].dev <= mid && hi <= ws[1].dev + ws[1].size
    ensures Covers(ws, lo, hi)
  {
    forall p: nat | lo <= p < hi
      ensures CoveredBy(ws, p)
    {
      assert p < mid ==> ws[0].dev <= p < ws[0].dev + ws[0].size;
      assert p >= mid ==> ws[1].dev <= p < ws[1].dev + ws[1].size;
    }
  }

  lemma PlanKept(c: Config, s: Log, h: History)
    requires Starting(c, s, h)
    ensures PlanOk(c, s, h, PlanWrites(c, s))
  {
    if s.gctCursor < s.pub.offset {
      OneRange(c, s, h);
    } else if s.pub.offset < s.gctCursor {
      TwoRanges(c, s, h);
    } else {
      assert h.gct == h.pub;
    }
  }

  /** The state after a round has started with this plan. */
  ghost predicate Begun(c: Config, w: World, p: Plan, w': World) {
    && p.Plan? && w.log.round.NoRound? && w.log.seenGsn < w.log.pub.gsn
    && w'.log == w.log.(segOffset := p.segOffset, round := Round(w.log.pub, p.writes, {}))
    && w'.hist == w.hist.(roundEnd := w.hist.pub,
                          segBase := if p.segOffset < w.log.segOffset then w.hist.segBase + c.fakeWrap
                            else w.hist.segBase)
  }

  lemma GctBeginShape(c: Config, w: World, w': World)
    requires StepTo(c, w, GctBegin, w')
    ensures Begun(c, w, PlanWrites(c, w.log), w')
  {
  }

  lemma GctBeginKeeps(c: Config, w: World, w': World)
    requires ValidConfig(c) && Inv(c, w) && StepTo(c, w, GctBegin, w')
    ensures Inv(c, w')
  {
    GctBeginShape(c, w, w');
    PlanKept(c, w.log, w.hist);
    BegunKeeps(c, w, PlanWrites(c, w.log), w');
  }

  lemma BegunKeeps(c: Config, w: World, p: Plan, w': World)
    requires Inv(c, w) && Begun(c, w, p, w') && PlanOk(c, w.log, w.hist, p)
    ensures Inv(c, w')
  {
    GctBeginRound(c, w, p, w');
    SameHoles(c, w, w');
    GctBeginReserving(c, w, w');
    GctBeginContents(c, w, w');
    Assemble(c, w');
  }

  lemma GctBeginContents(c: Config, w: World, w': World)
    requires Cursors(c, w.log, w.hist) && RingOk(c, w.log, w.hist) && (c.fakeWrap == 0 ==> DeviceOk(w.log, w.hist))
    requires w.hist.pub <= |w.hist.lin|
    requires w'.log == w.log.(segOffset := w'.log.segOffset, round := w'.log.round)
    requires w'.hist == w.hist.(roundEnd := w.hist.pub, segBase := w'.hist.segBase)
    requires w'.log.round.Round? && w'.log.round.copied == {}
    ensures RingOk(c, w'.log, w'.hist) && (c.fakeWrap == 0 ==> DeviceOk(w'.log, w'.hist))
  {
  }

  lemma GctBeginReserving(c: Config, w: World, w': World)
    requires Reserving(c, w)
    requires w'.log == w.log.(segOffset := w'.log.segOffset, round := w'.log.round)
    requires w'.hist == w.hist.(roundEnd := w'.hist.roundEnd, segBase := w'.hist.segBase)
    ensures Reserving(c, w')
  {
    assert Pending(c, w'.log) == Pending(c, w.log);
  }

  lemma GctBeginRound(c: Config, w: World, p: Plan, w': World)
    requires Window(c, w.log, w.hist) && RoundOk(c, w.log, w.hist) && PlanOk(c, w.log, w.hist, p) && Begun(c, w, p, w')
    ensures RoundOk(c, w'.log, w'.hist)
  {
    var (h, h') := (w.hist, w'.hist);
    assert forall wr :: WriteOk(c, h.(roundEnd := h.pub), wr) == WriteOk(c, h', wr);
  }
}
