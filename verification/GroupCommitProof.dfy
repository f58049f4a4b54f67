/** Every step of group commit keeps its invariant; the watermark over whole runs. */
module GroupCommitProof {
  import opened Wrappers
  import opened GroupCommit

  // ----- a worker that goes on

  /** Records are only appended, above what the worker has published; publication moves forward. */
  ghost predicate Advances(my: Worker, my': Worker) {
    && my.records <= my'.records
    && (forall k | |my.records| <= k < |my'.records| :: my.visible < my'.records[k].gsn)
    && my.visible <= my'.visible && my.published <= my'.published <= |my'.records| && my'.written == my.written
  }

  lemma AdvanceKeeps(my: Worker, my': Worker, w: nat, d: nat)
    requires LogOk(my, w) && Advances(my, my')
    ensures Durable(my, d) ==> Durable(my', d)
    ensures GsnAt(my'.records, my.written) == GsnAt(my.records, my.written)
    ensures forall v | ReadOk(my, d, v) :: ReadOk(my', d, v)
    ensures forall v, c | ReadOk(my, d, v) && CopyOk(my, v, c) :: CopyOk(my', v, c)
  {
  }

  /** Only worker w changes. */
  ghost predicate OneMoves(s: Sys, s': Sys, w: nat) {
    && w < |s.workers| == |s'.workers|
    && (forall i | 0 <= i < |s.workers| && i != w :: s'.workers[i] == s.workers[i])
    && s'.phase == s.phase && s'.lastSeen == s.lastSeen && s'.durable == s.durable && s'.flushed == s.flushed
    && s'.committed == s.committed
  }

  ghost predicate Grows(s: Sys, s': Sys) {
    && |s.workers| == |s'.workers|
    && forall w | 0 <= w < |s.workers| :: s.workers[w].records <= s'.workers[w].records
  }

  lemma SeenStays(s: Sys, s': Sys, seen: set<Record>, gsn: nat, more: nat)
    requires Grows(s, s') && SeenOk(s, seen, gsn) && gsn <= more
    ensures SeenOk(s', seen, more)
  {
    forall r | r in seen
      ensures IsRecord(s', r) && r.gsn <= more
    {
      assert IsRecord(s, r);
      assert s.workers[r.log].records <= s'.workers[r.log].records;
    }
  }

  /** A worker's log, the round's copies and the watermark. */
  ghost predicate CoreOk(s: Sys) {
    && s.workers != [] && s.flushed <= s.durable
    && (forall w | 0 <= w < |s.workers| :: LogOk(s.workers[w], w) && Durable(s.workers[w], s.durable))
    && LastSeenOk(s) && RoundOk(s)
  }

  lemma CoreStays(s: Sys, s': Sys, w: nat)
    requires CoreOk(s) && OneMoves(s, s', w) && LogOk(s'.workers[w], w) && Advances(s.workers[w], s'.workers[w])
    ensures CoreOk(s')
  {
    AdvanceKeeps(s.workers[w], s'.workers[w], w, s.durable);
  }

  lemma QueueStays(s: Sys, s': Sys, w: nat)
    requires TxOk(s) && OneMoves(s, s', w) && Grows(s, s')
    requires SeenOk(s', s'.workers[w].seen, s'.workers[w].clock)
    requires forall i | 0 <= i < |s'.workers[w].queue| ::
             SeenOk(s', s'.workers[w].queue[i].seen, s'.workers[w].queue[i].maxGsn)
    ensures TxOk(s')
  {
    forall o | 0 <= o < |s.workers|
      ensures SeenOk(s', s'.workers[o].seen, s'.workers[o].clock)
    {
      if o != w {
        SeenStays(s, s', s.workers[o].seen, s.workers[o].clock, s.workers[o].clock);
      }
    }
    forall o, i | 0 <= o < |s.workers| && 0 <= i < |s'.workers[o].queue|
      ensures SeenOk(s', s'.workers[o].queue[i].seen, s'.workers[o].queue[i].maxGsn)
    {
      if o != w {
        SeenStays(s, s', s.workers[o].queue[i].seen, s.workers[o].queue[i].maxGsn, s.workers[o].queue[i].maxGsn);
      }
    }
    forall tx | tx in s.committed
      ensures SeenOk(s', tx.seen, tx.maxGsn)
    {
      SeenStays(s, s', tx.seen, tx.maxGsn, tx.maxGsn);
    }
  }

  lemma OldQueue(s: Sys, s': Sys, w: nat)
    requires TxOk(s) && OneMoves(s, s', w) && Grows(s, s') && s'.workers[w].queue == s.workers[w].queue
    ensures forall i | 0 <= i < |s'.workers[w].queue| ::
            SeenOk(s', s'.workers[w].queue[i].seen, s'.workers[w].queue[i].maxGsn)
  {
    forall i | 0 <= i < |s.workers[w].queue|
      ensures SeenOk(s', s.workers[w].queue[i].seen, s.workers[w].queue[i].maxGsn)
    {
      SeenStays(s, s', s.workers[w].queue[i].seen, s.workers[w].queue[i].maxGsn, s.workers[w].queue[i].maxGsn);
    }
  }

  /** Everything on a page is at most the page's GSN. */
  lemma PageRecordsSeen(s: Sys, page: nat)
    requires PagesOk(s) && (forall w | 0 <= w < |s.workers| :: LogOk(s.workers[w], w))
    ensures SeenOk(s, PageRecords(s, page), PageGsn(s, page))
  {
    forall r | r in PageRecords(s, page)
      ensures IsRecord(s, r) && r.gsn <= PageGsn(s, page)
    {
      var w, k :| 0 <= w < |s.workers| && 0 <= k < |s.workers[w].records| && s.workers[w].records[k].page == page
                  && s.workers[w].records[k] == r;
      assert LogOk(s.workers[w], w);
    }
  }

  ghost predicate StepTo(s: Sys, e: Event, s': Sys) {
    |s.lastSeen| == |s.workers| > 0 && Step(s, e) == Some(s')
  }

  predicate IsPlain(e: Event) {
    e.StartTx? || e.ReadPage? || e.Submit? || e.CommitTx?
  }

  /** The worker after a step that reserves nothing. */
  function PlainWorker(s: Sys, e: Event): (r: Worker)
    requires IsPlain(e) && e.w < |s.workers|
  {
    var my := s.workers[e.w];
    match e
    case StartTx(_, ts) => my.(clock := Max(my.clock, s.sync), running := true, startTs := ts, seen := {})
    case ReadPage(_, page) => my.(clock := Max(my.clock, PageGsn(s, page)), seen := my.seen + PageRecords(s, page))
    case Submit(_) => my.(open := false, visible := my.clock, published := |my.records|, lastGsn := my.logClock)
    case CommitTx(_) => my.(running := false, queue := my.queue + [Tx(my.clock, my.startTs, my.seen)],
      precommitted := my.startTs)
  }

  lemma PlainShape(s: Sys, e: Event, s': Sys)
    requires StepTo(s, e, s') && IsPlain(e)
    ensures OneMoves(s, s', e.w) && s'.pages == s.pages && s'.workers[e.w] == PlainWorker(s, e)
    ensures e.Submit? ==> s.workers[e.w].open
  {
  }

  lemma PlainLog(s: Sys, e: Event)
    requires IsPlain(e) && e.w < |s.workers| && LogOk(s.workers[e.w], e.w) && (e.Submit? ==> s.workers[e.w].open)
    ensures LogOk(PlainWorker(s, e), e.w) && Advances(s.workers[e.w], PlainWorker(s, e))
    ensures PlainWorker(s, e).records == s.workers[e.w].records
  {
  }

  lemma PlainGrows(s: Sys, e: Event, s': Sys)
    requires IsPlain(e) && OneMoves(s, s', e.w) && s'.workers[e.w] == PlainWorker(s, e) && s'.pages == s.pages
    requires PagesOk(s)
    ensures Grows(s, s') && PagesOk(s')
  {
    assert forall w | 0 <= w < |s.workers| :: s'.workers[w].records == s.workers[w].records;
  }

  lemma PlainSeen(s: Sys, e: Event, s': Sys)
    requires IsPlain(e) && OneMoves(s, s', e.w) && s'.workers[e.w] == PlainWorker(s, e) && Grows(s, s')
    requires TxOk(s) && PagesOk(s) && (forall w | 0 <= w < |s.workers| :: LogOk(s.workers[w], w))
    ensures TxOk(s')
  {
    var (w, my, my') := (e.w, s.workers[e.w], s'.workers[e.w]);
    SeenStays(s, s', my.seen, my.clock, my'.clock);
    if e.ReadPage? {
      PageRecordsSeen(s, e.page);
      SeenStays(s, s', PageRecords(s, e.page), PageGsn(s, e.page), my'.clock);
    }
    forall i | 0 <= i < |my.queue|
      ensures SeenOk(s', my.queue[i].seen, my.queue[i].maxGsn)
    {
      SeenStays(s, s', my.queue[i].seen, my.queue[i].maxGsn, my.queue[i].maxGsn);
    }
    QueueStays(s, s', w);
  }

  lemma PlainKeeps(s: Sys, e: Event, s': Sys)
    requires Inv(s) && StepTo(s, e, s') && IsPlain(e)
    ensures Inv(s')
  {
    PlainShape(s, e, s');
    PlainLog(s, e);
    PlainGrows(s, e, s');
    PlainSeen(s, e, s');
    CoreStays(s, s', e.w);
  }

  lemma ReserveShape(s: Sys, w: nat, page: nat, s': Sys)
    requires StepTo(s, Reserve(w, page), s')
    ensures OneMoves(s, s', w) && !s.workers[w].open
    ensures var (my, gsn) := (s.workers[w], NewGsn(s, w, page));
            var record := Record(w, |my.records|, gsn, page);
            && s'.pages == s.pages[page := gsn]
            && s'.workers[w] == my.(clock := gsn, logClock := gsn, records := my.records + [record], open := true,
                                    seen := my.seen + PageRecords(s, page) + {record})
  {
  }

  lemma ReservePages(s: Sys, w: nat, page: nat, s': Sys)
    requires PagesOk(s) && OneMoves(s, s', w) && s'.pages == s.pages[page := NewGsn(s, w, page)]
    requires s'.workers[w].records
             == s.workers[w].records + [Record(w, |s.workers[w].records|, NewGsn(s, w, page), page)]
    ensures PagesOk(s')
  {
    forall o, k | 0 <= o < |s'.workers| && 0 <= k < |s'.workers[o].records|
      ensures s'.workers[o].records[k].gsn <= PageGsn(s', s'.workers[o].records[k].page)
    {
      if k < |s.workers[o].records| {
        assert s'.workers[o].records[k] == s.workers[o].records[k];
      }
    }
  }

  lemma ReserveLog(my: Worker, my': Worker, w: nat, gsn: nat, record: Record)
    requires LogOk(my, w) && !my.open && my.clock < gsn && record.log == w && record.index == |my.records|
    requires record.gsn == gsn
    requires my'.clock == gsn && my'.logClock == gsn && my'.records == my.records + [record] && my'.open
    requires my'.visible == my.visible && my'.published == my.published && my'.lastGsn == my.lastGsn
    requires my'.written == my.written
    ensures LogOk(my', w) && Advances(my, my')
  {
  }

  lemma ReserveKeeps(s: Sys, w: nat, page: nat, s': Sys)
    requires Inv(s) && StepTo(s, Reserve(w, page), s')
    ensures Inv(s')
  {
    ReserveShape(s, w, page, s');
    var (my, my', gsn) := (s.workers[w], s'.workers[w], NewGsn(s, w, page));
    var record := Record(w, |my.records|, gsn, page);
    ReserveLog(my, my', w, gsn, record);
    CoreStays(s, s', w);
    ReservePages(s, w, page, s');
    OldQueue(s, s', w);
    PageRecordsSeen(s, page);
    SeenStays(s, s', my.seen, my.clock, gsn);
    SeenStays(s, s', PageRecords(s, page), PageGsn(s, page), gsn);
    assert IsRecord(s', record);
    QueueStays(s, s', w);
  }

  // ----- the group committer's round

  lemma GctReadWorkerRound(s: Sys, s': Sys)
    requires CoreOk(s) && StepTo(s, GctReadWorker, s')
    ensures CoreOk(s') && s'.workers == s.workers && s'.pages == s.pages && s'.committed == s.committed
    ensures s'.durable == s.durable
  {
    assert Durable(s.workers[|s.phase.visible|], s.durable);
  }

  lemma GctReadWorkerKeeps(s: Sys, s': Sys)
    requires Inv(s) && StepTo(s, GctReadWorker, s')
    ensures Inv(s')
  {
    GctReadWorkerRound(s, s');
    SameLogs(s, s');
  }

  lemma ReadLogShape(s: Sys, s': Sys)
    requires StepTo(s, GctReadLog, s')
    ensures s.phase.ReadLogs? && |s.phase.copies| < |s.workers|
    ensures var (p, it) := (s.phase, s.workers[|s.phase.copies|]);
            s' == s.(phase := ReadLogs(p.visible, p.hardened, p.copies + [Copy(it.lastGsn, it.published)]))
  {
  }

  /** A copy taken now covers its log: what comes later is above what the worker has made visible. */
  lemma CopyNow(my: Worker, w: nat, v: nat)
    requires LogOk(my, w) && v <= my.visible
    ensures CopyOk(my, v, Copy(my.lastGsn, my.published))
  {
  }

  lemma GctReadLogRound(s: Sys, s': Sys)
    requires CoreOk(s) && StepTo(s, GctReadLog, s')
    ensures CoreOk(s')
  {
    ReadLogShape(s, s');
    var i := |s.phase.copies|;
    assert LogOk(s.workers[i], i) && ReadOk(s.workers[i], s.durable, s.phase.visible[i]);
    CopyNow(s.workers[i], i, s.phase.visible[i]);
  }

  lemma GctReadLogKeeps(s: Sys, s': Sys)
    requires Inv(s) && StepTo(s, GctReadLog, s')
    ensures Inv(s')
  {
    ReadLogShape(s, s');
    GctReadLogRound(s, s');
    SameLogs(s, s');
  }

  /** A step that changes no log and no queue. */
  lemma SameLogs(s: Sys, s': Sys)
    requires TxOk(s) && PagesOk(s) && s'.workers == s.workers && s'.pages == s.pages
    requires s'.committed == s.committed && s'.durable == s.durable
    ensures TxOk(s') && PagesOk(s')
  {
    SeenSame(s, s');
  }

  lemma SeenSame(s: Sys, s': Sys)
    requires Grows(s, s')
    ensures forall x, g | SeenOk(s, x, g) :: SeenOk(s', x, g)
  {
    forall x, g | SeenOk(s, x, g)
      ensures SeenOk(s', x, g)
    {
      SeenStays(s, s', x, g, g);
    }
  }

  lemma GctIdleKeeps(s: Sys, e: Event, s': Sys)
    requires Inv(s) && StepTo(s, e, s') && (e.GctSkip? || e.GctStore?)
    ensures Inv(s')
  {
    SameLogs(s, s');
  }

  lemma CommitShape(s: Sys, s': Sys)
    requires StepTo(s, GctCommit, s')
    ensures s.phase.Committing? && s.phase.next < |s.workers|
    ensures var it := s.workers[s.phase.next];
            var n := Ready(it.queue, s.durable, s.phase.minHardened);
            && s' == s.(workers := s.workers[s.phase.next := it.(queue := it.queue[n..])],
                        committed := s.committed + (set i | 0 <= i < n :: it.queue[i]),
                        phase := Committing(s.phase.next + 1, s.phase.minHardened, s.phase.maxLogs))
  {
  }

  lemma GctCommitTx(s: Sys, s': Sys)
    requires TxOk(s) && StepTo(s, GctCommit, s')
    ensures TxOk(s')
  {
    CommitShape(s, s');
    SeenSame(s, s');
    var it := s.workers[s.phase.next];
    var n := Ready(it.queue, s.durable, s.phase.minHardened);
    forall o, i | 0 <= o < |s'.workers| && 0 <= i < |s'.workers[o].queue|
      ensures SeenOk(s', s'.workers[o].queue[i].seen, s'.workers[o].queue[i].maxGsn)
    {
      var k := if o == s.phase.next then i + n else i;
      assert s'.workers[o].queue[i] == s.workers[o].queue[k];
      assert SeenOk(s, s.workers[o].queue[k].seen, s.workers[o].queue[k].maxGsn);
    }
  }

  ghost predicate SameLog(my: Worker, my': Worker) {
    && my'.records == my.records && my'.open == my.open && my'.published == my.published && my'.lastGsn == my.lastGsn
    && my'.written == my.written && my'.clock == my.clock && my'.visible == my.visible && my'.logClock == my.logClock
  }

  lemma SameLogKeeps(s: Sys, s': Sys)
    requires CoreOk(s) && PagesOk(s) && |s'.workers| == |s.workers| && s'.pages == s.pages && s'.lastSeen == s.lastSeen
    requires s'.durable == s.durable && s'.flushed == s.flushed && s'.phase.Committing? && s'.phase.next <= |s.workers|
    requires forall w | 0 <= w < |s.workers| :: SameLog(s.workers[w], s'.workers[w])
    ensures CoreOk(s') && PagesOk(s')
  {
    forall w | 0 <= w < |s.workers|
      ensures LogOk(s'.workers[w], w) && Durable(s'.workers[w], s'.durable)
    {
      assert LogOk(s.workers[w], w) && Durable(s.workers[w], s.durable) && SameLog(s.workers[w], s'.workers[w]);
    }
  }

  lemma GctCommitCore(s: Sys, s': Sys)
    requires CoreOk(s) && PagesOk(s) && StepTo(s, GctCommit, s')
    ensures CoreOk(s') && PagesOk(s')
  {
    CommitShape(s, s');
    assert forall w | 0 <= w < |s.workers| :: SameLog(s.workers[w], s'.workers[w]);
    SameLogKeeps(s, s');
  }

  lemma GctCommitKeeps(s: Sys, s': Sys)
    requires Inv(s) && StepTo(s, GctCommit, s')
    ensures Inv(s')
  {
    GctCommitTx(s, s');
    GctCommitCore(s, s');
  }

  lemma FlushShape(s: Sys, s': Sys)
    requires StepTo(s, GctFlush, s')
    ensures s.phase.ReadLogs?
    ensures var (vs, copies, gsns) := (s.phase.visible, s.phase.copies, Gsns(s.phase.copies));
            && |vs| == |copies| == |s.workers| == |s'.workers|
            && Watermark(vs, gsns, s.lastSeen) == Some(s'.durable)
            && s'.lastSeen == gsns && s'.phase.Committing? && s'.phase.next == 0
            && s'.pages == s.pages && s'.committed == s.committed && s'.flushed == s.flushed
            && forall i | 0 <= i < |s.workers| ::
                 s'.workers[i] == if gsns[i] != s.lastSeen[i] then s.workers[i].(written := copies[i].index)
                   else s.workers[i]
  {
  }

  /** A log whose copy shows no new GSN has no new records in the copy. */
  lemma StragglerIsWritten(my: Worker, w: nat, v: nat, c: Copy)
    requires LogOk(my, w) && CopyOk(my, v, c) && c.gsn == GsnAt(my.records, my.written)
    ensures c.index == my.written
  {
  }

  /** After the write, one log is covered by the new watermark, which is at least the old one. */
  lemma FlushLog(my: Worker, w: nat, v: nat, c: Copy, seen: nat, d: nat, d': nat)
    requires LogOk(my, w) && Durable(my, d) && ReadOk(my, d, v) && CopyOk(my, v, c)
    requires seen == GsnAt(my.records, my.written)
    requires d' <= c.gsn || (c.gsn == seen && d' <= v)
    ensures var my' := if c.gsn != seen then my.(written := c.index) else my;
            && LogOk(my', w) && Durable(my', d') && c.gsn == GsnAt(my'.records, my'.written)
    ensures d <= v && (c.gsn != seen ==> d <= c.gsn)
  {
    if c.gsn == seen {
      StragglerIsWritten(my, w, v, c);
    }
  }

  ghost predicate LogFlushed(s': Sys, w: nat)
    requires w < |s'.workers| == |s'.lastSeen|
  {
    && LogOk(s'.workers[w], w) && Durable(s'.workers[w], s'.durable)
    && s'.lastSeen[w] == GsnAt(s'.workers[w].records, s'.workers[w].written)
  }

  lemma FlushLogs(s: Sys, s': Sys, vs: seq<nat>, copies: seq<Copy>, gsns: seq<nat>)
    requires CoreOk(s) && s.phase.ReadLogs? && vs == s.phase.visible && copies == s.phase.copies && gsns == Gsns(copies)
    requires |vs| == |copies| == |s.workers| == |s'.workers| && s'.lastSeen == gsns
    requires Watermark(vs, gsns, s.lastSeen) == Some(s'.durable)
    requires forall i | 0 <= i < |s.workers| ::
               s'.workers[i] == if gsns[i] != s.lastSeen[i] then s.workers[i].(written := copies[i].index)
                 else s.workers[i]
    ensures s.durable <= s'.durable
    ensures forall w | 0 <= w < |s.workers| :: LogFlushed(s', w)
  {
    WatermarkBounds(vs, gsns, s.lastSeen, s.durable);
    forall w | 0 <= w < |s.workers|
      ensures LogFlushed(s', w)
      ensures s.durable <= vs[w] && (gsns[w] != s.lastSeen[w] ==> s.durable <= gsns[w])
    {
      FlushLog(s.workers[w], w, vs[w], copies[w], s.lastSeen[w], s.durable, s'.durable);
    }
  }

  lemma FlushTx(s: Sys, s': Sys)
    requires TxOk(s) && PagesOk(s) && StepTo(s, GctFlush, s') && s.durable <= s'.durable
    ensures TxOk(s') && PagesOk(s')
  {
    FlushShape(s, s');
    SeenSame(s, s');
  }

  lemma FlushCore(s': Sys)
    requires s'.workers != [] && s'.flushed <= s'.durable && |s'.lastSeen| == |s'.workers|
    requires s'.phase.Committing? && s'.phase.next == 0
    requires forall w | 0 <= w < |s'.workers| :: LogFlushed(s', w)
    ensures CoreOk(s')
  {
    forall w | 0 <= w < |s'.workers|
      ensures LogOk(s'.workers[w], w) && Durable(s'.workers[w], s'.durable)
      ensures s'.workers[w].written <= |s'.workers[w].records|
      ensures s'.lastSeen[w] == GsnAt(s'.workers[w].records, s'.workers[w].written)
    {
      assert LogFlushed(s', w);
    }
  }

  lemma GctFlushCore(s: Sys, s': Sys)
    requires CoreOk(s) && StepTo(s, GctFlush, s')
    ensures CoreOk(s') && s.durable <= s'.durable
  {
    FlushShape(s, s');
    FlushLogs(s, s', s.phase.visible, s.phase.copies, Gsns(s.phase.copies));
    FlushCore(s');
  }

  lemma GctFlushKeeps(s: Sys, s': Sys)
    requires Inv(s) && StepTo(s, GctFlush, s')
    ensures Inv(s') && s.durable <= s'.durable
  {
    GctFlushCore(s, s');
    FlushTx(s, s');
  }

  /** The round's own checks hold: a log's published GSN never falls behind what the committer has seen of it. */
  lemma PublishedNeverBehind(s: Sys, w: nat)
    requires Inv(s) && w < |s.workers|
    ensures s.lastSeen[w] <= s.workers[w].lastGsn
    ensures s.lastSeen[w] == s.workers[w].lastGsn <==> s.workers[w].written == s.workers[w].published
  {
    assert LogOk(s.workers[w], w);
  }

  // ----- runs

  lemma StepKeeps(s: Sys, e: Event, s': Sys)
    requires Inv(s) && StepTo(s, e, s')
    ensures Inv(s') && s.durable <= s'.durable
  {
    match e
    case StartTx(w, ts) => PlainKeeps(s, e, s');
    case ReadPage(w, page) => PlainKeeps(s, e, s');
    case Reserve(w, page) => ReserveKeeps(s, w, page, s');
    case Submit(w) => PlainKeeps(s, e, s');
    case CommitTx(w) => PlainKeeps(s, e, s');
    case GctReadWorker => GctReadWorkerKeeps(s, s');
    case GctReadLog => GctReadLogKeeps(s, s');
    case GctFlush => GctFlushKeeps(s, s');
    case GctCommit => GctCommitKeeps(s, s');
    case GctSkip => GctIdleKeeps(s, e, s');
    case GctStore => GctIdleKeeps(s, e, s');
  }

  ghost predicate StepAt(states: seq<Sys>, events: seq<Event>, i: nat)
    requires |states| == |events| + 1 && i < |events|
  {
    StepTo(states[i], events[i], states[i + 1])
  }

  ghost predicate Run(n: nat, states: seq<Sys>, events: seq<Event>) {
    && n > 0 && |states| == |events| + 1 && states[0] == Init(n)
    && forall i | 0 <= i < |events| :: StepAt(states, events, i)
  }

  lemma {:induction false} RunKeeps(n: nat, states: seq<Sys>, events: seq<Event>, k: nat)
    requires Run(n, states, events) && k <= |events|
    ensures Inv(states[k])
  {
    if k > 0 {
      RunKeeps(n, states, events, k - 1);
      assert StepAt(states, events, k - 1);
      RunStepKeeps(states, events, k - 1);
    } else {
      InitKeeps(n);
    }
  }

  lemma InitKeeps(n: nat)
    requires n > 0
    ensures Inv(Init(n))
  {
  }

  lemma RunStepKeeps(states: seq<Sys>, events: seq<Event>, k: nat)
    requires |states| == |events| + 1 && k < |events| && StepAt(states, events, k) && Inv(states[k])
    ensures Inv(states[k + 1]) && states[k].durable <= states[k + 1].durable
  {
    StepKeeps(states[k], events[k], states[k + 1]);
  }

  lemma RunForward(n: nat, states: seq<Sys>, events: seq<Event>, k: nat)
    requires Run(n, states, events) && k < |events|
    ensures states[k].durable <= states[k + 1].durable
  {
    RunKeeps(n, states, events, k);
    assert StepAt(states, events, k);
    RunStepKeeps(states, events, k);
  }

  /** The watermark never decreases. */
  lemma {:induction false} WatermarkMonotone(n: nat, states: seq<Sys>, events: seq<Event>, i: nat, j: nat)
    requires Run(n, states, events) && i <= j <= |events|
    ensures states[i].durable <= states[j].durable
    decreases j - i
  {
    if i < j {
      WatermarkMonotone(n, states, events, i, j - 1);
      RunForward(n, states, events, j - 1);
    }
  }

  /** A record of worker w at or below the watermark is on the device, and none that comes later can be below it. */
  lemma BelowWatermarkIsWritten(n: nat, states: seq<Sys>, events: seq<Event>, i: nat, j: nat, r: Record)
    requires Run(n, states, events) && i <= j <= |events|
    requires IsRecord(states[j], r) && r.gsn <= states[i].durable
    ensures IsWritten(states[j], r)
  {
    RunKeeps(n, states, events, j);
    WatermarkMonotone(n, states, events, i, j);
    assert Durable(states[j].workers[r.log], states[j].durable);
  }

  /**
    A committed transaction: its own records, and all records of the pages it read, as it read them, are on the device.
   */
  lemma CommittedIsDurable(n: nat, states: seq<Sys>, events: seq<Event>, k: nat, tx: Tx, r: Record)
    requires Run(n, states, events) && k <= |events| && tx in states[k].committed
    requires r in tx.seen || (IsRecord(states[k], r) && r.gsn <= tx.maxGsn)
    ensures IsWritten(states[k], r)
  {
    RunKeeps(n, states, events, k);
    CommittedIsWritten(states[k], tx, r);
  }

  lemma CommittedIsWritten(s: Sys, tx: Tx, r: Record)
    requires Inv(s) && tx in s.committed && (r in tx.seen || (IsRecord(s, r) && r.gsn <= tx.maxGsn))
    ensures IsWritten(s, r)
  {
    assert SeenOk(s, tx.seen, tx.maxGsn);
    assert Durable(s.workers[r.log], s.durable);
  }

  /** The value other parts read, global_min_gsn_flushed, is never ahead of the watermark. */
  lemma FlushedIsDurable(n: nat, states: seq<Sys>, events: seq<Event>, k: nat, r: Record)
    requires Run(n, states, events) && k <= |events| && IsRecord(states[k], r) && r.gsn <= states[k].flushed
    ensures IsWritten(states[k], r)
  {
    RunKeeps(n, states, events, k);
    BelowWatermarkIsWritten(n, states, events, k, k, r);
  }
}
