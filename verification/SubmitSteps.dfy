/**
  Group commit with submit() in two steps: a worker publishes its GSN first and collects its filled holes after that.
  The watermark can then run ahead of a record; committed transactions are durable all the same.
 */
module SubmitSteps {
  import opened Wrappers
  import opened GroupCommit
  import GroupCommitProof

  /** Publish: publishGSN has run and the holes are not collected yet; Submit is then the rest of submit(). */
  datatype Move = Whole(event: Event) | Publish(w: nat)

  predicate OpenOn(my: Worker, page: nat) {
    my.open && my.records != [] && my.records[|my.records| - 1].page == page
  }

  /** Another worker holds the page's latch: it has a record on the page that is not submitted. */
  predicate Latched(s: Sys, w: nat, page: nat) {
    exists o :: 0 <= o < |s.workers| && o != w && OpenOn(s.workers[o], page)
  }

  /** Start timestamps of a worker increase, and a latched page waits. */
  predicate Allowed(s: Sys, e: Event) {
    match e
    case StartTx(w, ts) => w < |s.workers| && s.workers[w].startTs < ts
    case ReadPage(w, page) => !Latched(s, w, page)
    case Reserve(w, page) => !Latched(s, w, page)
    case _ => true
  }

  ghost predicate MoveTo(s: Sys, m: Move, s': Sys) {
    match m
    case Whole(e) => GroupCommitProof.StepTo(s, e, s') && Allowed(s, e)
    case Publish(w) =>
      && w < |s.workers| && s.workers[w].open && |s.lastSeen| == |s.workers|
      && s' == Put(s, w, s.workers[w].(visible := s.workers[w].clock))
  }

  // ----- the invariant

  ghost predicate Published(s: Sys, seen: set<Record>) {
    forall r | r in seen :: IsRecord(s, r) && r.index < s.workers[r.log].published
  }

  ghost predicate Written(s: Sys, seen: set<Record>) {
    forall r | r in seen :: IsWritten(s, r)
  }

  /** The committer has copied these records' logs behind them. */
  ghost predicate Copied(seen: set<Record>, copies: seq<Copy>) {
    forall r | r in seen && r.log < |copies| :: r.index < copies[r.log].index
  }

  /** Only the worker's own record can still be unpublished. */
  ghost predicate SeenBy(s: Sys, seen: set<Record>, w: nat) {
    forall r | r in seen :: IsRecord(s, r) && (r.log == w || r.index < s.workers[r.log].published)
  }

  ghost predicate WorkerOk(s: Sys, w: nat)
    requires w < |s.workers|
  {
    var my := s.workers[w];
    && LogShape(my, w) && SeenBy(s, my.seen, w)
    && my.precommitted <= my.startTs && (my.running ==> my.precommitted < my.startTs)
    && forall i | 0 <= i < |my.queue| :: my.queue[i].startTs <= my.precommitted && Published(s, my.queue[i].seen)
  }

  ghost predicate CopyShape(my: Worker, c: Copy) {
    my.written <= c.index <= my.published <= |my.records| && c.gsn == GsnAt(my.records, c.index)
  }

  /** Transactions hardened when the committer read their worker are behind the copies. */
  ghost predicate QueueCopied(my: Worker, hardened: nat, copies: seq<Copy>) {
    hardened <= my.precommitted && forall i | 0 <= i < |my.queue| && my.queue[i].startTs <= hardened ::
      Copied(my.queue[i].seen, copies)
  }

  ghost predicate QueueWritten(s: Sys, my: Worker, hardened: nat) {
    hardened <= my.precommitted && forall i | 0 <= i < |my.queue| && my.queue[i].startTs <= hardened ::
      Written(s, my.queue[i].seen)
  }

  ghost predicate PhaseOk(s: Sys) {
    match s.phase
    case ReadWorkers(vs, hs) =>
      |vs| == |hs| < |s.workers| && forall i | 0 <= i < |hs| :: hs[i] <= s.workers[i].precommitted
    case ReadLogs(vs, hs, copies) =>
      && |vs| == |hs| == |s.workers| && |copies| <= |s.workers|
      && (forall i | 0 <= i < |copies| :: CopyShape(s.workers[i], copies[i]))
      && (forall u | 0 <= u < |s.workers| :: QueueCopied(s.workers[u], hs[u], copies))
    case Committing(next, hardened, _) =>
      next <= |s.workers| && forall u | 0 <= u < |s.workers| :: QueueWritten(s, s.workers[u], hardened)
  }

  ghost predicate Inv(s: Sys) {
    && s.workers != [] && |s.lastSeen| == |s.workers| && PhaseOk(s)
    && (forall w | 0 <= w < |s.workers| :: WorkerOk(s, w))
    && (forall w | 0 <= w < |s.workers| ::
          s.workers[w].written <= |s.workers[w].records| &&
          s.lastSeen[w] == GsnAt(s.workers[w].records, s.workers[w].written))
    && (forall tx | tx in s.committed :: Written(s, tx.seen))
  }

  // ----- a worker that goes on

  /** Logs only grow, and so does what is published and written of them. */
  ghost predicate Onward(s: Sys, s': Sys) {
    && |s'.workers| == |s.workers|
    && forall w | 0 <= w < |s.workers| ::
         && s.workers[w].records <= s'.workers[w].records
         && s.workers[w].published <= s'.workers[w].published && s.workers[w].written <= s'.workers[w].written
  }

  lemma SeenOnward(s: Sys, s': Sys, seen: set<Record>, w: nat)
    requires Onward(s, s')
    ensures Published(s, seen) ==> Published(s', seen)
    ensures Written(s, seen) ==> Written(s', seen)
    ensures SeenBy(s, seen, w) ==> SeenBy(s', seen, w)
  {
    forall r | r in seen && IsRecord(s, r)
      ensures IsRecord(s', r)
    {
      assert s.workers[r.log].records <= s'.workers[r.log].records;
    }
  }

  /** What one worker may do while the committer is at work: new transactions are younger than its hardened ones. */
  ghost predicate Goes(my: Worker, my': Worker) {
    && my.records <= my'.records && my.published <= my'.published && my'.written == my.written
    && my.precommitted <= my'.precommitted && my.queue <= my'.queue
    && forall i | |my.queue| <= i < |my'.queue| :: my.precommitted < my'.queue[i].startTs
  }

  lemma GoesOnward(s: Sys, s': Sys, w: nat)
    requires GroupCommitProof.OneMoves(s, s', w) && Goes(s.workers[w], s'.workers[w])
    ensures Onward(s, s')
  {
  }

  lemma GoesCopied(my: Worker, my': Worker, hardened: nat, copies: seq<Copy>)
    requires QueueCopied(my, hardened, copies) && Goes(my, my')
    ensures QueueCopied(my', hardened, copies)
  {
    forall i | 0 <= i < |my'.queue| && my'.queue[i].startTs <= hardened
      ensures Copied(my'.queue[i].seen, copies)
    {
      assert i < |my.queue| ==> my.queue[i] == my'.queue[i];
    }
  }

  lemma GoesWritten(s: Sys, s': Sys, my: Worker, my': Worker, hardened: nat)
    requires QueueWritten(s, my, hardened) && Goes(my, my') && Onward(s, s')
    ensures QueueWritten(s', my', hardened)
  {
    forall i | 0 <= i < |my'.queue| && my'.queue[i].startTs <= hardened
      ensures Written(s', my'.queue[i].seen)
    {
      assert i < |my.queue| ==> my.queue[i] == my'.queue[i];
      SeenOnward(s, s', my'.queue[i].seen, 0);
    }
  }

  lemma GoesCopy(my: Worker, my': Worker, c: Copy, w: nat)
    requires CopyShape(my, c) && Goes(my, my') && LogShape(my', w)
    ensures CopyShape(my', c)
  {
  }

  lemma GoesPhase(s: Sys, s': Sys, w: nat)
    requires PhaseOk(s) && GroupCommitProof.OneMoves(s, s', w) && Goes(s.workers[w], s'.workers[w])
    requires LogShape(s'.workers[w], w)
    ensures PhaseOk(s')
  {
    GoesOnward(s, s', w);
    forall u | 0 <= u < |s.workers|
      ensures s.phase.ReadLogs? && |s.phase.hardened| == |s.workers| ==>
              QueueCopied(s'.workers[u], s.phase.hardened[u], s.phase.copies)
      ensures s.phase.ReadLogs? && u < |s.phase.copies| ==> CopyShape(s'.workers[u], s.phase.copies[u])
      ensures s.phase.Committing? ==> QueueWritten(s', s'.workers[u], s.phase.minHardened)
    {
      assert Goes(s.workers[u], s'.workers[u]);
      if s.phase.ReadLogs? {
        GoesCopied(s.workers[u], s'.workers[u], s.phase.hardened[u], s.phase.copies);
        if u == w && u < |s.phase.copies| {
          GoesCopy(s.workers[u], s'.workers[u], s.phase.copies[u], w);
        }
      } else if s.phase.Committing? {
        GoesWritten(s, s', s.workers[u], s'.workers[u], s.phase.minHardened);
      }
    }
  }

  lemma OthersStay(s: Sys, s': Sys, w: nat, o: nat)
    requires Onward(s, s') && o < |s.workers| && WorkerOk(s, o) && s'.workers[o] == s.workers[o]
    ensures WorkerOk(s', o)
  {
    var my := s.workers[o];
    SeenOnward(s, s', my.seen, o);
    forall i | 0 <= i < |my.queue|
      ensures Published(s', my.queue[i].seen)
    {
      SeenOnward(s, s', my.queue[i].seen, o);
    }
  }

  lemma OneMovesKeeps(s: Sys, s': Sys, w: nat)
    requires Inv(s) && GroupCommitProof.OneMoves(s, s', w) && Goes(s.workers[w], s'.workers[w]) && WorkerOk(s', w)
    ensures Inv(s')
  {
    GoesOnward(s, s', w);
    GoesPhase(s, s', w);
    forall o | 0 <= o < |s.workers|
      ensures WorkerOk(s', o)
    {
      if o != w {
        OthersStay(s, s', w, o);
      }
    }
    forall tx | tx in s'.committed
      ensures Written(s', tx.seen)
    {
      SeenOnward(s, s', tx.seen, 0);
    }
  }

  // ----- the worker's moves

  /** The records of a page that no other worker has latched are published, or the reader's own. */
  lemma PageSeen(s: Sys, w: nat, page: nat)
    requires (forall o | 0 <= o < |s.workers| :: LogShape(s.workers[o], o)) && !Latched(s, w, page)
    ensures SeenBy(s, PageRecords(s, page), w)
  {
    forall r | r in PageRecords(s, page)
      ensures IsRecord(s, r) && (r.log == w || r.index < s.workers[r.log].published)
    {
      var o, k :| 0 <= o < |s.workers| && 0 <= k < |s.workers[o].records| && s.workers[o].records[k] == r
        && r.page == page;
      if s.workers[o].published <= k {
        LastIsOpen(s.workers[o], o, k);
      }
    }
  }

  lemma LastIsOpen(my: Worker, w: nat, k: nat)
    requires LogShape(my, w) && my.published <= k < |my.records|
    ensures OpenOn(my, my.records[k].page)
  {
  }

  lemma PageJoins(s: Sys, s': Sys, w: nat, page: nat)
    requires Inv(s) && w < |s.workers| && Onward(s, s') && !Latched(s, w, page)
    ensures SeenBy(s', s.workers[w].seen + PageRecords(s, page), w)
  {
    assert WorkerOk(s, w);
    Shapes(s);
    PageSeen(s, w, page);
    SeenOnward(s, s', s.workers[w].seen + PageRecords(s, page), w);
  }

  lemma WorkerFacts(s: Sys, w: nat)
    requires Inv(s) && w < |s.workers|
    ensures LogShape(s.workers[w], w) && SeenBy(s, s.workers[w].seen, w)
    ensures s.workers[w].precommitted <= s.workers[w].startTs
    ensures s.workers[w].running ==> s.workers[w].precommitted < s.workers[w].startTs
  {
    assert WorkerOk(s, w);
  }

  lemma Shapes(s: Sys)
    requires Inv(s)
    ensures forall o | 0 <= o < |s.workers| :: LogShape(s.workers[o], o)
  {
    forall o | 0 <= o < |s.workers|
      ensures LogShape(s.workers[o], o)
    {
      assert WorkerOk(s, o);
    }
  }

  /** The worker's log and its queue stay as they are. */
  lemma SameQueueKeeps(s: Sys, s': Sys, w: nat)
    requires Inv(s) && GroupCommitProof.OneMoves(s, s', w) && Goes(s.workers[w], s'.workers[w])
    requires LogShape(s'.workers[w], w) && SeenBy(s', s'.workers[w].seen, w)
    requires var (my, my') := (s.workers[w], s'.workers[w]);
             && my'.queue == my.queue && my'.precommitted == my.precommitted
             && my.startTs <= my'.startTs && (my'.running ==> my.precommitted < my'.startTs)
    ensures Inv(s')
  {
    assert WorkerOk(s, w);
    GoesOnward(s, s', w);
    forall i | 0 <= i < |s.workers[w].queue|
      ensures Published(s', s.workers[w].queue[i].seen)
    {
      SeenOnward(s, s', s.workers[w].queue[i].seen, w);
    }
    OneMovesKeeps(s, s', w);
  }

  lemma StartKeeps(s: Sys, w: nat, ts: nat, s': Sys)
    requires Inv(s) && GroupCommitProof.StepTo(s, StartTx(w, ts), s') && Allowed(s, StartTx(w, ts))
    ensures Inv(s')
  {
    GroupCommitProof.PlainShape(s, StartTx(w, ts), s');
    WorkerFacts(s, w);
    SameQueueKeeps(s, s', w);
  }

  lemma ReadKeeps(s: Sys, w: nat, page: nat, s': Sys)
    requires Inv(s) && GroupCommitProof.StepTo(s, ReadPage(w, page), s') && !Latched(s, w, page)
    ensures Inv(s')
  {
    GroupCommitProof.PlainShape(s, ReadPage(w, page), s');
    ReadRuns(s, w, page, s');
    WorkerFacts(s, w);
    GoesOnward(s, s', w);
    PageJoins(s, s', w, page);
    SameQueueKeeps(s, s', w);
  }

  lemma ReadRuns(s: Sys, w: nat, page: nat, s': Sys)
    requires GroupCommitProof.StepTo(s, ReadPage(w, page), s')
    ensures w < |s.workers| && s.workers[w].running
  {
  }

  lemma PublishKeeps(s: Sys, w: nat, s': Sys)
    requires Inv(s) && MoveTo(s, Publish(w), s')
    ensures Inv(s')
  {
    WorkerFacts(s, w);
    GoesOnward(s, s', w);
    SeenOnward(s, s', s.workers[w].seen, w);
    SameQueueKeeps(s, s', w);
  }

  lemma SubmitKeeps(s: Sys, w: nat, s': Sys)
    requires Inv(s) && GroupCommitProof.StepTo(s, Submit(w), s')
    ensures Inv(s')
  {
    GroupCommitProof.PlainShape(s, Submit(w), s');
    WorkerFacts(s, w);
    SubmitLog(s.workers[w], s'.workers[w], w);
    GoesOnward(s, s', w);
    SeenOnward(s, s', s.workers[w].seen, w);
    SameQueueKeeps(s, s', w);
  }

  lemma SubmitLog(my: Worker, my': Worker, w: nat)
    requires LogShape(my, w) && my.open
    requires my' == my.(open := false, visible := my.clock, published := |my.records|, lastGsn := my.logClock)
    ensures LogShape(my', w) && Goes(my, my')
  {
  }

  lemma ReserveKeeps(s: Sys, w: nat, page: nat, s': Sys)
    requires Inv(s) && GroupCommitProof.StepTo(s, Reserve(w, page), s') && !Latched(s, w, page)
    ensures Inv(s')
  {
    GroupCommitProof.ReserveShape(s, w, page, s');
    var (my, my', gsn) := (s.workers[w], s'.workers[w], NewGsn(s, w, page));
    WorkerFacts(s, w);
    ReserveRuns(s, w, page, s');
    var record := Record(w, |my.records|, gsn, page);
    ReserveLog(my, my', w, record);
    GoesOnward(s, s', w);
    PageJoins(s, s', w, page);
    assert IsRecord(s', record);
    OneMore(s', my.seen + PageRecords(s, page), record, w);
    SameQueueKeeps(s, s', w);
  }

  lemma OneMore(s: Sys, seen: set<Record>, r: Record, w: nat)
    requires SeenBy(s, seen, w) && IsRecord(s, r) && r.log == w
    ensures SeenBy(s, seen + {r}, w)
  {
  }

  lemma ReserveRuns(s: Sys, w: nat, page: nat, s': Sys)
    requires GroupCommitProof.StepTo(s, Reserve(w, page), s')
    ensures w < |s.workers| && s.workers[w].running && s.workers[w].logClock < NewGsn(s, w, page)
  {
  }

  lemma ReserveLog(my: Worker, my': Worker, w: nat, record: Record)
    requires LogShape(my, w) && !my.open && record.log == w && record.index == |my.records| && my.logClock < record.gsn
    requires my'.logClock == record.gsn && my'.records == my.records + [record] && my'.open
    requires my'.published == my.published && my'.lastGsn == my.lastGsn && my'.written == my.written
    requires my'.precommitted == my.precommitted && my'.queue == my.queue
    ensures LogShape(my', w) && Goes(my, my')
  {
  }

  lemma CommitShape(s: Sys, w: nat, s': Sys)
    requires GroupCommitProof.StepTo(s, CommitTx(w), s')
    ensures w < |s.workers| && s.workers[w].running && !s.workers[w].open
  {
  }

  lemma CommitKeeps(s: Sys, w: nat, s': Sys)
    requires Inv(s) && GroupCommitProof.StepTo(s, CommitTx(w), s')
    ensures Inv(s')
  {
    GroupCommitProof.PlainShape(s, CommitTx(w), s');
    CommitShape(s, w, s');
    assert WorkerOk(s, w);
    CommitGoes(s, w, s');
    OneMovesKeeps(s, s', w);
  }

  lemma CommitGoes(s: Sys, w: nat, s': Sys)
    requires GroupCommitProof.OneMoves(s, s', w) && WorkerOk(s, w) && s.workers[w].running && !s.workers[w].open
    requires s'.workers[w] == GroupCommitProof.PlainWorker(s, CommitTx(w))
    ensures Goes(s.workers[w], s'.workers[w]) && WorkerOk(s', w)
  {
    var (my, my') := (s.workers[w], s'.workers[w]);
    GoesOnward(s, s', w);
    SeenOnward(s, s', my.seen, w);
    forall i | 0 <= i < |my'.queue|
      ensures my'.queue[i].startTs <= my'.precommitted && Published(s', my'.queue[i].seen)
    {
      if i < |my.queue| {
        assert my'.queue[i] == my.queue[i];
        SeenOnward(s, s', my.queue[i].seen, w);
      }
    }
  }

  // ----- the committer's moves

  /** The committer's phase is all that changes. */
  lemma PhaseMoves(s: Sys, s': Sys)
    requires Inv(s) && s'.workers == s.workers && s'.lastSeen == s.lastSeen && s'.committed == s.committed
    requires PhaseOk(s')
    ensures Inv(s')
  {
    forall w | 0 <= w < |s.workers|
      ensures WorkerOk(s', w)
    {
      assert WorkerOk(s, w);
      OthersStay(s, s', w, w);
    }
    forall tx | tx in s'.committed
      ensures Written(s', tx.seen)
    {
      SeenOnward(s, s', tx.seen, 0);
    }
  }

  lemma ReadWorkerKeeps(s: Sys, s': Sys)
    requires Inv(s) && GroupCommitProof.StepTo(s, GctReadWorker, s')
    ensures Inv(s')
  {
    ReadWorkerPhase(s, s');
    PhaseMoves(s, s');
  }

  lemma ReadWorkerPhase(s: Sys, s': Sys)
    requires PhaseOk(s) && GroupCommitProof.StepTo(s, GctReadWorker, s')
    ensures s'.workers == s.workers && s'.lastSeen == s.lastSeen && s'.committed == s.committed && PhaseOk(s')
  {
    var i := |s.phase.hardened|;
    var (vs, hs) := (s.phase.visible + [s.workers[i].visible], s.phase.hardened + [s.workers[i].precommitted]);
    forall k | 0 <= k < |hs|
      ensures hs[k] <= s.workers[k].precommitted
    {
      assert k < i ==> hs[k] == s.phase.hardened[k];
    }
  }

  /** Everything in a queue is published, so a copy taken now is behind it. */
  lemma CopyBehind(s: Sys, seen: set<Record>, copies: seq<Copy>, i: nat, c: Copy)
    requires Published(s, seen) && Copied(seen, copies) && i == |copies| < |s.workers|
    requires c.index == s.workers[i].published
    ensures Copied(seen, copies + [c])
  {
  }

  lemma ReadLogKeeps(s: Sys, s': Sys)
    requires Inv(s) && GroupCommitProof.StepTo(s, GctReadLog, s')
    ensures Inv(s')
  {
    ReadLogPhase(s, s');
    PhaseMoves(s, s');
  }

  lemma ReadLogShape(s: Sys, s': Sys)
    requires GroupCommitProof.StepTo(s, GctReadLog, s')
    ensures s.phase.ReadLogs? && |s.phase.copies| < |s.workers|
    ensures s' == s.(phase := ReadLogs(s.phase.visible, s.phase.hardened, s.phase.copies +
              [Copy(s.workers[|s.phase.copies|].lastGsn, s.workers[|s.phase.copies|].published)]))
  {
  }

  lemma ReadLogPhase(s: Sys, s': Sys)
    requires Inv(s) && GroupCommitProof.StepTo(s, GctReadLog, s')
    ensures s'.workers == s.workers && s'.lastSeen == s.lastSeen && s'.committed == s.committed && PhaseOk(s')
  {
    ReadLogShape(s, s');
    var i := |s.phase.copies|;
    var c := Copy(s.workers[i].lastGsn, s.workers[i].published);
    WorkerFacts(s, i);
    forall u | 0 <= u < |s.workers|
      ensures QueueCopied(s.workers[u], s.phase.hardened[u], s.phase.copies + [c])
    {
      assert QueueCopied(s.workers[u], s.phase.hardened[u], s.phase.copies) && WorkerOk(s, u);
      forall q | 0 <= q < |s.workers[u].queue| && s.workers[u].queue[q].startTs <= s.phase.hardened[u]
        ensures Copied(s.workers[u].queue[q].seen, s.phase.copies + [c])
      {
        CopyBehind(s, s.workers[u].queue[q].seen, s.phase.copies, i, c);
      }
    }
  }

  lemma IdleKeeps(s: Sys, e: Event, s': Sys)
    requires Inv(s) && GroupCommitProof.StepTo(s, e, s') && (e.GctSkip? || e.GctStore?)
    ensures Inv(s')
  {
    PhaseMoves(s, s');
  }

  /** A copy with the GSN seen last has nothing new. */
  lemma SameGsnSameIndex(my: Worker, w: nat, c: Copy)
    requires LogShape(my, w) && CopyShape(my, c) && c.gsn == GsnAt(my.records, my.written)
    ensures c.index == my.written
  {
  }

  lemma FlushShape(s: Sys, s': Sys)
    requires Inv(s) && GroupCommitProof.StepTo(s, GctFlush, s')
    ensures s.phase.ReadLogs? && |s.phase.copies| == |s.workers| == |s'.workers| && s'.lastSeen == Gsns(s.phase.copies)
    ensures s'.phase.Committing? && s'.phase.next == 0 && s'.phase.minHardened == MinAll(s.phase.hardened)
    ensures s'.committed == s.committed
    ensures forall i | 0 <= i < |s.workers| :: s'.workers[i] == s.workers[i].(written := s.phase.copies[i].index)
  {
    GroupCommitProof.FlushShape(s, s');
    FlushHardened(s, s');
    forall i | 0 <= i < |s.workers|
      ensures s'.workers[i] == s.workers[i].(written := s.phase.copies[i].index)
    {
      WorkerFacts(s, i);
      if s.phase.copies[i].gsn == s.lastSeen[i] {
        SameGsnSameIndex(s.workers[i], i, s.phase.copies[i]);
      }
    }
  }

  lemma FlushHardened(s: Sys, s': Sys)
    requires GroupCommitProof.StepTo(s, GctFlush, s')
    ensures s.phase.ReadLogs? && |s.phase.hardened| == |s.workers| > 0 && s'.phase.Committing?
    ensures s'.phase.minHardened == MinAll(s.phase.hardened)
  {
  }

  lemma CopiedIsWritten(s: Sys, s': Sys, seen: set<Record>, copies: seq<Copy>)
    requires Published(s, seen) && Copied(seen, copies) && Onward(s, s') && |copies| == |s.workers|
    requires forall i | 0 <= i < |s'.workers| :: s'.workers[i].written == copies[i].index
    ensures Written(s', seen)
  {
    SeenOnward(s, s', seen, 0);
  }

  lemma FlushKeeps(s: Sys, s': Sys)
    requires Inv(s) && GroupCommitProof.StepTo(s, GctFlush, s')
    ensures Inv(s')
  {
    FlushShape(s, s');
    var copies := s.phase.copies;
    assert forall i | 0 <= i < |copies| :: CopyShape(s.workers[i], copies[i]);
    assert Onward(s, s');
    forall u | 0 <= u < |s.workers|
      ensures WorkerOk(s', u) && QueueWritten(s', s'.workers[u], s'.phase.minHardened)
    {
      FlushWorker(s, s', u);
    }
    forall tx | tx in s'.committed
      ensures Written(s', tx.seen)
    {
      SeenOnward(s, s', tx.seen, 0);
    }
  }

  lemma FlushWorker(s: Sys, s': Sys, u: nat)
    requires s.phase.ReadLogs? && |s.phase.copies| == |s.workers| == |s.phase.hardened| && u < |s.workers|
    requires Onward(s, s')
    requires WorkerOk(s, u) && CopyShape(s.workers[u], s.phase.copies[u])
    requires QueueCopied(s.workers[u], s.phase.hardened[u], s.phase.copies)
    requires forall i | 0 <= i < |s.workers| :: s'.workers[i] == s.workers[i].(written := s.phase.copies[i].index)
    requires s'.phase.Committing? && s'.phase.minHardened == MinAll(s.phase.hardened)
    ensures WorkerOk(s', u) && QueueWritten(s', s'.workers[u], s'.phase.minHardened)
  {
    var my := s.workers[u];
    SeenOnward(s, s', my.seen, u);
    forall q | 0 <= q < |my.queue|
      ensures Published(s', my.queue[q].seen)
      ensures my.queue[q].startTs <= s'.phase.minHardened ==> Written(s', my.queue[q].seen)
    {
      SeenOnward(s, s', my.queue[q].seen, u);
      if my.queue[q].startTs <= s'.phase.minHardened {
        CopiedIsWritten(s, s', my.queue[q].seen, s.phase.copies);
      }
    }
  }

  lemma GctCommitShape(s: Sys, s': Sys)
    requires GroupCommitProof.StepTo(s, GctCommit, s')
    ensures s.phase.Committing? && s.phase.next < |s.workers|
    ensures var (u, h) := (s.phase.next, s.phase.minHardened);
      var it := s.workers[u];
      var n := Ready(it.queue, s.durable, h);
      && s' == Put(s, u, it.(queue := it.queue[n..]))
               .(committed := s.committed + (set i | 0 <= i < n :: it.queue[i]),
                 phase := Committing(u + 1, h, s.phase.maxLogs))
  {
  }

  lemma GctCommitKeeps(s: Sys, s': Sys)
    requires Inv(s) && GroupCommitProof.StepTo(s, GctCommit, s')
    ensures Inv(s')
  {
    GctCommitShape(s, s');
    var (u, h) := (s.phase.next, s.phase.minHardened);
    forall o | 0 <= o < |s.workers|
      ensures WorkerOk(s', o) && QueueWritten(s', s'.workers[o], h)
    {
      assert WorkerOk(s, o) && QueueWritten(s, s.workers[o], h);
      ShorterQueue(s, s', o, h, if o == u then Ready(s.workers[o].queue, s.durable, h) else 0);
    }
    forall tx | tx in s'.committed
      ensures Written(s', tx.seen)
    {
      assert QueueWritten(s, s.workers[u], h);
      SeenOnward(s, s', tx.seen, 0);
    }
  }

  lemma ShorterQueue(s: Sys, s': Sys, o: nat, h: nat, n: nat)
    requires Onward(s, s') && o < |s.workers| && WorkerOk(s, o) && QueueWritten(s, s.workers[o], h)
    requires n <= |s.workers[o].queue| && s'.workers[o] == s.workers[o].(queue := s.workers[o].queue[n..])
    ensures WorkerOk(s', o) && QueueWritten(s', s'.workers[o], h)
  {
    var (my, my') := (s.workers[o], s'.workers[o]);
    SeenOnward(s, s', my.seen, o);
    forall q | 0 <= q < |my'.queue|
      ensures my'.queue[q].startTs <= my.precommitted && Published(s', my'.queue[q].seen)
      ensures my'.queue[q].startTs <= h ==> Written(s', my'.queue[q].seen)
    {
      assert my'.queue[q] == my.queue[n + q];
      SeenOnward(s, s', my.queue[n + q].seen, o);
    }
  }

  /** Every move keeps the invariant, also between the two steps of submit(). */
  lemma MoveKeeps(s: Sys, m: Move, s': Sys)
    requires Inv(s) && MoveTo(s, m, s')
    ensures Inv(s')
  {
    match m
    case Publish(w) => PublishKeeps(s, w, s');
    case Whole(e) =>
      match e
      case StartTx(w, ts) => StartKeeps(s, w, ts, s');
      case ReadPage(w, page) => ReadKeeps(s, w, page, s');
      case Reserve(w, page) => ReserveKeeps(s, w, page, s');
      case Submit(w) => SubmitKeeps(s, w, s');
      case CommitTx(w) => CommitKeeps(s, w, s');
      case GctReadWorker => ReadWorkerKeeps(s, s');
      case GctReadLog => ReadLogKeeps(s, s');
      case GctFlush => FlushKeeps(s, s');
      case GctCommit => GctCommitKeeps(s, s');
      case GctSkip => IdleKeeps(s, e, s');
      case GctStore => IdleKeeps(s, e, s');
  }

  // ----- runs

  ghost predicate MoveAt(states: seq<Sys>, moves: seq<Move>, i: nat)
    requires |states| == |moves| + 1 && i < |moves|
  {
    MoveTo(states[i], moves[i], states[i + 1])
  }

  /** Runs of n workers; unless split, submit() is one step. */
  ghost predicate Run(n: nat, split: bool, states: seq<Sys>, moves: seq<Move>) {
    && n > 0 && |states| == |moves| + 1 && states[0] == Init(n)
    && (forall i | 0 <= i < |moves| :: MoveAt(states, moves, i))
    && (split || forall i | 0 <= i < |moves| :: moves[i].Whole?)
  }

  lemma InitInv(n: nat)
    requires n > 0
    ensures Inv(Init(n))
  {
    var s := Init(n);
    forall w | 0 <= w < n
      ensures WorkerOk(s, w)
    {
      assert s.workers[w] == InitWorker();
    }
  }

  lemma {:induction false} RunKeeps(n: nat, split: bool, states: seq<Sys>, moves: seq<Move>, k: nat)
    requires Run(n, split, states, moves) && k <= |moves|
    ensures Inv(states[k])
  {
    if k == 0 {
      InitInv(n);
    } else {
      RunKeeps(n, split, states, moves, k - 1);
      assert MoveAt(states, moves, k - 1);
      MoveKeeps(states[k - 1], moves[k - 1], states[k]);
    }
  }

  /**
    A committed transaction: its own records, and all records of the pages it read, are on the device, although the
    watermark may be ahead of other records.
   */
  lemma CommittedIsDurable(n: nat, split: bool, states: seq<Sys>, moves: seq<Move>, k: nat, tx: Tx, r: Record)
    requires Run(n, split, states, moves) && k <= |moves| && tx in states[k].committed && r in tx.seen
    ensures IsWritten(states[k], r)
  {
    RunKeeps(n, split, states, moves, k);
    assert Written(states[k], tx.seen);
  }

  // ----- what a transaction has seen

  /** A transaction of w runs from move i to move j: it starts no other one. */
  ghost predicate SameTx(moves: seq<Move>, w: nat, i: nat, j: nat) {
    i <= j <= |moves| && forall m, ts | i <= m < j :: moves[m] != Whole(StartTx(w, ts))
  }

  lemma SeenGrows(s: Sys, m: Move, s': Sys, w: nat)
    requires MoveTo(s, m, s') && w < |s.workers| && forall ts :: m != Whole(StartTx(w, ts))
    ensures w < |s'.workers| && s.workers[w].seen <= s'.workers[w].seen
  {
    match m
    case Publish(_) =>
    case Whole(e) =>
      match e
      case GctFlush => GroupCommitProof.FlushShape(s, s');
      case _ =>
  }

  lemma {:induction false} SeenKept(n: nat, split: bool, states: seq<Sys>, moves: seq<Move>, w: nat, i: nat, j: nat)
    requires Run(n, split, states, moves) && SameTx(moves, w, i, j) && w < |states[i].workers|
    ensures w < |states[j].workers| && states[i].workers[w].seen <= states[j].workers[w].seen
    decreases j
  {
    if i < j {
      SeenKept(n, split, states, moves, w, i, j - 1);
      assert MoveAt(states, moves, j - 1);
      SeenGrows(states[j - 1], moves[j - 1], states[j], w);
    }
  }

  /**
    The transaction that w precommits with move j has seen every record that was on a page when it read the page or
    wrote to it, and its own record.
   */
  lemma SeesWhatItReads(n: nat, split: bool, states: seq<Sys>, moves: seq<Move>, w: nat, i: nat, j: nat, page: nat,
                        r: Record)
    requires Run(n, split, states, moves) && i < j < |moves| && SameTx(moves, w, i, j) && moves[j] == Whole(CommitTx(w))
    requires moves[i] == Whole(ReadPage(w, page)) || moves[i] == Whole(Reserve(w, page))
    requires r.page == page
    requires IsRecord(states[i], r) || (moves[i] == Whole(Reserve(w, page)) && r.log == w && IsRecord(states[i + 1], r))
    ensures w < |states[j + 1].workers| && states[j + 1].workers[w].queue != []
    ensures var queue := states[j + 1].workers[w].queue; r in queue[|queue| - 1].seen
  {
    assert MoveAt(states, moves, i) && MoveAt(states, moves, j);
    SeenAtOnce(states[i], moves[i].event, states[i + 1], w, page, r);
    SeenKept(n, split, states, moves, w, i + 1, j);
    GroupCommitProof.PlainShape(states[j], CommitTx(w), states[j + 1]);
  }

  lemma SeenAtOnce(s: Sys, e: Event, s': Sys, w: nat, page: nat, r: Record)
    requires GroupCommitProof.StepTo(s, e, s') && (e == ReadPage(w, page) || e == Reserve(w, page)) && r.page == page
    requires IsRecord(s, r) || (e.Reserve? && r.log == w && IsRecord(s', r))
    ensures w < |s'.workers| && r in s'.workers[w].seen
  {
    if IsRecord(s, r) {
      assert r in PageRecords(s, page);
    }
  }

  // ----- the watermark

  ghost predicate Sound(s: Sys) {
    forall r | IsRecord(s, r) && r.gsn <= s.durable :: IsWritten(s, r)
  }

  /** In all runs every record up to the watermark is on the device. */
  ghost predicate WatermarkHolds(n: nat, split: bool) {
    forall states: seq<Sys>, moves: seq<Move>, k: nat | Run(n, split, states, moves) && k <= |moves| :: Sound(states[k])
  }

  lemma WholeHolds(n: nat, states: seq<Sys>, moves: seq<Move>, k: nat)
    requires Run(n, false, states, moves) && k <= |moves|
    ensures Sound(states[k])
  {
    var events := seq(|moves|, i requires 0 <= i < |moves| => moves[i].event);
    forall i | 0 <= i < |events|
      ensures GroupCommitProof.StepAt(states, events, i)
    {
      assert MoveAt(states, moves, i);
    }
    forall r | IsRecord(states[k], r) && r.gsn <= states[k].durable
      ensures IsWritten(states[k], r)
    {
      GroupCommitProof.BelowWatermarkIsWritten(n, states, events, k, k, r);
    }
  }

  /** With one log the watermark is the GSN of the last written record. */
  ghost predicate Alone(s: Sys) {
    && |s.workers| == 1 && s.workers[0].written <= |s.workers[0].records|
    && s.durable <= GsnAt(s.workers[0].records, s.workers[0].written)
  }

  lemma NoFlush(s: Sys, m: Move, s': Sys)
    requires MoveTo(s, m, s') && m != Whole(GctFlush)
    ensures s'.durable == s.durable && |s'.workers| == |s.workers|
    ensures forall w | 0 <= w < |s.workers| ::
              s.workers[w].records <= s'.workers[w].records && s'.workers[w].written == s.workers[w].written
  {
    match m
    case Publish(_) =>
    case Whole(e) =>
      match e
      case StartTx(_, _) =>
      case ReadPage(_, _) =>
      case Reserve(_, _) =>
      case Submit(_) =>
      case CommitTx(_) =>
      case GctReadWorker =>
      case GctReadLog =>
      case GctCommit =>
      case GctSkip =>
      case GctStore =>
  }

  lemma WatermarkOfOne(v: nat, g: nat, l: nat)
    requires g != l
    ensures Watermark([v], [g], [l]) == Some(g)
  {
  }

  lemma FlushAlone(s: Sys, s': Sys)
    requires Inv(s) && |s.workers| == 1 && GroupCommitProof.StepTo(s, GctFlush, s')
    ensures Alone(s')
  {
    FlushShape(s, s');
    GroupCommitProof.FlushShape(s, s');
    var (vs, gsns) := (s.phase.visible, Gsns(s.phase.copies));
    assert vs == [vs[0]] && gsns == [gsns[0]] && s.lastSeen == [s.lastSeen[0]];
    assert CopyShape(s.workers[0], s.phase.copies[0]);
    WatermarkBounds(vs, gsns, s.lastSeen, 0);
    WatermarkOfOne(vs[0], gsns[0], s.lastSeen[0]);
  }

  lemma {:induction false} RunAlone(states: seq<Sys>, moves: seq<Move>, k: nat)
    requires Run(1, true, states, moves) && k <= |moves|
    ensures Alone(states[k])
  {
    if k > 0 {
      RunAlone(states, moves, k - 1);
      assert MoveAt(states, moves, k - 1);
      RunKeeps(1, true, states, moves, k - 1);
      MoveAlone(states[k - 1], moves[k - 1], states[k]);
    }
  }

  lemma MoveAlone(s: Sys, m: Move, s': Sys)
    requires Inv(s) && Alone(s) && MoveTo(s, m, s')
    ensures Alone(s')
  {
    if m == Whole(GctFlush) {
      FlushAlone(s, s');
    } else {
      NoFlush(s, m, s');
    }
  }

  lemma AloneHolds(states: seq<Sys>, moves: seq<Move>, k: nat)
    requires Run(1, true, states, moves) && k <= |moves|
    ensures Sound(states[k])
  {
    RunAlone(states, moves, k);
    RunKeeps(1, true, states, moves, k);
    WorkerFacts(states[k], 0);
  }
}
