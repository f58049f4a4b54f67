/**
  n logs, each with its worker, and one group committer: a machine whose steps are steps of both GroupCommit and the
  logs. What GroupCommit counts as written is on the device, byte for byte.
 */
module DurableCommit {
  import opened Wrappers
  import opened GroupCommit
  import GroupCommitProof
  import opened SubmitSteps
  import Align
  import Wal = WalMachine
  import WalHistory
  import WalProof
  import WalTheorems

  type World = WalHistory.World

  datatype Joint = Joint(sys: Sys, logs: seq<World>)

  /**
    LogStep: a step of one log that group commit does not see. OpenRecord: the GSN assignment and reserveLSN.
    PublishGsn: publishGSN after the hole is unlocked. SubmitRecord: the filled holes are collected, and the GSN is
    published if it was not. ReadLog: the committer copies one log's published pair and plans its writes. Flush: all
    writes are done, and the cursors move. Other: a step without a log.
   */
  datatype Action =
    | LogStep(w: nat, step: Wal.Event)
    | OpenRecord(w: nat, page: nat)
    | PublishGsn(w: nat)
    | SubmitRecord(w: nat)
    | ReadLog
    | Flush
    | Other(event: Event)

  predicate IsLocal(e: Wal.Event) {
    !e.BumpRecord? && !e.Collect? && !e.GctBegin? && !e.GctEnd?
  }

  predicate IsOther(e: Event) {
    e.StartTx? || e.ReadPage? || e.CommitTx? || e.GctReadWorker? || e.GctSkip? || e.GctCommit? || e.GctStore?
  }

  /** Log w makes this step, the other logs none. */
  ghost predicate OneLog(c: Wal.Config, logs: seq<World>, w: nat, e: Wal.Event, logs': seq<World>) {
    && w < |logs| == |logs'| && WalHistory.StepTo(c, logs[w], e, logs'[w])
    && forall i | 0 <= i < |logs| && i != w :: logs'[i] == logs[i]
  }

  ghost predicate LogFlushes(c: Wal.Config, a: World, b: World) {
    if a.log.round.Round? then WalHistory.StepTo(c, a, Wal.GctEnd, b) else b == a
  }

  /** What group commit sees of an action. */
  function MoveOf(a: Action): (r: Option<Move>) {
    match a
    case LogStep(_, _) => None
    case OpenRecord(w, page) => Some(Whole(Reserve(w, page)))
    case PublishGsn(w) => Some(Publish(w))
    case SubmitRecord(w) => Some(Whole(Submit(w)))
    case ReadLog => Some(Whole(GctReadLog))
    case Flush => Some(Whole(GctFlush))
    case Other(e) => Some(Whole(e))
  }

  ghost predicate SysStep(s: Sys, a: Action, s': Sys) {
    match MoveOf(a)
    case None => s' == s
    case Some(m) => MoveTo(s, m, s')
  }

  /** What the logs do in an action. */
  ghost predicate LogsStep(c: Wal.Config, j: Joint, a: Action, logs': seq<World>)
    requires |j.logs| == |j.sys.workers| == |logs'|
  {
    match a
    case LogStep(w, e) => IsLocal(e) && OneLog(c, j.logs, w, e, logs') && (e.Grant? ==> !j.sys.workers[w].open)
    case OpenRecord(w, page) =>
      w < |j.logs| && OneLog(c, j.logs, w, Wal.BumpRecord(NewGsn(j.sys, w, page)), logs')
    case PublishGsn(w) => w < |j.logs| && WalProof.AllFilled(j.logs[w].log.holes) && logs' == j.logs
    case SubmitRecord(w) => w < |j.logs| && WalProof.AllFilled(j.logs[w].log.holes)
      && OneLog(c, j.logs, w, Wal.Collect, logs')
    case ReadLog =>
      && j.sys.phase.ReadLogs? && |j.sys.phase.copies| < |j.logs|
      && var i := |j.sys.phase.copies|;
         if j.logs[i].log.pub.gsn == j.logs[i].log.seenGsn then logs' == j.logs
         else OneLog(c, j.logs, i, Wal.GctBegin, logs')
    case Flush => forall i | 0 <= i < |j.logs| :: LogFlushes(c, j.logs[i], logs'[i])
    case Other(e) => IsOther(e) && logs' == j.logs
  }

  ghost predicate StepTo(c: Wal.Config, j: Joint, a: Action, j': Joint) {
    |j.logs| == |j.sys.workers| == |j'.logs| && SysStep(j.sys, a, j'.sys) && LogsStep(c, j, a, j'.logs)
  }

  // ----- what ties a worker's records to its log

  function EndOf(r: WalHistory.Submitted): (e: nat) {
    r.at + |r.bytes|
  }

  /** The first n submitted records end at or before p. */
  ghost predicate Below(submitted: seq<WalHistory.Submitted>, n: nat, p: nat) {
    n <= |submitted| && forall k | 0 <= k < n :: EndOf(submitted[k]) <= p
  }

  /** Filled holes from before the open record: carriage returns and skips carry the GSN of the record before them. */
  ghost predicate AllOld(holes: seq<Wal.Hole>, gsn: nat) {
    forall i | 0 <= i < |holes| :: !holes[i].locked && holes[i].gsn == gsn
  }

  /** Nothing is open; a record has its GSN and is not in the ring yet; a record is in the ring. */
  ghost predicate Stage(my: Worker, w: World) {
    var (s, done) := (w.log, |w.hist.submitted|);
    if !my.open then
      !s.phase.Draining? && !s.phase.Bumped? && AllOld(s.holes, my.lastGsn) && done == |my.records|
    else if s.phase.Draining? || s.phase.Bumped? then
      AllOld(s.holes, my.lastGsn) && done + 1 == |my.records|
    else
      && s.phase.Idle? && s.holes != [] && AllOld(s.holes[..|s.holes| - 1], my.lastGsn)
      && var last := s.holes[|s.holes| - 1];
         last.gsn == my.logClock && (if last.locked then done + 1 == |my.records| else done == |my.records|)
  }

  ghost predicate SameGsns(submitted: seq<WalHistory.Submitted>, records: seq<Record>) {
    |submitted| <= |records| && forall k | 0 <= k < |submitted| :: submitted[k].gsn == records[k].gsn
  }

  ghost predicate Coupled(my: Worker, w: World) {
    && w.log.gsnClock == my.logClock && w.log.pub.gsn == my.lastGsn && (!my.open ==> my.lastGsn == my.logClock)
    && Below(w.hist.submitted, my.published, w.hist.pub) && Below(w.hist.submitted, my.written, w.hist.gct)
    && SameGsns(w.hist.submitted, my.records) && Stage(my, w)
  }

  /** The round in flight for a log whose published pair the committer has copied. */
  ghost predicate RoundLink(copy: Copy, w: World) {
    if w.log.round.Round? then
      w.log.round.pub.gsn == copy.gsn != w.log.seenGsn && Below(w.hist.submitted, copy.index, w.hist.roundEnd)
    else copy.gsn == w.log.seenGsn
  }

  ghost predicate LogLink(j: Joint, i: nat)
    requires |j.logs| == |j.sys.workers| == |j.sys.lastSeen| && i < |j.logs|
  {
    && Coupled(j.sys.workers[i], j.logs[i]) && j.logs[i].log.seenGsn == j.sys.lastSeen[i]
    && if j.sys.phase.ReadLogs? && i < |j.sys.phase.copies| then RoundLink(j.sys.phase.copies[i], j.logs[i])
       else j.logs[i].log.round.NoRound?
  }

  ghost predicate AllLinked(j: Joint) {
    |j.logs| == |j.sys.workers| == |j.sys.lastSeen| && forall i | 0 <= i < |j.logs| :: LogLink(j, i)
  }

  ghost predicate Inv(c: Wal.Config, j: Joint) {
    SubmitSteps.Inv(j.sys) && AllLinked(j) && forall i | 0 <= i < |j.logs| :: WalHistory.Inv(c, j.logs[i])
  }

  // ----- a step of one log

  lemma BelowGrows(a: seq<WalHistory.Submitted>, b: seq<WalHistory.Submitted>, n: nat, p: nat, q: nat)
    requires Below(a, n, p) && a <= b && p <= q
    ensures Below(b, n, q)
  {
    forall k | 0 <= k < n
      ensures EndOf(b[k]) <= q
    {
      assert a[k] == b[k];
    }
  }

  lemma CountersGrow(c: Wal.Config, my: Worker, w: World, e: Wal.Event, w': World)
    requires Wal.ValidConfig(c) && WalHistory.Inv(c, w) && WalHistory.StepTo(c, w, e, w') && Coupled(my, w)
    ensures Below(w'.hist.submitted, my.published, w'.hist.pub) && Below(w'.hist.submitted, my.written, w'.hist.gct)
    ensures w.hist.submitted <= w'.hist.submitted
  {
    WalTheorems.StepForward(c, w, e, w');
    BelowGrows(w.hist.submitted, w'.hist.submitted, my.published, w.hist.pub, w'.hist.pub);
    BelowGrows(w.hist.submitted, w'.hist.submitted, my.written, w.hist.gct, w'.hist.gct);
  }

  /** What the committer has copied of a log does not change under the steps of its worker or the device. */
  ghost predicate SameRound(w: World, w': World) {
    && w'.log.seenGsn == w.log.seenGsn && w'.hist.roundEnd == w.hist.roundEnd
    && (w'.log.round.Round? <==> w.log.round.Round?)
    && (w.log.round.Round? ==> w'.log.round.pub == w.log.round.pub)
  }

  predicate IsWrite(e: Wal.Event) {
    e.WriteCr? || e.WriteSkip? || e.WriteRecord?
  }

  /** A hole is pushed after the old ones are gone. */
  lemma WriteShape(c: Wal.Config, w: World, e: Wal.Event, w': World, gsn: nat)
    requires WalHistory.StepTo(c, w, e, w') && IsWrite(e) && AllOld(w.log.holes, gsn) && w.log.pub.gsn == gsn
    ensures w'.log.pub.gsn == gsn && |w'.log.holes| == 1 && w'.log.gsnClock == w.log.gsnClock
    ensures w'.log.holes[0].gsn == w.log.gsnClock && (w'.log.holes[0].locked <==> e.WriteRecord?)
    ensures if e.WriteRecord? then w.log.phase.Bumped? && w'.log.phase.Idle?
            else (w.log.phase.CrBumped? || w.log.phase.SkipBumped?) && w'.log.phase.Ready?
    ensures SameRound(w, w')
  {
    WalProof.CollectsAll(w.log);
    match e
    case WriteCr(entry) => WriteCrShape(c, w, entry, w');
    case WriteSkip(b) => WriteSkipShape(c, w, b, w');
    case WriteRecord(header) => WriteRecordShape(c, w, header, w');
  }

  ghost predicate Pushed(w: World, w': World, gsn: nat, locked: bool) {
    && w'.log.pub == Wal.CollectHoles(w.log).pub && w'.log.gsnClock == w.log.gsnClock
    && |w'.log.holes| == |Wal.CollectHoles(w.log).holes| + 1
    && w'.log.holes[|w'.log.holes| - 1].gsn == gsn && w'.log.holes[|w'.log.holes| - 1].locked == locked
    && SameRound(w, w') && w'.hist.submitted == w.hist.submitted
  }

  lemma WriteCrShape(c: Wal.Config, w: World, entry: seq<byte>, w': World)
    requires WalHistory.StepTo(c, w, Wal.WriteCr(entry), w')
    ensures Pushed(w, w', w.log.gsnClock, false) && w.log.phase.CrBumped? && w'.log.phase.Ready?
  {
    var s := w.log;
    WalProof.InsertCollects(c, s, Wal.Splice(s.ring, s.cursor, entry), 0, Wal.Ready(s.phase.req),
                            Wal.Hole(0, s.gsnClock, false, 0, 0, 0));
  }

  lemma WriteSkipShape(c: Wal.Config, w: World, b: byte, w': World)
    requires WalHistory.StepTo(c, w, Wal.WriteSkip(b), w')
    ensures Pushed(w, w', w.log.gsnClock, false) && w.log.phase.SkipBumped? && w'.log.phase.Ready?
  {
    var (s, up) := (w.log, Align.UpAlign(w.log.cursor));
    WalProof.InsertCollects(c, s, Wal.Splice(s.ring, s.cursor, [b]), up, Wal.Ready(s.phase.req),
                            Wal.Hole(up, s.gsnClock, false, 0, 0, 0));
  }

  lemma WriteRecordShape(c: Wal.Config, w: World, header: seq<byte>, w': World)
    requires WalHistory.StepTo(c, w, Wal.WriteRecord(header), w')
    ensures Pushed(w, w', w.log.gsnClock, true) && w.log.phase.Bumped? && w'.log.phase.Idle?
  {
    var (s, end) := (w.log, w.log.cursor + w.log.phase.req);
    WalProof.InsertCollects(c, s, Wal.Splice(s.ring, s.cursor, header), end, Wal.Idle,
                            Wal.Hole(end, s.gsnClock, true, s.cursor, s.phase.req, s.phase.lsn));
  }

  lemma WriteCoupled(c: Wal.Config, my: Worker, w: World, e: Wal.Event, w': World)
    requires Wal.ValidConfig(c) && WalHistory.Inv(c, w) && WalHistory.StepTo(c, w, e, w') && Coupled(my, w)
    requires IsWrite(e)
    ensures Coupled(my, w') && SameRound(w, w')
  {
    CountersGrow(c, my, w, e, w');
    WriteOld(c, my, w, e, w');
    WriteShape(c, w, e, w', my.lastGsn);
    WriteStage(my, w, e, w');
  }

  /** A write finds only old holes. */
  lemma WriteOld(c: Wal.Config, my: Worker, w: World, e: Wal.Event, w': World)
    requires WalHistory.StepTo(c, w, e, w') && Stage(my, w) && IsWrite(e)
    ensures AllOld(w.log.holes, my.lastGsn) && (my.open <==> e.WriteRecord?) && w'.hist.submitted == w.hist.submitted
  {
    match e
    case WriteCr(entry) => WriteCrShape(c, w, entry, w');
    case WriteSkip(b) => WriteSkipShape(c, w, b, w');
    case WriteRecord(header) => WriteRecordShape(c, w, header, w');
  }

  lemma WriteStage(my: Worker, w: World, e: Wal.Event, w': World)
    requires Coupled(my, w) && IsWrite(e) && (my.open <==> e.WriteRecord?) && w'.hist.submitted == w.hist.submitted
    requires |w'.log.holes| == 1 && w'.log.gsnClock == w.log.gsnClock
    requires w'.log.holes[0].gsn == w.log.gsnClock && (w'.log.holes[0].locked <==> e.WriteRecord?)
    requires if e.WriteRecord? then w.log.phase.Bumped? && w'.log.phase.Idle?
             else w'.log.phase.Ready?
    ensures Stage(my, w')
  {
  }

  predicate IsPlainStep(e: Wal.Event) {
    e.Grant? || e.Branch? || e.Drain? || e.Fill? || e.GctCopy?
  }

  /** Steps that leave the queue as it is. */
  lemma PlainShape(c: Wal.Config, w: World, e: Wal.Event, w': World)
    requires WalHistory.StepTo(c, w, e, w') && IsPlainStep(e)
    ensures w'.log.holes == w.log.holes && w'.log.gsnClock == w.log.gsnClock && w'.hist.submitted == w.hist.submitted
    ensures SameRound(w, w')
    ensures e.Drain? && w.log.holes != [] ==> w'.log.pub.gsn == w.log.holes[|w.log.holes| - 1].gsn
    ensures !e.Drain? || w.log.holes == [] ==> w'.log.pub.gsn == w.log.pub.gsn
    ensures e.Drain? ==> w.log.phase.Draining? && w'.log.phase.Bumped?
    ensures e.Grant? ==> w'.log.phase.Granted?
    ensures e.Branch? ==> w.log.phase.Granted? && !w'.log.phase.Draining? && !w'.log.phase.Bumped?
    ensures e.Fill? || e.GctCopy? ==> w'.log.phase == w.log.phase
  {
    match e
    case Grant(_) =>
    case Branch =>
    case Drain =>
    case Fill(_, _, _) =>
    case GctCopy(_, _) =>
  }

  lemma PlainCoupled(c: Wal.Config, my: Worker, w: World, e: Wal.Event, w': World)
    requires Wal.ValidConfig(c) && WalHistory.Inv(c, w) && WalHistory.StepTo(c, w, e, w') && Coupled(my, w)
    requires IsPlainStep(e) && (e.Grant? ==> !my.open)
    ensures Coupled(my, w') && SameRound(w, w')
  {
    CountersGrow(c, my, w, e, w');
    PlainShape(c, w, e, w');
  }

  /** Only the open record's hole can be unlocked; the record is then the newest submitted one. */
  lemma UnlockCoupled(c: Wal.Config, my: Worker, w: World, a: nat, w': World, i: nat)
    requires Wal.ValidConfig(c) && WalHistory.Inv(c, w) && WalHistory.StepTo(c, w, Wal.Unlock(a), w') && Coupled(my, w)
    requires LogShape(my, i)
    ensures Coupled(my, w') && SameRound(w, w')
  {
    CountersGrow(c, my, w, Wal.Unlock(a), w');
    var r := WalProof.UnlockRecord(c, w, a, w');
    UnlockStage(my, w, a - w.log.head, r, w', i);
  }

  lemma UnlockStage(my: Worker, w: World, k: nat, r: WalHistory.Submitted, w': World, i: nat)
    requires Coupled(my, w) && LogShape(my, i) && k < |w.log.holes| && w.log.holes[k].locked
    requires r.gsn == w.log.holes[k].gsn
    requires w'.log == w.log.(holes := w.log.holes[k := w.log.holes[k].(locked := false)])
    requires w'.hist.submitted == w.hist.submitted + [r]
    ensures Stage(my, w') && SameGsns(w'.hist.submitted, my.records)
  {
    var n := |w.log.holes| - 1;
    if my.open && w.log.phase.Idle? {
      OnlyLast(w.log.holes, my.lastGsn, k);
    }
    assert w'.log.holes[..n] == w.log.holes[..n];
  }

  lemma OnlyLast(holes: seq<Wal.Hole>, gsn: nat, k: nat)
    requires k < |holes| && AllOld(holes[..|holes| - 1], gsn) && holes[k].locked
    ensures k == |holes| - 1
  {
    var n := |holes| - 1;
    assert forall i | 0 <= i < n :: holes[..n][i] == holes[i];
  }

  lemma LocalCoupled(c: Wal.Config, my: Worker, w: World, e: Wal.Event, w': World, i: nat)
    requires Wal.ValidConfig(c) && WalHistory.Inv(c, w) && WalHistory.StepTo(c, w, e, w') && Coupled(my, w)
    requires IsLocal(e) && (e.Grant? ==> !my.open) && LogShape(my, i)
    ensures Coupled(my, w') && SameRound(w, w') && w.hist.submitted <= w'.hist.submitted
  {
    CountersGrow(c, my, w, e, w');
    if e.Unlock? {
      UnlockCoupled(c, my, w, e.index, w', i);
    } else if IsWrite(e) {
      WriteCoupled(c, my, w, e, w');
    } else {
      PlainCoupled(c, my, w, e, w');
    }
  }

  // ----- a worker's step in its log

  lemma OpenCoupled(c: Wal.Config, my: Worker, my': Worker, w: World, gsn: nat, w': World)
    requires WalHistory.StepTo(c, w, Wal.BumpRecord(gsn), w') && Coupled(my, w) && !my.open && my'.open
    requires my'.logClock == gsn && |my'.records| == |my.records| + 1 && my.records <= my'.records
    requires my'.lastGsn == my.lastGsn && my'.published == my.published && my'.written == my.written
    ensures Coupled(my', w') && SameRound(w, w') && w'.hist == w.hist
  {
    assert SameGsns(w.hist.submitted, my'.records);
  }

  lemma CollectShape(c: Wal.Config, w: World, w': World)
    requires Wal.ValidConfig(c) && WalHistory.Inv(c, w) && WalHistory.StepTo(c, w, Wal.Collect, w')
    requires w.log.holes != [] && WalProof.AllFilled(w.log.holes)
    ensures w.log.phase.Idle? && w'.log.phase.Idle? && w'.log.holes == [] && w'.log.gsnClock == w.log.gsnClock
    ensures w'.log.pub.gsn == w.log.holes[|w.log.holes| - 1].gsn
    ensures SameRound(w, w') && w'.hist.submitted == w.hist.submitted && w'.hist.gct == w.hist.gct
    ensures Below(w'.hist.submitted, |w'.hist.submitted|, w'.hist.pub)
  {
    WalProof.CollectsAll(w.log);
    WalTheorems.StepKeeps(c, w, Wal.Collect, w');
    AllPublished(c, w');
  }

  /** With an empty queue everything submitted is published. */
  lemma AllPublished(c: Wal.Config, w: World)
    requires WalHistory.Inv(c, w) && w.log.holes == []
    ensures Below(w.hist.submitted, |w.hist.submitted|, w.hist.pub)
  {
    forall k | 0 <= k < |w.hist.submitted|
      ensures EndOf(w.hist.submitted[k]) <= w.hist.pub
    {
      assert WalHistory.SubmittedOk(c, w.log, w.hist, w.hist.submitted[k]);
    }
  }

  lemma SubmitCoupled(c: Wal.Config, my: Worker, my': Worker, w: World, w': World)
    requires Wal.ValidConfig(c) && WalHistory.Inv(c, w) && WalHistory.StepTo(c, w, Wal.Collect, w') && Coupled(my, w)
    requires my.open && !my'.open && WalProof.AllFilled(w.log.holes)
    requires my'.logClock == my'.lastGsn == my.logClock && my'.records == my.records
    requires my'.published == |my.records| && my'.written == my.written
    ensures Coupled(my', w') && SameRound(w, w') && w'.hist.submitted == w.hist.submitted
  {
    CollectIdle(c, w, w');
    CollectShape(c, w, w');
  }

  lemma CollectIdle(c: Wal.Config, w: World, w': World)
    requires WalHistory.StepTo(c, w, Wal.Collect, w')
    ensures w.log.phase.Idle?
  {
  }

  // ----- the committer's steps in one log

  lemma BeginLinked(c: Wal.Config, my: Worker, w: World, w': World)
    requires WalHistory.StepTo(c, w, Wal.GctBegin, w') && Coupled(my, w)
    ensures Coupled(my, w') && RoundLink(Copy(my.lastGsn, my.published), w') && w'.log.seenGsn == w.log.seenGsn
  {
  }

  lemma EndLinked(c: Wal.Config, my: Worker, w: World, w': World, copy: Copy)
    requires WalHistory.StepTo(c, w, Wal.GctEnd, w') && Coupled(my, w) && RoundLink(copy, w)
    ensures Coupled(my.(written := copy.index), w') && w'.log.round.NoRound? && w'.log.seenGsn == copy.gsn
    ensures copy.gsn != w.log.seenGsn
  {
  }

  // ----- the whole machine

  /** Worker i is the same, as far as its log goes. */
  ghost predicate SameLog(my: Worker, my': Worker) {
    && my'.logClock == my.logClock && my'.records == my.records && my'.open == my.open
    && my'.published == my.published && my'.lastGsn == my.lastGsn && my'.written == my.written
  }

  lemma SameLogCoupled(my: Worker, my': Worker, w: World)
    requires Coupled(my, w) && SameLog(my, my')
    ensures Coupled(my', w)
  {
  }

  lemma RoundStays(copy: Copy, w: World, w': World)
    requires RoundLink(copy, w) && SameRound(w, w') && w.hist.submitted <= w'.hist.submitted
    ensures RoundLink(copy, w')
  {
    if w.log.round.Round? {
      BelowGrows(w.hist.submitted, w'.hist.submitted, copy.index, w.hist.roundEnd, w'.hist.roundEnd);
    }
  }

  /** Only worker w and its log have moved, and the committer has not. */
  ghost predicate OneMoves(j: Joint, j': Joint, w: nat) {
    && |j.logs| == |j.sys.workers| == |j.sys.lastSeen| && |j'.logs| == |j'.sys.workers| == |j.logs| && w < |j.logs|
    && j'.sys.phase == j.sys.phase && j'.sys.lastSeen == j.sys.lastSeen
    && forall i | 0 <= i < |j.logs| && i != w :: j'.logs[i] == j.logs[i] && j'.sys.workers[i] == j.sys.workers[i]
  }

  lemma OneMovesLinks(j: Joint, j': Joint, w: nat)
    requires OneMoves(j, j', w) && (forall i | 0 <= i < |j.logs| :: LogLink(j, i))
    requires Coupled(j'.sys.workers[w], j'.logs[w]) && SameRound(j.logs[w], j'.logs[w])
    requires j.logs[w].hist.submitted <= j'.logs[w].hist.submitted
    ensures forall i | 0 <= i < |j'.logs| :: LogLink(j', i)
  {
    forall i | 0 <= i < |j.logs|
      ensures LogLink(j', i)
    {
      assert LogLink(j, i);
      if i == w && j.sys.phase.ReadLogs? && i < |j.sys.phase.copies| {
        RoundStays(j.sys.phase.copies[i], j.logs[i], j'.logs[i]);
      }
    }
  }

  lemma ReserveShape(s: Sys, w: nat, page: nat, s': Sys)
    requires GroupCommitProof.StepTo(s, Reserve(w, page), s') && w < |s.workers|
    ensures |s'.workers| == |s.workers| && s'.phase == s.phase && s'.lastSeen == s.lastSeen
    ensures forall i | 0 <= i < |s.workers| && i != w :: s'.workers[i] == s.workers[i]
    ensures var (my, my') := (s.workers[w], s'.workers[w]);
      && !my.open && my'.open && my'.logClock == NewGsn(s, w, page)
      && |my'.records| == |my.records| + 1 && my.records <= my'.records
      && my'.lastGsn == my.lastGsn && my'.published == my.published && my'.written == my.written
  {
  }

  lemma SubmitShape(s: Sys, w: nat, s': Sys)
    requires GroupCommitProof.StepTo(s, Submit(w), s')
    ensures w < |s.workers| == |s'.workers| && s'.phase == s.phase && s'.lastSeen == s.lastSeen
    ensures forall i | 0 <= i < |s.workers| && i != w :: s'.workers[i] == s.workers[i]
    ensures var (my, my') := (s.workers[w], s'.workers[w]);
      && my.open && !my'.open && my'.logClock == my'.lastGsn == my.logClock && my'.records == my.records
      && my'.published == |my.records| && my'.written == my.written
  {
  }

  /** The committer has copied no log, or none with news. */
  ghost predicate NoNews(s: Sys) {
    s.phase.ReadLogs? ==> s.phase.copies == [] || Gsns(s.phase.copies) == s.lastSeen
  }

  lemma OtherShape(s: Sys, e: Event, s': Sys)
    requires GroupCommitProof.StepTo(s, e, s') && IsOther(e)
    ensures |s'.workers| == |s.workers| && s'.lastSeen == s.lastSeen
    ensures forall i | 0 <= i < |s.workers| :: SameLog(s.workers[i], s'.workers[i])
    ensures s'.phase == s.phase || (NoNews(s) && (s'.phase.ReadLogs? ==> s'.phase.copies == []))
  {
    match e
    case StartTx(_, _) =>
    case ReadPage(_, _) =>
    case CommitTx(_) =>
    case GctReadWorker =>
    case GctSkip =>
    case GctCommit =>
    case GctStore =>
  }

  lemma OtherLinks(j: Joint, e: Event, j': Joint)
    requires AllLinked(j)
    requires GroupCommitProof.StepTo(j.sys, e, j'.sys) && IsOther(e) && j'.logs == j.logs
    ensures AllLinked(j')
  {
    OtherShape(j.sys, e, j'.sys);
    forall i | 0 <= i < |j.logs|
      ensures LogLink(j', i)
    {
      assert LogLink(j, i);
      SameLogCoupled(j.sys.workers[i], j'.sys.workers[i], j.logs[i]);
      if NoNews(j.sys) {
        QuietLog(j, i);
      }
    }
  }

  lemma QuietLog(j: Joint, i: nat)
    requires |j.logs| == |j.sys.workers| == |j.sys.lastSeen| && i < |j.logs| && LogLink(j, i) && NoNews(j.sys)
    ensures j.logs[i].log.round.NoRound?
  {
    if j.sys.phase.ReadLogs? && i < |j.sys.phase.copies| {
      assert Gsns(j.sys.phase.copies)[i] == j.sys.phase.copies[i].gsn;
    }
  }

  lemma ReadShape(s: Sys, s': Sys)
    requires GroupCommitProof.StepTo(s, GctReadLog, s')
    ensures s.phase.ReadLogs? && |s.phase.copies| < |s.workers|
    ensures s' == s.(phase := ReadLogs(s.phase.visible, s.phase.hardened, s.phase.copies +
              [Copy(s.workers[|s.phase.copies|].lastGsn, s.workers[|s.phase.copies|].published)]))
  {
  }

  lemma ReadLinks(c: Wal.Config, j: Joint, j': Joint)
    requires AllLinked(j)
    requires StepTo(c, j, ReadLog, j')
    ensures AllLinked(j')
  {
    ReadShape(j.sys, j'.sys);
    var k := |j.sys.phase.copies|;
    forall i | 0 <= i < |j.logs|
      ensures LogLink(j', i)
    {
      assert LogLink(j, i);
      if i == k && j.logs[i].log.pub.gsn != j.logs[i].log.seenGsn {
        BeginLinked(c, j.sys.workers[i], j.logs[i], j'.logs[i]);
      }
    }
  }

  lemma FlushedWorkers(s: Sys, s': Sys)
    requires GroupCommitProof.StepTo(s, GctFlush, s')
    ensures s.phase.ReadLogs? && |s.phase.copies| == |s.workers| == |s'.workers| == |s'.lastSeen|
    ensures s'.phase.Committing?
    ensures forall i | 0 <= i < |s.workers| ::
      && s'.lastSeen[i] == s.phase.copies[i].gsn
      && s'.workers[i] == (if s.phase.copies[i].gsn != s.lastSeen[i]
                           then s.workers[i].(written := s.phase.copies[i].index) else s.workers[i])
  {
  }

  lemma FlushLinks(c: Wal.Config, j: Joint, j': Joint)
    requires AllLinked(j)
    requires StepTo(c, j, Flush, j')
    ensures AllLinked(j')
  {
    FlushedWorkers(j.sys, j'.sys);
    forall i | 0 <= i < |j.logs|
      ensures LogLink(j', i)
    {
      assert LogLink(j, i) && LogFlushes(c, j.logs[i], j'.logs[i]);
      if j.logs[i].log.round.Round? {
        EndLinked(c, j.sys.workers[i], j.logs[i], j'.logs[i], j.sys.phase.copies[i]);
      }
    }
  }

  /** What a step of worker w and its log starts from. */
  ghost predicate WorkerOk(c: Wal.Config, j: Joint, w: nat) {
    && AllLinked(j) && w < |j.logs| && WalHistory.Inv(c, j.logs[w]) && LogShape(j.sys.workers[w], w)
  }

  lemma WorkerFacts(c: Wal.Config, j: Joint, w: nat)
    requires Inv(c, j) && w < |j.logs|
    ensures WorkerOk(c, j, w)
  {
    SubmitSteps.WorkerFacts(j.sys, w);
  }

  lemma LogStepLinks(c: Wal.Config, j: Joint, w: nat, e: Wal.Event, j': Joint)
    requires Wal.ValidConfig(c) && WorkerOk(c, j, w) && StepTo(c, j, LogStep(w, e), j')
    ensures AllLinked(j')
  {
    assert LogLink(j, w);
    LocalCoupled(c, j.sys.workers[w], j.logs[w], e, j'.logs[w], w);
    OneMovesLinks(j, j', w);
  }

  lemma OpenLinks(c: Wal.Config, j: Joint, w: nat, page: nat, j': Joint)
    requires WorkerOk(c, j, w) && StepTo(c, j, OpenRecord(w, page), j')
    ensures AllLinked(j')
  {
    assert LogLink(j, w);
    ReserveShape(j.sys, w, page, j'.sys);
    OpenCoupled(c, j.sys.workers[w], j'.sys.workers[w], j.logs[w], NewGsn(j.sys, w, page), j'.logs[w]);
    OneMovesLinks(j, j', w);
  }

  lemma PublishLinks(c: Wal.Config, j: Joint, w: nat, j': Joint)
    requires WorkerOk(c, j, w) && StepTo(c, j, PublishGsn(w), j')
    ensures AllLinked(j')
  {
    assert LogLink(j, w);
    SameLogCoupled(j.sys.workers[w], j'.sys.workers[w], j.logs[w]);
    OneMovesLinks(j, j', w);
  }

  lemma SubmitLinks(c: Wal.Config, j: Joint, w: nat, j': Joint)
    requires Wal.ValidConfig(c) && WorkerOk(c, j, w) && StepTo(c, j, SubmitRecord(w), j')
    ensures AllLinked(j')
  {
    assert LogLink(j, w);
    SubmitShape(j.sys, w, j'.sys);
    SubmitCoupled(c, j.sys.workers[w], j'.sys.workers[w], j.logs[w], j'.logs[w]);
    OneMovesLinks(j, j', w);
  }

  lemma LogsKeep(c: Wal.Config, j: Joint, a: Action, j': Joint, i: nat)
    requires Wal.ValidConfig(c) && StepTo(c, j, a, j') && i < |j.logs| && WalHistory.Inv(c, j.logs[i])
    ensures WalHistory.Inv(c, j'.logs[i])
  {
    if j'.logs[i] != j.logs[i] {
      var e := LogEvent(c, j, a, j', i);
      WalTheorems.StepKeeps(c, j.logs[i], e, j'.logs[i]);
    }
  }

  /** A log that has changed has made a step of its own. */
  lemma LogEvent(c: Wal.Config, j: Joint, a: Action, j': Joint, i: nat) returns (e: Wal.Event)
    requires StepTo(c, j, a, j') && i < |j.logs| && j'.logs[i] != j.logs[i]
    ensures WalHistory.StepTo(c, j.logs[i], e, j'.logs[i])
  {
    match a
    case LogStep(w, step) => e := step;
    case OpenRecord(w, page) => e := Wal.BumpRecord(NewGsn(j.sys, w, page));
    case PublishGsn(_) => e := Wal.Collect;
    case SubmitRecord(w) => e := Wal.Collect;
    case ReadLog => e := Wal.GctBegin;
    case Flush =>
      assert LogFlushes(c, j.logs[i], j'.logs[i]);
      e := Wal.GctEnd;
    case Other(_) => e := Wal.Collect;
  }

  lemma SysKeeps(s: Sys, a: Action, s': Sys)
    requires SubmitSteps.Inv(s) && SysStep(s, a, s')
    ensures SubmitSteps.Inv(s')
  {
    match MoveOf(a)
    case None =>
    case Some(m) => SubmitSteps.MoveKeeps(s, m, s');
  }

  lemma LinksKeep(c: Wal.Config, j: Joint, a: Action, j': Joint)
    requires Wal.ValidConfig(c) && Inv(c, j) && StepTo(c, j, a, j')
    ensures AllLinked(j')
  {
    match a
    case ReadLog => ReadLinks(c, j, j');
    case Flush => FlushLinks(c, j, j');
    case Other(e) => OtherLinks(j, e, j');
    case LogStep(w, e) =>
      WorkerFacts(c, j, w);
      LogStepLinks(c, j, w, e, j');
    case OpenRecord(w, page) =>
      WorkerFacts(c, j, w);
      OpenLinks(c, j, w, page, j');
    case PublishGsn(w) =>
      WorkerFacts(c, j, w);
      PublishLinks(c, j, w, j');
    case SubmitRecord(w) =>
      WorkerFacts(c, j, w);
      SubmitLinks(c, j, w, j');
  }

  /** Every step keeps both invariants and the links between them. */
  lemma StepKeeps(c: Wal.Config, j: Joint, a: Action, j': Joint)
    requires Wal.ValidConfig(c) && Inv(c, j) && StepTo(c, j, a, j')
    ensures Inv(c, j')
  {
    SysKeeps(j.sys, a, j'.sys);
    LinksKeep(c, j, a, j');
    forall i | 0 <= i < |j'.logs|
      ensures WalHistory.Inv(c, j'.logs[i])
    {
      LogsKeep(c, j, a, j', i);
    }
  }

  // ----- runs

  ghost predicate StepAt(c: Wal.Config, joints: seq<Joint>, actions: seq<Action>, i: nat)
    requires |joints| == |actions| + 1 && i < |actions|
  {
    StepTo(c, joints[i], actions[i], joints[i + 1])
  }

  ghost function Start(c: Wal.Config, n: nat): (j: Joint) {
    Joint(Init(n), seq(n, i => WalHistory.World(Wal.Init(c), WalHistory.INIT_HISTORY)))
  }

  ghost predicate Run(c: Wal.Config, n: nat, joints: seq<Joint>, actions: seq<Action>) {
    && n > 0 && |joints| == |actions| + 1 && joints[0] == Start(c, n)
    && forall i | 0 <= i < |actions| :: StepAt(c, joints, actions, i)
  }

  lemma StartInv(c: Wal.Config, n: nat)
    requires Wal.ValidConfig(c) && n > 0
    ensures Inv(c, Start(c, n))
  {
    SubmitSteps.InitInv(n);
    WalProof.InitInv(c);
  }

  lemma {:induction false} RunKeeps(c: Wal.Config, n: nat, joints: seq<Joint>, actions: seq<Action>, k: nat)
    requires Wal.ValidConfig(c) && Run(c, n, joints, actions) && k <= |actions|
    ensures Inv(c, joints[k])
  {
    if k == 0 {
      StartInv(c, n);
    } else {
      RunKeeps(c, n, joints, actions, k - 1);
      assert StepAt(c, joints, actions, k - 1);
      StepKeeps(c, joints[k - 1], actions[k - 1], joints[k]);
    }
  }

  /** Record r of log r.log has been submitted, and the device holds byte b as its owner filled it, at its LSN. */
  ghost predicate ByteOnDevice(logs: seq<World>, r: Record, b: nat) {
    && r.log < |logs| && r.index < |logs[r.log].hist.submitted|
    && var (w, x) := (logs[r.log], logs[r.log].hist.submitted[r.index]);
       && x.gsn == r.gsn
       && (b < |x.bytes| ==> x.lsn + b in w.log.device && w.log.device[x.lsn + b] == x.bytes[b])
  }

  /** The k-th record of a log, once group commit counts it as written. */
  lemma WrittenIsOnDevice(c: Wal.Config, j: Joint, r: Record, b: nat)
    requires Inv(c, j) && c.fakeWrap == 0 && IsWritten(j.sys, r)
    ensures ByteOnDevice(j.logs, r, b)
  {
    WorkerFacts(c, j, r.log);
    assert LogLink(j, r.log);
    OnDevice(c, j.logs[r.log], r.index, b, j.sys.workers[r.log].written);
  }

  lemma OnDevice(c: Wal.Config, w: World, k: nat, b: nat, n: nat)
    requires WalHistory.Inv(c, w) && c.fakeWrap == 0 && k < n && Below(w.hist.submitted, n, w.hist.gct)
    ensures var x := w.hist.submitted[k];
      b < |x.bytes| ==> x.lsn + b in w.log.device && w.log.device[x.lsn + b] == x.bytes[b]
  {
    var x := w.hist.submitted[k];
    assert WalHistory.SubmittedOk(c, w.log, w.hist, x);
    if b < |x.bytes| {
      assert w.hist.lin[x.at..x.at + |x.bytes|][b] == w.hist.lin[x.at + b];
    }
  }

  /**
    End to end: of every record of a committed transaction, its own and those of the pages as it read them, the device
    holds the bytes its owner filled, at its LSN.
   */
  lemma CommittedOnDevice(c: Wal.Config, n: nat, joints: seq<Joint>, actions: seq<Action>, k: nat, tx: Tx, r: Record,
                          b: nat)
    requires Wal.ValidConfig(c) && c.fakeWrap == 0 && Run(c, n, joints, actions) && k <= |actions|
    requires tx in joints[k].sys.committed && r in tx.seen
    ensures ByteOnDevice(joints[k].logs, r, b)
  {
    RunKeeps(c, n, joints, actions, k);
    assert Written(joints[k].sys, tx.seen);
    WrittenIsOnDevice(c, joints[k], r, b);
  }

  lemma {:induction false} WholeKeeps(c: Wal.Config, n: nat, joints: seq<Joint>, actions: seq<Action>, k: nat)
    requires Run(c, n, joints, actions) && k <= |actions| && forall i | 0 <= i < |actions| :: !actions[i].PublishGsn?
    ensures GroupCommit.Inv(joints[k].sys)
  {
    if k == 0 {
      GroupCommitProof.InitKeeps(n);
    } else {
      WholeKeeps(c, n, joints, actions, k - 1);
      assert StepAt(c, joints, actions, k - 1);
      var m := MoveOf(actions[k - 1]);
      if m.Some? {
        GroupCommitProof.StepKeeps(joints[k - 1].sys, m.value.event, joints[k].sys);
      }
    }
  }

  /** With submit() in one step: the same for every record of every log up to the watermark. */
  lemma WatermarkOnDevice(c: Wal.Config, n: nat, joints: seq<Joint>, actions: seq<Action>, k: nat, r: Record, b: nat)
    requires Wal.ValidConfig(c) && c.fakeWrap == 0 && Run(c, n, joints, actions) && k <= |actions|
    requires forall i | 0 <= i < |actions| :: !actions[i].PublishGsn?
    requires IsRecord(joints[k].sys, r) && r.gsn <= joints[k].sys.durable
    ensures ByteOnDevice(joints[k].logs, r, b)
  {
    RunKeeps(c, n, joints, actions, k);
    WholeKeeps(c, n, joints, actions, k);
    assert Durable(joints[k].sys.workers[r.log], joints[k].sys.durable);
    WrittenIsOnDevice(c, joints[k], r, b);
  }
}
