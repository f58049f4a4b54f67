/** No transaction waits for ever: from every state of every run, all precommitted transactions can be committed. */
module CommitProgress {
  import opened Wrappers
  import opened GroupCommit
  import GroupCommitProof
  import opened SubmitSteps

  // ----- going on

  ghost predicate Path(states: seq<Sys>, moves: seq<Move>) {
    |states| == |moves| + 1 && forall i | 0 <= i < |moves| :: MoveAt(states, moves, i)
  }

  /** Some continuation leads from s to s'. */
  ghost predicate Leads(s: Sys, s': Sys) {
    exists states, moves :: Path(states, moves) && states[0] == s && states[|moves|] == s'
  }

  lemma LeadsFurther(a: Sys, b: Sys, m: Move, c: Sys)
    requires Leads(a, b) && MoveTo(b, m, c)
    ensures Leads(a, c)
  {
    var states, moves :| Path(states, moves) && states[0] == a && states[|moves|] == b;
    var (states', moves') := (states + [c], moves + [m]);
    forall i | 0 <= i < |moves'|
      ensures MoveAt(states', moves', i)
    {
      assert i < |moves| ==> MoveAt(states, moves, i);
    }
    assert Path(states', moves') && states'[0] == a && states'[|moves'|] == c;
  }

  /** A worker's clock is at or above what its transactions have seen. */
  ghost predicate ClockOk(my: Worker) {
    my.logClock <= my.clock && forall i | 0 <= i < |my.queue| :: my.queue[i].maxGsn <= my.clock
  }

  ghost predicate ClocksOk(s: Sys) {
    forall w | 0 <= w < |s.workers| :: ClockOk(s.workers[w])
  }

  lemma ClocksKept(s: Sys, m: Move, s': Sys)
    requires ClocksOk(s) && MoveTo(s, m, s')
    ensures ClocksOk(s')
  {
    match m
    case Publish(_) =>
    case Whole(e) =>
      match e
      case StartTx(_, _) =>
      case ReadPage(_, _) =>
      case Reserve(_, _) =>
      case Submit(_) =>
      case CommitTx(_) =>
      case GctReadWorker =>
      case GctReadLog =>
      case GctFlush => FlushClocks(s, s');
      case GctCommit => CommitClocks(s, s');
      case GctSkip =>
      case GctStore =>
  }

  lemma FlushClocks(s: Sys, s': Sys)
    requires ClocksOk(s) && GroupCommitProof.StepTo(s, GctFlush, s')
    ensures ClocksOk(s')
  {
    GroupCommitProof.FlushShape(s, s');
  }

  lemma CommitClocks(s: Sys, s': Sys)
    requires ClocksOk(s) && GroupCommitProof.StepTo(s, GctCommit, s')
    ensures ClocksOk(s')
  {
    GctCommitShape(s, s');
  }

  /** No precommitted transaction gets lost, and clocks go on. */
  ghost predicate Tracked(a: Sys, s: Sys) {
    && |s.workers| == |a.workers| && (forall w | 0 <= w < |a.workers| :: a.workers[w].clock <= s.workers[w].clock)
    && forall w, tx | 0 <= w < |a.workers| && tx in a.workers[w].queue :: tx in s.committed || tx in s.workers[w].queue
  }

  lemma MoveTracks(s: Sys, m: Move, s': Sys)
    requires MoveTo(s, m, s')
    ensures Tracked(s, s') && s.committed <= s'.committed
  {
    match m
    case Publish(_) =>
    case Whole(e) =>
      match e
      case StartTx(_, _) =>
      case ReadPage(_, _) =>
      case Reserve(_, _) =>
      case Submit(_) =>
      case CommitTx(w) => GroupCommitProof.PlainShape(s, e, s');
      case GctReadWorker =>
      case GctReadLog =>
      case GctFlush => GroupCommitProof.FlushShape(s, s');
      case GctCommit => CommitTracks(s, s');
      case GctSkip =>
      case GctStore =>
  }

  lemma CommitTracks(s: Sys, s': Sys)
    requires GroupCommitProof.StepTo(s, GctCommit, s')
    ensures Tracked(s, s') && s.committed <= s'.committed
  {
    GctCommitShape(s, s');
    var u := s.phase.next;
    var (queue, n) := (s.workers[u].queue, Ready(s.workers[u].queue, s.durable, s.phase.minHardened));
    assert queue == queue[..n] + queue[n..];
    forall tx | tx in queue
      ensures tx in s'.committed || tx in s'.workers[u].queue
    {
      if tx in queue[..n] {
        var i :| 0 <= i < n && queue[i] == tx;
      }
    }
  }

  lemma TrackedTwice(a: Sys, s: Sys, s': Sys)
    requires Tracked(a, s) && Tracked(s, s') && s.committed <= s'.committed
    ensures Tracked(a, s')
  {
    forall w, tx | 0 <= w < |a.workers| && tx in a.workers[w].queue
      ensures tx in s'.committed || tx in s'.workers[w].queue
    {
      assert tx in s.committed || tx in s.workers[w].queue;
    }
  }

  /** A state on the way from a. */
  ghost predicate On(a: Sys, s: Sys) {
    Leads(a, s) && SubmitSteps.Inv(s) && ClocksOk(s) && Tracked(a, s)
  }

  lemma Goes(a: Sys, s: Sys, m: Move, s': Sys)
    requires On(a, s) && MoveTo(s, m, s')
    ensures On(a, s')
  {
    LeadsFurther(a, s, m, s');
    MoveKeeps(s, m, s');
    ClocksKept(s, m, s');
    MoveTracks(s, m, s');
    TrackedTwice(a, s, s');
  }

  lemma OnShape(a: Sys, s: Sys)
    requires On(a, s)
    ensures |s.lastSeen| == |s.workers| > 0 && |a.workers| == |s.workers|
  {
  }

  // ----- workers

  /** The first i workers have nothing open and run no transaction. */
  ghost predicate Closed(s: Sys, i: nat) {
    i <= |s.workers| && forall w | 0 <= w < i :: !s.workers[w].open && !s.workers[w].running
  }

  /** Only worker w moves, and the committer does not. */
  ghost predicate OneMoves(s: Sys, s': Sys, w: nat) {
    GroupCommitProof.OneMoves(s, s', w) && s'.sync == s.sync
  }

  lemma SubmitStep(s: Sys, w: nat) returns (s': Sys)
    requires |s.lastSeen| == |s.workers| && w < |s.workers| && s.workers[w].open
    ensures MoveTo(s, Whole(Submit(w)), s') && OneMoves(s, s', w) && s'.pages == s.pages
    ensures var my := s.workers[w];
      s'.workers[w] == my.(open := false, visible := my.clock, published := |my.records|, lastGsn := my.logClock)
  {
    s' := Step(s, Submit(w)).value;
  }

  lemma CommitStep(s: Sys, w: nat) returns (s': Sys)
    requires |s.lastSeen| == |s.workers| && w < |s.workers| && !s.workers[w].open && s.workers[w].running
    ensures MoveTo(s, Whole(CommitTx(w)), s') && OneMoves(s, s', w) && s'.pages == s.pages
    ensures var my := s.workers[w];
      s'.workers[w] == my.(running := false, queue := my.queue + [Tx(my.clock, my.startTs, my.seen)],
                           precommitted := my.startTs)
  {
    s' := Step(s, CommitTx(w)).value;
  }

  lemma StartStep(s: Sys, w: nat, ts: nat) returns (s': Sys)
    requires |s.lastSeen| == |s.workers| && w < |s.workers| && !s.workers[w].running && s.workers[w].startTs < ts
    ensures MoveTo(s, Whole(StartTx(w, ts)), s') && OneMoves(s, s', w) && s'.pages == s.pages
    ensures var my := s.workers[w];
      s'.workers[w] == my.(clock := Max(my.clock, s.sync), running := true, startTs := ts, seen := {})
  {
    s' := Step(s, StartTx(w, ts)).value;
  }

  lemma ReserveStep(s: Sys, w: nat, page: nat) returns (s': Sys)
    requires |s.lastSeen| == |s.workers| && w < |s.workers| && s.workers[w].running && !s.workers[w].open
    requires !Latched(s, w, page)
    ensures MoveTo(s, Whole(Reserve(w, page)), s') && OneMoves(s, s', w)
    ensures var (my, my', gsn) := (s.workers[w], s'.workers[w], NewGsn(s, w, page));
      && s'.pages == s.pages[page := gsn] && my' == my.(clock := gsn, logClock := gsn, open := true, seen := my'.seen,
                                                        records := my.records + [Record(w, |my.records|, gsn, page)])
  {
    s' := Step(s, Reserve(w, page)).value;
  }

  lemma Closes(a: Sys, s: Sys, w: nat) returns (s': Sys)
    requires On(a, s) && w < |s.workers|
    ensures On(a, s') && OneMoves(s, s', w) && s'.pages == s.pages
    ensures !s'.workers[w].open && !s'.workers[w].running
  {
    OnShape(a, s);
    var u := s;
    if s.workers[w].open {
      u := SubmitStep(s, w);
      Goes(a, s, Whole(Submit(w)), u);
    }
    OnShape(a, u);
    s' := u;
    if u.workers[w].running {
      s' := CommitStep(u, w);
      Goes(a, u, Whole(CommitTx(w)), s');
    }
  }

  lemma {:induction false} CloseAll(a: Sys, s: Sys, i: nat) returns (s': Sys)
    requires On(a, s) && i <= |s.workers|
    ensures On(a, s') && |s'.workers| == |s.workers| && Closed(s', i) && s'.phase == s.phase
    decreases i
  {
    if i == 0 {
      s' := s;
    } else {
      var u := CloseAll(a, s, i - 1);
      s' := Closes(a, u, i - 1);
    }
  }

  // ----- one transaction of every worker, on one page

  ghost predicate NotOpen(s: Sys) {
    forall w | 0 <= w < |s.workers| :: !s.workers[w].open
  }

  lemma NoLatches(s: Sys, w: nat, page: nat)
    requires NotOpen(s)
    ensures !Latched(s, w, page)
  {
  }

  /** Worker w has run a transaction that wrote one record on the page. */
  ghost predicate Passed(s: Sys, s': Sys, w: nat, page: nat, ts: nat) {
    && OneMoves(s, s', w)
    && var (my, my') := (s.workers[w], s'.workers[w]);
       && my.clock < my'.clock && PageGsn(s, page) < my'.clock == PageGsn(s', page) == my'.lastGsn == my'.logClock
       && my'.startTs == my'.precommitted == ts && my.queue <= my'.queue && my.logClock < my'.logClock
       && !my'.open && !my'.running && my'.written == my.written
  }

  lemma PassSteps(s: Sys, w: nat, page: nat, ts: nat) returns (s1: Sys, s2: Sys, s3: Sys, s': Sys)
    requires |s.lastSeen| == |s.workers| && w < |s.workers| && NotOpen(s) && !s.workers[w].running
    requires s.workers[w].startTs < ts
    ensures MoveTo(s, Whole(StartTx(w, ts)), s1) && MoveTo(s1, Whole(Reserve(w, page)), s2)
    ensures MoveTo(s2, Whole(Submit(w)), s3) && MoveTo(s3, Whole(CommitTx(w)), s') && Passed(s, s', w, page, ts)
  {
    s1 := StartStep(s, w, ts);
    NoLatches(s1, w, page);
    s2 := ReserveStep(s1, w, page);
    s3 := SubmitStep(s2, w);
    s' := CommitStep(s3, w);
  }

  lemma Passes(a: Sys, s: Sys, w: nat, page: nat, ts: nat) returns (s': Sys)
    requires On(a, s) && w < |s.workers| && Closed(s, |s.workers|) && s.workers[w].startTs < ts
    ensures On(a, s') && Passed(s, s', w, page, ts) && Closed(s', |s'.workers|)
  {
    OnShape(a, s);
    var s1, s2, s3;
    s1, s2, s3, s' := PassSteps(s, w, page, ts);
    Goes(a, s, Whole(StartTx(w, ts)), s1);
    Goes(a, s1, Whole(Reserve(w, page)), s2);
    Goes(a, s2, Whole(Submit(w)), s3);
    Goes(a, s3, Whole(CommitTx(w)), s');
  }

  /** The first i workers have done so since s; their clocks are between the page's GSN then and now. */
  ghost predicate RoundOf(s: Sys, s': Sys, i: nat, page: nat, ts: nat) {
    && |s'.workers| == |s.workers| && i <= |s.workers| && s'.phase == s.phase && s'.lastSeen == s.lastSeen
    && s'.committed == s.committed
    && PageGsn(s, page) <= PageGsn(s', page)
    && (forall w | 0 <= w < i :: WorkerPassed(s.workers[w], s'.workers[w], PageGsn(s, page), PageGsn(s', page), ts))
    && (forall w | i <= w < |s.workers| :: s'.workers[w] == s.workers[w])
  }

  ghost predicate WorkerPassed(my: Worker, my': Worker, low: nat, high: nat, ts: nat) {
    && low < my'.clock <= high && my.clock < my'.clock == my'.lastGsn && my.logClock < my'.clock
    && my'.precommitted == my'.startTs == ts && my.queue <= my'.queue && my'.written == my.written
  }

  lemma {:induction false} AllPass(a: Sys, s: Sys, i: nat, page: nat, ts: nat) returns (s': Sys)
    requires On(a, s) && i <= |s.workers| && Closed(s, |s.workers|)
    requires forall w | 0 <= w < |s.workers| :: s.workers[w].startTs < ts
    ensures On(a, s') && Closed(s', |s'.workers|) && RoundOf(s, s', i, page, ts)
    decreases i
  {
    if i == 0 {
      s' := s;
    } else {
      var u := AllPass(a, s, i - 1, page, ts);
      s' := Passes(a, u, i - 1, page, ts);
      OneMore(s, u, s', i, page, ts);
    }
  }

  lemma OneMore(s: Sys, u: Sys, s': Sys, i: nat, page: nat, ts: nat)
    requires 0 < i && RoundOf(s, u, i - 1, page, ts) && i <= |s.workers| && Passed(u, s', i - 1, page, ts)
    ensures RoundOf(s, s', i, page, ts)
  {
    forall w | 0 <= w < i
      ensures WorkerPassed(s.workers[w], s'.workers[w], PageGsn(s, page), PageGsn(s', page), ts)
    {
      if w < i - 1 {
        assert WorkerPassed(s.workers[w], u.workers[w], PageGsn(s, page), PageGsn(u, page), ts);
      }
    }
  }

  lemma {:induction false} SomeTs(s: Sys, i: nat) returns (ts: nat)
    requires i <= |s.workers|
    ensures forall w | 0 <= w < i :: s.workers[w].startTs < ts
    decreases i
  {
    ts := 1;
    if i > 0 {
      var t := SomeTs(s, i - 1);
      ts := if t <= s.workers[i - 1].startTs then s.workers[i - 1].startTs + 1 else t;
    }
  }

  /** Every log shows a GSN above gsn, every worker has hardened ts, and the queues begin with older transactions. */
  ghost predicate Raised(s: Sys, was: seq<seq<Tx>>, gsn: nat, ts: nat) {
    && |was| == |s.workers| == |s.lastSeen| && Closed(s, |s.workers|)
    && forall w | 0 <= w < |s.workers| ::
         && gsn < s.workers[w].lastGsn && s.lastSeen[w] < s.workers[w].lastGsn && ts <= s.workers[w].precommitted
         && was[w] <= s.workers[w].queue && Older(was[w], gsn, ts)
  }

  ghost predicate Older(queue: seq<Tx>, gsn: nat, ts: nat) {
    forall i | 0 <= i < |queue| :: queue[i].maxGsn <= gsn && queue[i].startTs <= ts
  }

  function Queues(s: Sys): (r: seq<seq<Tx>>) {
    seq(|s.workers|, w requires 0 <= w < |s.workers| => s.workers[w].queue)
  }

  lemma QueueFacts(a: Sys, s: Sys, w: nat)
    requires On(a, s) && w < |s.workers|
    ensures |s.lastSeen| == |s.workers| && s.lastSeen[w] <= s.workers[w].logClock
    ensures Older(s.workers[w].queue, s.workers[w].clock, s.workers[w].precommitted)
  {
    SubmitSteps.WorkerFacts(s, w);
    assert WorkerOk(s, w) && ClockOk(s.workers[w]);
  }

  /** Two transactions of every worker raise everything. */
  lemma Raises(a: Sys, s: Sys) returns (s': Sys, was: seq<seq<Tx>>, gsn: nat, ts: nat)
    requires On(a, s) && Closed(s, |s.workers|)
    ensures On(a, s') && Raised(s', was, gsn, ts) && s'.phase == s.phase && s'.committed == s.committed
    ensures |was| == |s.workers| && forall w | 0 <= w < |was| :: s.workers[w].queue <= was[w]
    ensures forall w | 0 <= w < |s.workers| :: s.workers[w].clock <= gsn
  {
    OnShape(a, s);
    var (n, page) := (|s.workers|, 0);
    ts := SomeTs(s, n);
    var u := AllPass(a, s, n, page, ts);
    s' := AllPass(a, u, n, page, ts + 1);
    was, gsn := Queues(u), PageGsn(u, page);
    forall w | 0 <= w < n
      ensures gsn < s'.workers[w].lastGsn && s'.lastSeen[w] < s'.workers[w].lastGsn && ts <= s'.workers[w].precommitted
      ensures was[w] <= s'.workers[w].queue && Older(was[w], gsn, ts) && s.workers[w].queue <= was[w]
      ensures s.workers[w].clock <= gsn
    {
      RaisedAt(a, s, u, s', w, page, ts);
    }
  }

  lemma RaisedAt(a: Sys, s: Sys, u: Sys, s': Sys, w: nat, page: nat, ts: nat)
    requires On(a, u) && RoundOf(s, u, |s.workers|, page, ts) && RoundOf(u, s', |u.workers|, page, ts + 1)
    requires w < |s.workers|
    ensures |s'.lastSeen| == |s'.workers| == |s.workers|
    ensures PageGsn(u, page) < s'.workers[w].lastGsn && s'.lastSeen[w] < s'.workers[w].lastGsn
    ensures ts <= s'.workers[w].precommitted && u.workers[w].queue <= s'.workers[w].queue
    ensures Older(u.workers[w].queue, PageGsn(u, page), ts) && s.workers[w].queue <= u.workers[w].queue
    ensures s.workers[w].clock <= PageGsn(u, page)
  {
    QueueFacts(a, u, w);
    assert WorkerPassed(s.workers[w], u.workers[w], PageGsn(s, page), PageGsn(u, page), ts);
    assert WorkerPassed(u.workers[w], s'.workers[w], PageGsn(u, page), PageGsn(s', page), ts + 1);
  }

  // ----- the committer's round

  /** The committer's phase is all that differs. */
  ghost predicate OnlyPhase(s: Sys, s': Sys) {
    s' == s.(phase := s'.phase)
  }

  lemma PhaseFacts(a: Sys, s: Sys)
    requires On(a, s)
    ensures s.phase.ReadWorkers? ==> |s.phase.visible| == |s.phase.hardened| < |s.workers|
    ensures s.phase.ReadLogs? ==>
              |s.phase.visible| == |s.phase.hardened| == |s.workers| && |s.phase.copies| <= |s.workers|
    ensures s.phase.Committing? ==> s.phase.next <= |s.workers|
  {
  }

  /** From a fresh start: the hardened timestamps are those of the workers. */
  ghost predicate HardenedNow(s: Sys, hs: seq<nat>) {
    |hs| <= |s.workers| && forall i | 0 <= i < |hs| :: hs[i] == s.workers[i].precommitted
  }

  lemma ReadWorkerStep(s: Sys) returns (s': Sys)
    requires |s.lastSeen| == |s.workers| > 0 && s.phase.ReadWorkers?
    requires |s.phase.visible| == |s.phase.hardened| < |s.workers|
    ensures MoveTo(s, Whole(GctReadWorker), s') && OnlyPhase(s, s')
    ensures s'.phase.ReadWorkers? || (s'.phase.ReadLogs? && s'.phase.copies == [])
    ensures |s'.phase.hardened| == |s.phase.hardened| + 1 == |s'.phase.visible|
    ensures s'.phase.ReadWorkers? <==> |s'.phase.hardened| < |s.workers|
    ensures HardenedNow(s, s.phase.hardened) ==> HardenedNow(s, s'.phase.hardened)
  {
    s' := Step(s, GctReadWorker).value;
  }

  lemma {:induction false} ReadsWorkers(a: Sys, s: Sys) returns (s': Sys)
    requires On(a, s) && s.phase.ReadWorkers?
    ensures On(a, s') && OnlyPhase(s, s') && s'.phase.ReadLogs? && s'.phase.copies == []
    ensures |s'.phase.hardened| == |s'.workers|
    ensures HardenedNow(s, s.phase.hardened) ==> HardenedNow(s, s'.phase.hardened)
    decreases |s.workers| - |s.phase.hardened|
  {
    OnShape(a, s);
    PhaseFacts(a, s);
    var u := ReadWorkerStep(s);
    Goes(a, s, Whole(GctReadWorker), u);
    if u.phase.ReadLogs? {
      s' := u;
    } else {
      s' := ReadsWorkers(a, u);
    }
  }

  /** The copies are what the logs show now. */
  ghost predicate CopiesNow(s: Sys, copies: seq<Copy>) {
    |copies| <= |s.workers| && forall i | 0 <= i < |copies| :: copies[i].gsn == s.workers[i].lastGsn
  }

  lemma ReadLogStep(s: Sys) returns (s': Sys)
    requires |s.lastSeen| == |s.workers| > 0 && s.phase.ReadLogs? && |s.phase.copies| < |s.workers|
    ensures MoveTo(s, Whole(GctReadLog), s') && OnlyPhase(s, s') && s'.phase.ReadLogs?
    ensures s'.phase.hardened == s.phase.hardened && |s'.phase.copies| == |s.phase.copies| + 1
    ensures CopiesNow(s, s.phase.copies) ==> CopiesNow(s, s'.phase.copies)
  {
    s' := Step(s, GctReadLog).value;
  }

  lemma {:induction false} ReadsLogs(a: Sys, s: Sys) returns (s': Sys)
    requires On(a, s) && s.phase.ReadLogs? && |s.phase.copies| <= |s.workers|
    ensures On(a, s') && OnlyPhase(s, s') && s'.phase.ReadLogs? && |s'.phase.copies| == |s'.workers|
    ensures s'.phase.hardened == s.phase.hardened
    ensures CopiesNow(s, s.phase.copies) ==> CopiesNow(s, s'.phase.copies)
    decreases |s.workers| - |s.phase.copies|
  {
    OnShape(a, s);
    if |s.phase.copies| == |s.workers| {
      s' := s;
    } else {
      var u := ReadLogStep(s);
      Goes(a, s, Whole(GctReadLog), u);
      s' := ReadsLogs(a, u);
    }
  }

  /** What a flush leaves of the workers. */
  ghost predicate QueuesKept(s: Sys, s': Sys) {
    && |s'.workers| == |s.workers|
    && forall w | 0 <= w < |s.workers| ::
         && s'.workers[w].queue == s.workers[w].queue && s'.workers[w].open == s.workers[w].open
         && s'.workers[w].running == s.workers[w].running
  }

  lemma FlushStep(s: Sys) returns (s': Sys)
    requires |s.lastSeen| == |s.workers| > 0 && s.phase.ReadLogs?
    requires |s.phase.copies| == |s.phase.visible| == |s.phase.hardened| == |s.workers|
    requires Gsns(s.phase.copies) != s.lastSeen
    ensures MoveTo(s, Whole(GctFlush), s') && QueuesKept(s, s') && s'.committed == s.committed
    ensures s'.phase.Committing? && s'.phase.next == 0 && s'.phase.minHardened == MinAll(s.phase.hardened)
    ensures Watermark(s.phase.visible, Gsns(s.phase.copies), s.lastSeen) == Some(s'.durable)
  {
    WatermarkBounds(s.phase.visible, Gsns(s.phase.copies), s.lastSeen, 0);
    s' := Step(s, GctFlush).value;
  }

  lemma SkipStep(s: Sys) returns (s': Sys)
    requires |s.lastSeen| == |s.workers| > 0 && s.phase.ReadLogs? && Gsns(s.phase.copies) == s.lastSeen
    ensures MoveTo(s, Whole(GctSkip), s') && s' == s.(phase := ReadWorkers([], []))
  {
    s' := Step(s, GctSkip).value;
  }

  lemma StoreStep(s: Sys) returns (s': Sys)
    requires |s.lastSeen| == |s.workers| > 0 && s.phase.Committing? && s.phase.next == |s.workers|
    ensures MoveTo(s, Whole(GctStore), s') && s'.phase == ReadWorkers([], []) && s'.workers == s.workers
    ensures s'.committed == s.committed && s'.flushed == s.durable
  {
    s' := Step(s, GctStore).value;
  }

  lemma CommitLoopStep(s: Sys) returns (s': Sys)
    requires |s.lastSeen| == |s.workers| > 0 && s.phase.Committing? && s.phase.next < |s.workers|
    ensures MoveTo(s, Whole(GctCommit), s') && |s'.workers| == |s.workers| && s.committed <= s'.committed
    ensures s'.phase == Committing(s.phase.next + 1, s.phase.minHardened, s.phase.maxLogs) && s'.durable == s.durable
    ensures forall w | 0 <= w < |s.workers| && w != s.phase.next :: s'.workers[w] == s.workers[w]
    ensures var (u, n) := (s.phase.next, Ready(s.workers[s.phase.next].queue, s.durable, s.phase.minHardened));
      && s'.workers[u] == s.workers[u].(queue := s.workers[u].queue[n..])
      && AllIn(s.workers[u].queue[..n], s'.committed)
  {
    s' := Step(s, GctCommit).value;
  }

  /** The queues of the workers still to come begin with transactions that this round commits. */
  ghost predicate ToCommit(s: Sys, was: seq<seq<Tx>>) {
    && s.phase.Committing? && |was| == |s.workers| && s.phase.next <= |was|
    && (forall w | 0 <= w < s.phase.next && w < |was| :: AllIn(was[w], s.committed))
    && (forall w | s.phase.next <= w < |was| ::
          was[w] <= s.workers[w].queue && Older(was[w], s.durable, s.phase.minHardened))
  }

  ghost predicate AllIn(queue: seq<Tx>, committed: set<Tx>) {
    forall i | 0 <= i < |queue| :: queue[i] in committed
  }

  lemma TakesPrefix(was: seq<Tx>, queue: seq<Tx>, durable: nat, hardened: nat)
    requires was <= queue && Older(was, durable, hardened)
    ensures |was| <= Ready(queue, durable, hardened)
  {
    assert forall i | 0 <= i < |was| :: queue[i] == was[i];
  }

  lemma ToCommitKept(s: Sys, s': Sys, was: seq<seq<Tx>>)
    requires ToCommit(s, was) && s.phase.next < |s.workers| == |s'.workers| && s.committed <= s'.committed
    requires s'.phase == Committing(s.phase.next + 1, s.phase.minHardened, s.phase.maxLogs) && s'.durable == s.durable
    requires forall w | 0 <= w < |s.workers| && w != s.phase.next :: s'.workers[w] == s.workers[w]
    requires var (queue, h) := (s.workers[s.phase.next].queue, s.phase.minHardened);
             AllIn(queue[..Ready(queue, s.durable, h)], s'.committed)
    ensures ToCommit(s', was)
  {
    var u := s.phase.next;
    TakesPrefix(was[u], s.workers[u].queue, s.durable, s.phase.minHardened);
    forall w | 0 <= w <= u
      ensures AllIn(was[w], s'.committed)
    {
      if w < u {
        assert AllIn(was[w], s.committed);
      } else {
        forall i | 0 <= i < |was[u]|
          ensures was[u][i] in s'.committed
        {
          var (queue, n) := (s.workers[u].queue, Ready(s.workers[u].queue, s.durable, s.phase.minHardened));
          assert was[u][i] == queue[i] == queue[..n][i];
        }
      }
    }
    forall w | u < w < |was|
      ensures was[w] <= s'.workers[w].queue && Older(was[w], s'.durable, s'.phase.minHardened)
    {
      assert was[w] <= s.workers[w].queue;
    }
  }

  lemma {:induction false} CommitsAll(a: Sys, s: Sys, was: seq<seq<Tx>>) returns (s': Sys)
    requires On(a, s) && ToCommit(s, was)
    ensures On(a, s') && s'.phase == ReadWorkers([], []) && |s'.workers| == |s.workers| && s.committed <= s'.committed
    ensures |was| == |s'.workers| && forall w | 0 <= w < |was| :: AllIn(was[w], s'.committed)
    ensures s'.flushed == s.durable
    decreases |s.workers| - s.phase.next
  {
    OnShape(a, s);
    if s.phase.next == |s.workers| {
      s' := StoreStep(s);
      Goes(a, s, Whole(GctStore), s');
    } else {
      var u := CommitLoopStep(s);
      Goes(a, s, Whole(GctCommit), u);
      ToCommitKept(s, u, was);
      s' := CommitsAll(a, u, was);
    }
  }

  lemma NothingToCommit(s: Sys) returns (was: seq<seq<Tx>>)
    requires s.phase.Committing? && s.phase.next <= |s.workers|
    ensures ToCommit(s, was)
  {
    was := seq(|s.workers|, i => []);
  }

  /** A round in progress comes to its end. */
  lemma RoundEnds(a: Sys, s: Sys) returns (s': Sys)
    requires On(a, s)
    ensures On(a, s') && s'.phase == ReadWorkers([], []) && |s'.workers| == |s.workers|
  {
    OnShape(a, s);
    PhaseFacts(a, s);
    if s.phase.Committing? {
      var was := NothingToCommit(s);
      s' := CommitsAll(a, s, was);
    } else {
      var u := s;
      if s.phase.ReadWorkers? {
        u := ReadsWorkers(a, s);
      }
      var u1 := ReadsLogs(a, u);
      PhaseFacts(a, u1);
      if Gsns(u1.phase.copies) == u1.lastSeen {
        s' := SkipStep(u1);
        Goes(a, u1, Whole(GctSkip), s');
      } else {
        var u2 := FlushStep(u1);
        Goes(a, u1, Whole(GctFlush), u2);
        var was := NothingToCommit(u2);
        s' := CommitsAll(a, u2, was);
      }
    }
  }

  /** All logs have news, so the watermark is the least of their GSNs. */
  lemma AllActive(vs: seq<nat>, gsns: seq<nat>, lastSeen: seq<nat>, gsn: nat, d: nat)
    requires |vs| == |gsns| == |lastSeen| > 0 && Watermark(vs, gsns, lastSeen) == Some(d)
    requires forall i | 0 <= i < |gsns| :: gsn < gsns[i] != lastSeen[i]
    ensures gsn < d
  {
    var (active, straggler) := (MinLogs(gsns, lastSeen, true), MinLogs(gsns, lastSeen, false));
    assert straggler.None?;
    var i :| 0 <= i < |gsns| && active.value == gsns[i];
  }

  /** A whole round after the logs have been raised commits what was queued before. */
  lemma RaisedRound(a: Sys, s: Sys, was: seq<seq<Tx>>, gsn: nat, ts: nat) returns (s': Sys)
    requires On(a, s) && s.phase == ReadWorkers([], []) && Raised(s, was, gsn, ts)
    ensures On(a, s') && s.committed <= s'.committed && gsn < s'.flushed
    ensures |was| == |s'.workers| && forall w | 0 <= w < |was| :: AllIn(was[w], s'.committed)
  {
    var u := ReadsAll(a, s);
    NewsEverywhere(s, u, was, gsn, ts);
    var u1 := FlushStep(u);
    Goes(a, u, Whole(GctFlush), u1);
    AllActive(u.phase.visible, Gsns(u.phase.copies), u.lastSeen, gsn, u1.durable);
    FlushedToCommit(s, u1, was, gsn, ts, u.phase.hardened);
    s' := CommitsAll(a, u1, was);
  }

  lemma ReadsAll(a: Sys, s: Sys) returns (s': Sys)
    requires On(a, s) && s.phase == ReadWorkers([], [])
    ensures On(a, s') && OnlyPhase(s, s') && s'.phase.ReadLogs? && |s.lastSeen| == |s.workers| > 0
    ensures |s'.phase.copies| == |s'.phase.visible| == |s'.phase.hardened| == |s.workers|
    ensures HardenedNow(s, s'.phase.hardened) && CopiesNow(s, s'.phase.copies)
  {
    OnShape(a, s);
    var u := ReadsWorkers(a, s);
    s' := ReadsLogs(a, u);
    PhaseFacts(a, s');
  }

  lemma NewsEverywhere(s: Sys, u: Sys, was: seq<seq<Tx>>, gsn: nat, ts: nat)
    requires Raised(s, was, gsn, ts) && |s.workers| > 0 && OnlyPhase(s, u) && u.phase.ReadLogs?
    requires |u.phase.copies| == |s.workers| && CopiesNow(s, u.phase.copies)
    ensures forall i | 0 <= i < |s.workers| :: gsn < Gsns(u.phase.copies)[i] != u.lastSeen[i]
    ensures Gsns(u.phase.copies) != u.lastSeen
  {
    assert Gsns(u.phase.copies)[0] != u.lastSeen[0];
  }

  lemma FlushedToCommit(s: Sys, u: Sys, was: seq<seq<Tx>>, gsn: nat, ts: nat, hs: seq<nat>)
    requires Raised(s, was, gsn, ts) && QueuesKept(s, u) && gsn < u.durable
    requires |hs| == |s.workers| > 0 && HardenedNow(s, hs)
    requires u.phase.Committing? && u.phase.next == 0 && u.phase.minHardened == MinAll(hs)
    ensures ToCommit(u, was)
  {
    var i :| 0 <= i < |hs| && hs[i] == MinAll(hs);
    forall w | 0 <= w < |was|
      ensures was[w] <= u.workers[w].queue && Older(was[w], u.durable, u.phase.minHardened)
    {
      assert Older(was[w], gsn, ts);
    }
  }

  // ----- over runs

  lemma {:induction false} RunClocks(n: nat, split: bool, states: seq<Sys>, moves: seq<Move>, k: nat)
    requires Run(n, split, states, moves) && k <= |moves|
    ensures ClocksOk(states[k])
  {
    if k > 0 {
      RunClocks(n, split, states, moves, k - 1);
      assert MoveAt(states, moves, k - 1);
      ClocksKept(states[k - 1], moves[k - 1], states[k]);
    }
  }

  lemma OnInRuns(n: nat, split: bool, states: seq<Sys>, moves: seq<Move>, k: nat)
    requires Run(n, split, states, moves) && k <= |moves|
    ensures On(states[k], states[k])
  {
    RunKeeps(n, split, states, moves, k);
    RunClocks(n, split, states, moves, k);
    var (s, none: seq<Move>) := (states[k], []);
    assert Path([s], none) && [s][0] == s && [s][|none|] == s;
  }

  lemma TrackedCommitted(a: Sys, s: Sys, s': Sys, was: seq<seq<Tx>>)
    requires Tracked(a, s) && |was| == |s.workers| && s.committed <= s'.committed
    requires forall w | 0 <= w < |was| :: s.workers[w].queue <= was[w] && AllIn(was[w], s'.committed)
    ensures forall w, tx | 0 <= w < |a.workers| && tx in a.workers[w].queue :: tx in s'.committed
  {
    forall w, tx | 0 <= w < |a.workers| && tx in a.workers[w].queue
      ensures tx in s'.committed
    {
      if tx in s.workers[w].queue {
        var i :| 0 <= i < |s.workers[w].queue| && s.workers[w].queue[i] == tx;
        assert was[w][i] == tx;
      }
    }
  }

  lemma OnHere(s: Sys)
    requires SubmitSteps.Inv(s) && ClocksOk(s)
    ensures On(s, s)
  {
    var none: seq<Move> := [];
    assert Path([s], none) && [s][0] == s && [s][|none|] == s;
  }

  lemma LeadsTwice(a: Sys, b: Sys, c: Sys)
    requires Leads(a, b) && Leads(b, c)
    ensures Leads(a, c)
  {
    var xs, es :| Path(xs, es) && xs[0] == a && xs[|es|] == b;
    var ys, fs :| Path(ys, fs) && ys[0] == b && ys[|fs|] == c;
    var (states, moves) := (xs + ys[1..], es + fs);
    forall i | 0 <= i < |moves|
      ensures MoveAt(states, moves, i)
    {
      if i < |es| {
        assert MoveAt(xs, es, i);
        assert states[i] == xs[i] && states[i + 1] == xs[i + 1];
      } else {
        assert MoveAt(ys, fs, i - |es|);
        assert states[i] == ys[i - |es|] && states[i + 1] == ys[i - |es| + 1];
      }
    }
    assert Path(states, moves) && states[0] == a && states[|moves|] == c;
  }

  /** All that is queued now can be committed. */
  lemma QueuesCommit(a: Sys) returns (s': Sys)
    requires On(a, a)
    ensures Leads(a, s') && forall w | 0 <= w < |a.workers| :: a.workers[w].clock < s'.flushed
    ensures forall w, tx | 0 <= w < |a.workers| && tx in a.workers[w].queue :: tx in s'.committed
  {
    var u := RoundEnds(a, a);
    var u1 := CloseAll(a, u, |u.workers|);
    var u2, was, gsn, ts := Raises(a, u1);
    s' := RaisedRound(a, u2, was, gsn, ts);
    TrackedCommitted(a, u1, s', was);
  }

  /**
    From every state of every run, with submit() in one step or in two, there is a continuation after which every
    transaction that was precommitted is committed, and the stored watermark is above every GSN assigned so far.
   */
  lemma EverythingCommits(n: nat, split: bool, states: seq<Sys>, moves: seq<Move>, k: nat) returns (s': Sys)
    requires Run(n, split, states, moves) && k <= |moves|
    ensures Leads(states[k], s') && forall w | 0 <= w < |states[k].workers| :: states[k].workers[w].clock < s'.flushed
    ensures forall w, tx | 0 <= w < |states[k].workers| && tx in states[k].workers[w].queue :: tx in s'.committed
  {
    OnInRuns(n, split, states, moves, k);
    s' := QueuesCommit(states[k]);
  }

  // ----- a reader

  lemma ReadStep(s: Sys, w: nat, page: nat) returns (s': Sys)
    requires |s.lastSeen| == |s.workers| && w < |s.workers| && s.workers[w].running && !Latched(s, w, page)
    ensures MoveTo(s, Whole(ReadPage(w, page)), s') && OneMoves(s, s', w)
    ensures s'.workers[w]
            == s.workers[w].(clock := Max(s.workers[w].clock, PageGsn(s, page)), seen := s'.workers[w].seen)
    ensures forall r | IsRecord(s, r) && r.page == page :: r in s'.workers[w].seen
  {
    s' := Step(s, ReadPage(w, page)).value;
  }

  lemma ReadSteps(s: Sys, w: nat, page: nat) returns (s1: Sys, s2: Sys, s': Sys, tx: Tx)
    requires |s.lastSeen| == |s.workers| && w < |s.workers| && Closed(s, |s.workers|)
    ensures MoveTo(s, Whole(StartTx(w, s.workers[w].startTs + 1)), s1) && MoveTo(s1, Whole(ReadPage(w, page)), s2)
    ensures MoveTo(s2, Whole(CommitTx(w)), s') && |s'.workers| == |s.workers| && tx in s'.workers[w].queue
    ensures forall r | IsRecord(s, r) && r.page == page :: r in tx.seen
  {
    s1 := StartStep(s, w, s.workers[w].startTs + 1);
    NoLatches(s1, w, page);
    s2 := ReadStep(s1, w, page);
    s' := CommitStep(s2, w);
    var my := s2.workers[w];
    tx := Tx(my.clock, my.startTs, my.seen);
    assert s'.workers[w].queue[|my.queue|] == tx;
    assert forall r | IsRecord(s, r) :: IsRecord(s1, r);
  }

  /** From every state of every run: a transaction of any worker can read any page and commit. */
  lemma ReaderCommits(n: nat, split: bool, states: seq<Sys>, moves: seq<Move>, k: nat, w: nat, page: nat)
    returns (s: Sys, s': Sys, tx: Tx)
    requires Run(n, split, states, moves) && k <= |moves| && w < |states[k].workers|
    ensures Leads(states[k], s) && Leads(s, s') && tx in s'.committed
    ensures forall r | IsRecord(s, r) && r.page == page :: r in tx.seen
  {
    var a := states[k];
    OnInRuns(n, split, states, moves, k);
    s := CloseAll(a, a, |a.workers|);
    OnShape(a, s);
    var s1, s2, s3;
    s1, s2, s3, tx := ReadSteps(s, w, page);
    OnHere(s);
    Goes(s, s, Whole(StartTx(w, s.workers[w].startTs + 1)), s1);
    Goes(s, s1, Whole(ReadPage(w, page)), s2);
    Goes(s, s2, Whole(CommitTx(w)), s3);
    OnHere(s3);
    s' := QueuesCommit(s3);
    LeadsTwice(s, s3, s');
  }

  // ----- the clock of a new transaction

  /** What the committer has seen is at most the GSN to which workers synchronize. */
  ghost predicate SyncOk(s: Sys) {
    forall w | 0 <= w < |s.lastSeen| :: s.lastSeen[w] <= if s.phase.Committing? then s.phase.maxLogs else s.sync
  }

  lemma SyncKept(s: Sys, m: Move, s': Sys)
    requires SyncOk(s) && MoveTo(s, m, s')
    ensures SyncOk(s')
  {
    match m
    case Publish(_) =>
    case Whole(e) =>
      match e
      case GctFlush => FlushSync(s, s');
      case _ =>
  }

  lemma FlushSync(s: Sys, s': Sys)
    requires GroupCommitProof.StepTo(s, GctFlush, s')
    ensures SyncOk(s')
  {
    GroupCommitProof.FlushShape(s, s');
    assert s'.phase.maxLogs == MaxAll(Gsns(s.phase.copies));
  }

  lemma {:induction false} RunSync(n: nat, split: bool, states: seq<Sys>, moves: seq<Move>, k: nat)
    requires Run(n, split, states, moves) && k <= |moves|
    ensures SyncOk(states[k])
  {
    if k > 0 {
      RunSync(n, split, states, moves, k - 1);
      SyncAt(n, split, states, moves, k - 1);
    }
  }

  lemma SyncAt(n: nat, split: bool, states: seq<Sys>, moves: seq<Move>, k: nat)
    requires Run(n, split, states, moves) && k < |moves| && SyncOk(states[k])
    ensures SyncOk(states[k + 1])
  {
    assert MoveAt(states, moves, k);
    SyncKept(states[k], moves[k], states[k + 1]);
  }

  lemma WrittenSeen(s: Sys, r: Record)
    requires SubmitSteps.Inv(s) && IsWritten(s, r)
    ensures r.log < |s.lastSeen| && r.gsn <= s.lastSeen[r.log]
  {
    SubmitSteps.WorkerFacts(s, r.log);
  }

  /** A transaction that starts outside the commit loop has a clock at or above every written record of every log. */
  lemma StartsAboveWritten(n: nat, split: bool, states: seq<Sys>, moves: seq<Move>, k: nat, w: nat, ts: nat, r: Record)
    requires Run(n, split, states, moves) && k < |moves| && moves[k] == Whole(StartTx(w, ts))
    requires !states[k].phase.Committing? && IsWritten(states[k], r)
    ensures w < |states[k + 1].workers| && r.gsn <= states[k + 1].workers[w].clock
  {
    RunKeeps(n, split, states, moves, k);
    RunSync(n, split, states, moves, k);
    assert MoveAt(states, moves, k);
    WrittenSeen(states[k], r);
  }
}
