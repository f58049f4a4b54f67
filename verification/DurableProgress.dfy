/**
  The joint machine commits: for every number of workers and every record there is a run that ends with the record's
  transaction committed and the record on the device.
 */
module DurableProgress {
  import opened Wrappers
  import opened GroupCommit
  import GroupCommitProof
  import opened SubmitSteps
  import Wal = WalMachine
  import WalHistory
  import WalProof
  import WalProgress
  import CommitProgress
  import Align
  import opened DurableCommit

  // ----- going on

  ghost predicate Reaches(c: Wal.Config, n: nat, j: Joint) {
    exists joints, actions :: DurableCommit.Run(c, n, joints, actions) && j == joints[|actions|]
  }

  /** NewsOk of every log. */
  ghost predicate AllNews(j: Joint) {
    forall i | 0 <= i < |j.logs| :: |j.logs[i].hist.ends| == |j.logs[i].log.holes| && WalProgress.NewsOk(j.logs[i])
  }

  ghost predicate On(c: Wal.Config, n: nat, j: Joint) {
    && Wal.ValidConfig(c) && Reaches(c, n, j) && DurableCommit.Inv(c, j) && AllNews(j)
    && |j.logs| == |j.sys.workers| == |j.sys.lastSeen| == n > 0
  }

  lemma ReachesNext(c: Wal.Config, n: nat, j: Joint, a: Action, j': Joint)
    requires Reaches(c, n, j) && DurableCommit.StepTo(c, j, a, j')
    ensures Reaches(c, n, j')
  {
    var joints: seq<Joint>, actions: seq<Action> :| DurableCommit.Run(c, n, joints, actions) && j == joints[|actions|];
    var (joints', actions') := (joints + [j'], actions + [a]);
    forall i | 0 <= i < |actions'|
      ensures DurableCommit.StepAt(c, joints', actions', i)
    {
      assert i < |actions| ==> DurableCommit.StepAt(c, joints, actions, i);
    }
    assert DurableCommit.Run(c, n, joints', actions') && j' == joints'[|actions'|];
  }

  lemma NewsNext(c: Wal.Config, j: Joint, a: Action, j': Joint)
    requires Wal.ValidConfig(c) && DurableCommit.Inv(c, j) && DurableCommit.Inv(c, j') && AllNews(j)
    requires DurableCommit.StepTo(c, j, a, j')
    ensures AllNews(j')
  {
    forall i | 0 <= i < |j'.logs|
      ensures |j'.logs[i].hist.ends| == |j'.logs[i].log.holes| && WalProgress.NewsOk(j'.logs[i])
    {
      if j'.logs[i] != j.logs[i] {
        var e := LogEvent(c, j, a, j', i);
        assert WalHistory.Inv(c, j.logs[i]) && WalHistory.Inv(c, j'.logs[i]);
        WalProgress.NewsKept(c, j.logs[i], e, j'.logs[i]);
      }
    }
  }

  lemma Goes(c: Wal.Config, n: nat, j: Joint, a: Action, j': Joint)
    requires On(c, n, j) && DurableCommit.StepTo(c, j, a, j')
    ensures On(c, n, j')
  {
    ReachesNext(c, n, j, a, j');
    DurableCommit.StepKeeps(c, j, a, j');
    NewsNext(c, j, a, j');
  }

  lemma OnShape(c: Wal.Config, n: nat, j: Joint)
    requires On(c, n, j)
    ensures |j.logs| == |j.sys.workers| == |j.sys.lastSeen| == n > 0
  {
  }

  /** The same joint state with another log w. */
  function WithLog(j: Joint, w: nat, x: World): (r: Joint)
    requires w < |j.logs|
  {
    j.(logs := j.logs[w := x])
  }

  lemma LogOn(c: Wal.Config, n: nat, j: Joint, w: nat)
    requires On(c, n, j) && w < n
    ensures WalProgress.On(c, true, j.logs[w], j.logs[w])
  {
    var (x, none: seq<Wal.Event>) := (j.logs[w], []);
    assert WalProgress.Path(c, [x], none) && [x][0] == x && [x][|none|] == x && WalProgress.AllLocal(none);
    assert WalHistory.Inv(c, x) && WalProgress.NewsOk(x);
  }

  lemma OneLocal(c: Wal.Config, n: nat, j: Joint, w: nat, e: Wal.Event, x: World)
    requires On(c, n, j) && w < n && WalHistory.StepTo(c, j.logs[w], e, x) && DurableCommit.IsLocal(e)
    requires e.Grant? ==> !j.sys.workers[w].open
    ensures On(c, n, WithLog(j, w, x))
  {
    OnShape(c, n, j);
    Goes(c, n, j, LogStep(w, e), WithLog(j, w, x));
  }

  /** Steps of log w that group commit does not see. */
  lemma {:induction false} LocalPath(c: Wal.Config, n: nat, j: Joint, w: nat, worlds: seq<World>,
                                     events: seq<Wal.Event>,
                                     k: nat)
    requires On(c, n, j) && w < n && WalProgress.Path(c, worlds, events) && WalProgress.AllLocal(events)
    requires worlds[0] == j.logs[w] && k <= |events|
    ensures On(c, n, WithLog(j, w, worlds[k]))
    decreases k
  {
    OnShape(c, n, j);
    if k == 0 {
      assert j.logs[w := worlds[0]] == j.logs;
    } else {
      LocalPath(c, n, j, w, worlds, events, k - 1);
      LocalAt(c, n, j, w, worlds, events, k - 1);
    }
  }

  lemma LocalAt(c: Wal.Config, n: nat, j: Joint, w: nat, worlds: seq<World>, events: seq<Wal.Event>, k: nat)
    requires w < n == |j.logs| && WalProgress.Path(c, worlds, events) && WalProgress.AllLocal(events) && k < |events|
    requires On(c, n, WithLog(j, w, worlds[k]))
    ensures On(c, n, WithLog(j, w, worlds[k + 1]))
  {
    var u := WithLog(j, w, worlds[k]);
    assert WalHistory.StepAt(c, worlds, events, k);
    OneLocal(c, n, u, w, events[k], worlds[k + 1]);
    WithLogTwice(j, w, worlds[k], worlds[k + 1]);
  }

  lemma WithLogTwice(j: Joint, w: nat, x: World, y: World)
    requires w < |j.logs|
    ensures WithLog(WithLog(j, w, x), w, y) == WithLog(j, w, y)
  {
    assert j.logs[w := x][w := y] == j.logs[w := y];
  }

  lemma Locally(c: Wal.Config, n: nat, j: Joint, w: nat, x: World) returns (j': Joint)
    requires On(c, n, j) && w < n && WalProgress.Leads(c, true, j.logs[w], x)
    ensures On(c, n, j') && |j.logs| == n && j' == WithLog(j, w, x)
  {
    OnShape(c, n, j);
    var worlds, events :| WalProgress.Path(c, worlds, events) && worlds[0] == j.logs[w] && worlds[|events|] == x
                          && WalProgress.AllLocal(events);
    LocalPath(c, n, j, w, worlds, events, |events|);
    j' := WithLog(j, w, x);
  }

  // ----- one record of every worker

  ghost predicate IsFresh(c: Wal.Config, j: Joint, w: nat)
    requires w < |j.logs| == |j.sys.workers|
  {
    j.sys.workers[w] == InitWorker() && j.logs[w] == WalHistory.World(Wal.Init(c), WalHistory.INIT_HISTORY)
  }

  /** Worker w has precommitted a transaction with one record, which is published. */
  ghost predicate WorkerDone(my: Worker, w: nat) {
    && my.records == [Record(w, 0, 1, w)] && my.visible == 1 && my.lastGsn == 1 && my.published == 1 && my.written == 0
    && !my.open && my.precommitted == 1
    && |my.queue| == 1 && my.queue[0].maxGsn == 1 && my.queue[0].startTs == 1 && Record(w, 0, 1, w) in my.queue[0].seen
  }

  ghost predicate LogDone(x: World, bytes: seq<byte>) {
    && WalProgress.Rested(x) && |x.hist.submitted| == 1 && x.hist.submitted[0].bytes == bytes && x.log.round.NoRound?
    && x.log.seenGsn == 0 && x.log.pub.gsn == 1
  }

  ghost predicate Calm(s: Sys) {
    && s.phase == ReadWorkers([], []) && s.sync == 0 && s.committed == {}
    && forall k | 0 <= k < |s.lastSeen| :: s.lastSeen[k] == 0
  }

  /** The first i workers are done, the others have not begun. */
  ghost predicate Entered(c: Wal.Config, j: Joint, i: nat, bytes: seq<byte>) {
    && |j.logs| == |j.sys.workers| == |j.sys.lastSeen| && i <= |j.logs| && Calm(j.sys)
    && (forall k | 0 <= k < i :: WorkerDone(j.sys.workers[k], k) && LogDone(j.logs[k], bytes))
    && (forall k | i <= k < |j.logs| :: IsFresh(c, j, k))
    && (forall page | page in j.sys.pages :: page < i)
  }

  /** Worker i has started: only it and its log are different. */
  ghost predicate OnTurn(c: Wal.Config, j: Joint, i: nat, bytes: seq<byte>) {
    && |j.logs| == |j.sys.workers| == |j.sys.lastSeen| && i < |j.logs| && Calm(j.sys)
    && (forall k | 0 <= k < i :: WorkerDone(j.sys.workers[k], k) && LogDone(j.logs[k], bytes))
    && (forall k | i < k < |j.logs| :: IsFresh(c, j, k))
    && (forall page | page in j.sys.pages :: page <= i)
  }

  /** Nothing but worker i, its log and its page is different. */
  ghost predicate OnlyTurn(j: Joint, j': Joint, i: nat) {
    && |j'.logs| == |j.logs| == |j.sys.workers| == |j'.sys.workers| && j'.sys.lastSeen == j.sys.lastSeen
    && j'.sys.phase == j.sys.phase && j'.sys.sync == j.sys.sync && j'.sys.committed == j.sys.committed
    && (forall k | 0 <= k < |j.logs| && k != i :: j'.logs[k] == j.logs[k] && j'.sys.workers[k] == j.sys.workers[k])
    && (forall page | page in j'.sys.pages :: page in j.sys.pages || page == i)
  }

  lemma TurnKept(c: Wal.Config, j: Joint, j': Joint, i: nat, bytes: seq<byte>)
    requires OnTurn(c, j, i, bytes) && OnlyTurn(j, j', i)
    ensures OnTurn(c, j', i, bytes)
  {
    forall k | i < k < |j.logs|
      ensures IsFresh(c, j', k)
    {
      assert IsFresh(c, j, k);
    }
  }

  lemma TurnBegins(c: Wal.Config, j: Joint, i: nat, bytes: seq<byte>)
    requires Entered(c, j, i, bytes) && i < |j.logs|
    ensures OnTurn(c, j, i, bytes) && i !in j.sys.pages && IsFresh(c, j, i)
  {
  }

  lemma StartMove(s: Sys, i: nat) returns (s': Sys)
    requires |s.lastSeen| == |s.workers| && i < |s.workers| && s.workers[i] == InitWorker() && s.sync == 0
    ensures MoveTo(s, Whole(StartTx(i, 1)), s')
    ensures s' == Put(s, i, InitWorker().(running := true, startTs := 1))
  {
    s' := Step(s, StartTx(i, 1)).value;
  }

  lemma StartsTurn(c: Wal.Config, n: nat, j: Joint, i: nat, bytes: seq<byte>) returns (j': Joint)
    requires On(c, n, j) && i < n && Entered(c, j, i, bytes)
    ensures On(c, n, j') && OnTurn(c, j', i, bytes) && i !in j'.sys.pages && IsFresh(c, j, i) && j'.logs == j.logs
    ensures j'.sys.workers[i] == InitWorker().(running := true, startTs := 1)
  {
    OnShape(c, n, j);
    TurnBegins(c, j, i, bytes);
    var s' := StartMove(j.sys, i);
    j' := j.(sys := s');
    Goes(c, n, j, Other(StartTx(i, 1)), j');
    TurnKept(c, j, j', i, bytes);
  }

  lemma FreshIsQuiet(c: Wal.Config)
    ensures var x := WalHistory.World(Wal.Init(c), WalHistory.INIT_HISTORY);
      && |x.hist.ends| == |x.log.holes| && WalProgress.Quiet(x) && !x.log.redirect && x.hist.submitted == []
  {
  }

  /** A reservation begins. */
  lemma Grants(c: Wal.Config, n: nat, j: Joint, i: nat, req: nat) returns (j': Joint)
    requires On(c, n, j) && i < n && 0 < req && req + c.crSize <= Align.BLOCK
    requires j.logs[i] == WalHistory.World(Wal.Init(c), WalHistory.INIT_HISTORY) && !j.sys.workers[i].open
    ensures On(c, n, j') && |j.logs| == n && j' == WithLog(j, i, j'.logs[i])
    ensures j'.logs[i].log.phase == Wal.Granted(req) && j'.logs[i].log.holes == [] && j'.logs[i].hist.submitted == []
  {
    OnShape(c, n, j);
    var x := j.logs[i];
    FreshIsQuiet(c);
    LogOn(c, n, j, i);
    WalProgress.QuietGrants(c, true, x, x, req);
    var y := WalProgress.After(c, x, Wal.Grant(req));
    WalProof.GrantShape(c, x, req, y);
    OneLocal(c, n, j, i, Wal.Grant(req), y);
    j' := WithLog(j, i, y);
  }

  lemma FindsPlace(c: Wal.Config, n: nat, j: Joint, i: nat, req: nat) returns (j': Joint)
    requires On(c, n, j) && i < n && j.logs[i].log.phase == Wal.Granted(req) && j.logs[i].log.holes == []
    ensures On(c, n, j') && |j.logs| == n && j' == WithLog(j, i, j'.logs[i])
    ensures j'.logs[i].log.phase == Wal.Ready(req) && WalProof.AllFilled(j'.logs[i].log.holes)
    ensures j'.logs[i].hist.submitted == j.logs[i].hist.submitted
  {
    LogOn(c, n, j, i);
    var x := j.logs[i];
    var z := WalProgress.GetsPlace(c, true, x, x, req);
    j' := Locally(c, n, j, i, z);
  }

  /** The reservation, up to the return of walEnsureEnoughSpace. */
  lemma MakesRoom(c: Wal.Config, n: nat, j: Joint, i: nat, bytes: seq<byte>) returns (j': Joint)
    requires On(c, n, j) && i < n && OnTurn(c, j, i, bytes) && 0 < |bytes| && |bytes| + c.crSize <= Align.BLOCK
    requires j.logs[i] == WalHistory.World(Wal.Init(c), WalHistory.INIT_HISTORY) && !j.sys.workers[i].open
    ensures On(c, n, j') && OnTurn(c, j', i, bytes) && j'.sys == j.sys
    ensures j'.logs[i].log.phase == Wal.Ready(|bytes|) && WalProof.AllFilled(j'.logs[i].log.holes)
    ensures j'.logs[i].hist.submitted == []
  {
    var u := Grants(c, n, j, i, |bytes|);
    j' := FindsPlace(c, n, u, i, |bytes|);
    TurnKept(c, j, j', i, bytes);
  }

  /** The log's GSN clock and published GSN, from the worker's. */
  lemma LogGsns(c: Wal.Config, n: nat, j: Joint, i: nat)
    requires On(c, n, j) && i < n
    ensures j.logs[i].log.gsnClock == j.sys.workers[i].logClock && j.logs[i].log.pub.gsn == j.sys.workers[i].lastGsn
    ensures j.logs[i].log.seenGsn == j.sys.lastSeen[i]
    ensures !j.sys.phase.ReadLogs? ==> j.logs[i].log.round.NoRound?
  {
    assert LogLink(j, i);
  }

  lemma NobodyOpen(c: Wal.Config, j: Joint, i: nat, bytes: seq<byte>)
    requires OnTurn(c, j, i, bytes)
    ensures !Latched(j.sys, i, i)
  {
    forall o | 0 <= o < |j.sys.workers| && o != i
      ensures !j.sys.workers[o].open
    {
      assert o < i ==> WorkerDone(j.sys.workers[o], o);
      assert o > i ==> IsFresh(c, j, o);
    }
  }

  lemma ReserveMove(s: Sys, i: nat) returns (s': Sys)
    requires |s.lastSeen| == |s.workers| && i < |s.workers| && i !in s.pages && !Latched(s, i, i)
    requires s.workers[i] == InitWorker().(running := true, startTs := 1)
    ensures MoveTo(s, Whole(Reserve(i, i)), s') && NewGsn(s, i, i) == 1
    ensures s' == Put(s, i, s'.workers[i]).(pages := s.pages[i := 1]) && |s'.workers| == |s.workers|
    ensures var (my, r) := (s'.workers[i], Record(i, 0, 1, i));
      my == InitWorker().(running := true, startTs := 1, clock := 1, logClock := 1, records := [r], open := true,
                          seen := my.seen) && r in my.seen
  {
    s' := Step(s, Reserve(i, i)).value;
  }

  lemma BumpLog(c: Wal.Config, x: World, req: nat) returns (y: World)
    requires WalProgress.On(c, true, x, x) && x.log.gsnClock == 0 && x.log.phase == Wal.Ready(req)
    requires WalProof.AllFilled(x.log.holes) && x.hist.submitted == []
    ensures WalHistory.StepTo(c, x, Wal.BumpRecord(1), y)
    ensures (y.log.phase.Draining? || y.log.phase.Bumped?) && y.log.phase.req == req
    ensures WalProof.AllFilled(y.log.holes) && y.hist.submitted == []
  {
    WalProgress.NotRefused(c, true, x, x, Wal.BumpRecord(1));
    WalProgress.BumpShape(c, x);
    y := WalProgress.After(c, x, Wal.BumpRecord(1));
  }

  /** The GSN assignment and reserveLSN. */
  lemma OpensRecord(c: Wal.Config, n: nat, j: Joint, i: nat, bytes: seq<byte>) returns (j': Joint)
    requires On(c, n, j) && i < n && OnTurn(c, j, i, bytes) && i !in j.sys.pages
    requires j.sys.workers[i] == InitWorker().(running := true, startTs := 1)
    requires j.logs[i].log.phase == Wal.Ready(|bytes|) && WalProof.AllFilled(j.logs[i].log.holes)
    requires j.logs[i].hist.submitted == []
    ensures On(c, n, j') && OnTurn(c, j', i, bytes)
    ensures var (my, x, r) := (j'.sys.workers[i], j'.logs[i], Record(i, 0, 1, i));
      && my == InitWorker().(running := true, startTs := 1, clock := 1, logClock := 1, records := [r], open := true,
                             seen := my.seen) && r in my.seen
      && (x.log.phase.Draining? || x.log.phase.Bumped?) && x.log.phase.req == |bytes|
      && WalProof.AllFilled(x.log.holes) && x.hist.submitted == []
  {
    OnShape(c, n, j);
    NobodyOpen(c, j, i, bytes);
    var s' := ReserveMove(j.sys, i);
    LogGsns(c, n, j, i);
    LogOn(c, n, j, i);
    var y := BumpLog(c, j.logs[i], |bytes|);
    j' := Joint(s', j.logs[i := y]);
    Goes(c, n, j, OpenRecord(i, i), j');
    TurnKept(c, j, j', i, bytes);
  }

  /** The record is written, filled and its hole unlocked. */
  lemma FillsRecord(c: Wal.Config, n: nat, j: Joint, i: nat, bytes: seq<byte>) returns (j': Joint)
    requires On(c, n, j) && i < n && OnTurn(c, j, i, bytes)
    requires var x := j.logs[i];
      && (x.log.phase.Draining? || x.log.phase.Bumped?) && x.log.phase.req == |bytes|
      && WalProof.AllFilled(x.log.holes) && x.hist.submitted == []
    ensures On(c, n, j') && OnTurn(c, j', i, bytes) && j'.sys == j.sys
    ensures var x := j'.logs[i];
      && x.log.phase.Idle? && WalProof.AllFilled(x.log.holes) && |x.hist.submitted| == 1
      && x.hist.submitted[0].bytes == bytes
  {
    LogOn(c, n, j, i);
    var x := j.logs[i];
    var z, r := WalProgress.WritesAndSubmits(c, true, x, x, bytes);
    j' := Locally(c, n, j, i, z);
    TurnKept(c, j, j', i, bytes);
  }

  lemma SubmitMove(s: Sys, i: nat) returns (s': Sys)
    requires |s.lastSeen| == |s.workers| && i < |s.workers| && s.workers[i].open
    ensures MoveTo(s, Whole(Submit(i)), s') && |s'.workers| == |s.workers|
    ensures var my := s.workers[i];
      s' == Put(s, i, my.(open := false, visible := my.clock, published := |my.records|, lastGsn := my.logClock))
  {
    s' := Step(s, Submit(i)).value;
  }

  lemma CommitMove(s: Sys, i: nat) returns (s': Sys)
    requires |s.lastSeen| == |s.workers| && i < |s.workers| && s.workers[i].running && !s.workers[i].open
    ensures MoveTo(s, Whole(CommitTx(i)), s') && |s'.workers| == |s.workers|
    ensures var my := s.workers[i];
      s' == Put(s, i, my.(running := false, queue := my.queue + [Tx(my.clock, my.startTs, my.seen)],
                          precommitted := my.startTs))
  {
    s' := Step(s, CommitTx(i)).value;
  }

  lemma CollectLog(c: Wal.Config, x: World) returns (y: World)
    requires WalProgress.On(c, true, x, x) && x.log.phase.Idle? && WalProof.AllFilled(x.log.holes)
    ensures WalHistory.StepTo(c, x, Wal.Collect, y) && y.log.phase.Idle? && y.log.holes == []
    ensures y.hist.submitted == x.hist.submitted
  {
    WalProgress.OnEnds(c, true, x, x);
    WalProgress.CollectedShape(c, x);
    y := WalProgress.After(c, x, Wal.Collect);
  }

  /** submit() ends, and the transaction precommits. */
  lemma EndsTurn(c: Wal.Config, n: nat, j: Joint, i: nat, bytes: seq<byte>) returns (j': Joint)
    requires On(c, n, j) && i < n && OnTurn(c, j, i, bytes)
    requires var (my, x, r) := (j.sys.workers[i], j.logs[i], Record(i, 0, 1, i));
      && my == InitWorker().(running := true, startTs := 1, clock := 1, logClock := 1, records := [r], open := true,
                             seen := my.seen) && r in my.seen
      && x.log.phase.Idle? && WalProof.AllFilled(x.log.holes) && |x.hist.submitted| == 1
      && x.hist.submitted[0].bytes == bytes
    ensures On(c, n, j') && OnTurn(c, j', i, bytes) && WorkerDone(j'.sys.workers[i], i)
    ensures var x := j'.logs[i];
      x.log.phase.Idle? && x.log.holes == [] && |x.hist.submitted| == 1 && x.hist.submitted[0].bytes == bytes
  {
    OnShape(c, n, j);
    LogOn(c, n, j, i);
    var y := CollectLog(c, j.logs[i]);
    var s1 := SubmitMove(j.sys, i);
    var u := Joint(s1, j.logs[i := y]);
    Goes(c, n, j, SubmitRecord(i), u);
    var s2 := CommitMove(s1, i);
    j' := u.(sys := s2);
    Goes(c, n, u, Other(CommitTx(i)), j');
    TurnKept(c, j, j', i, bytes);
  }

  lemma TurnDone(c: Wal.Config, n: nat, j: Joint, i: nat, bytes: seq<byte>)
    requires On(c, n, j) && i < n && OnTurn(c, j, i, bytes) && WorkerDone(j.sys.workers[i], i)
    requires var x := j.logs[i];
      x.log.phase.Idle? && x.log.holes == [] && |x.hist.submitted| == 1 && x.hist.submitted[0].bytes == bytes
    ensures Entered(c, j, i + 1, bytes)
  {
    LogGsns(c, n, j, i);
    LogOn(c, n, j, i);
    WalProgress.EmptyQueue(c, true, j.logs[i], j.logs[i]);
    TurnOver(c, j, i, bytes);
  }

  lemma TurnOver(c: Wal.Config, j: Joint, i: nat, bytes: seq<byte>)
    requires OnTurn(c, j, i, bytes) && WorkerDone(j.sys.workers[i], i) && LogDone(j.logs[i], bytes)
    ensures Entered(c, j, i + 1, bytes)
  {
  }

  lemma Turn(c: Wal.Config, n: nat, j: Joint, i: nat, bytes: seq<byte>) returns (j': Joint)
    requires On(c, n, j) && i < n && Entered(c, j, i, bytes) && 0 < |bytes| && |bytes| + c.crSize <= Align.BLOCK
    ensures On(c, n, j') && Entered(c, j', i + 1, bytes)
  {
    var u := StartsTurn(c, n, j, i, bytes);
    var u1 := MakesRoom(c, n, u, i, bytes);
    var u2 := OpensRecord(c, n, u1, i, bytes);
    var u3 := FillsRecord(c, n, u2, i, bytes);
    j' := EndsTurn(c, n, u3, i, bytes);
    TurnDone(c, n, j', i, bytes);
  }

  lemma {:induction false} AllTurns(c: Wal.Config, n: nat, j: Joint, i: nat, bytes: seq<byte>) returns (j': Joint)
    requires On(c, n, j) && i <= n && Entered(c, j, 0, bytes) && 0 < |bytes| && |bytes| + c.crSize <= Align.BLOCK
    ensures On(c, n, j') && Entered(c, j', i, bytes)
    decreases i
  {
    if i == 0 {
      j' := j;
    } else {
      var u := AllTurns(c, n, j, i - 1, bytes);
      j' := Turn(c, n, u, i - 1, bytes);
    }
  }

  lemma StartEntered(c: Wal.Config, n: nat, bytes: seq<byte>)
    requires Wal.ValidConfig(c) && n > 0
    ensures On(c, n, DurableCommit.Start(c, n)) && Entered(c, DurableCommit.Start(c, n), 0, bytes)
  {
    var (j, none: seq<Action>) := (DurableCommit.Start(c, n), []);
    DurableCommit.StartInv(c, n);
    WalProgress.InitNews(c);
    assert DurableCommit.Run(c, n, [j], none) && j == [j][|none|];
  }

  // ----- the committer's round

  /** Only the committer's phase is different. */
  lemma {:induction false} ReadsWorkers(c: Wal.Config, n: nat, j: Joint) returns (j': Joint)
    requires On(c, n, j) && j.sys.phase.ReadWorkers? && |j.sys.phase.visible| == |j.sys.phase.hardened| < n
    requires CommitProgress.HardenedNow(j.sys, j.sys.phase.hardened)
    ensures On(c, n, j') && j'.logs == j.logs && CommitProgress.OnlyPhase(j.sys, j'.sys)
    ensures j'.sys.phase.ReadLogs? && j'.sys.phase.copies == []
    ensures |j'.sys.phase.visible| == |j'.sys.phase.hardened| == n
    ensures CommitProgress.HardenedNow(j.sys, j'.sys.phase.hardened)
    decreases n - |j.sys.phase.hardened|
  {
    OnShape(c, n, j);
    var s' := CommitProgress.ReadWorkerStep(j.sys);
    var u := j.(sys := s');
    Goes(c, n, j, Other(GctReadWorker), u);
    if s'.phase.ReadLogs? {
      j' := u;
    } else {
      j' := ReadsWorkers(c, n, u);
    }
  }

  /** The committer has copied the log's published pair and all the bytes up to it. */
  ghost predicate LogCopied(x: World, bytes: seq<byte>) {
    && |x.hist.submitted| == 1 && x.hist.submitted[0].bytes == bytes && x.log.round.Round?
    && WalProgress.CopiedTo(x.log.round.writes, x.log.round.copied, |x.log.round.writes|, 0)
    && |x.hist.ends| == |x.log.holes|
  }

  /** i logs have been read and copied. */
  ghost predicate Reading(j: Joint, n: nat, i: nat, bytes: seq<byte>) {
    && |j.logs| == |j.sys.workers| == |j.sys.lastSeen| == n && i <= n && j.sys.phase.ReadLogs?
    && |j.sys.phase.visible| == |j.sys.phase.hardened| == n && |j.sys.phase.copies| == i
    && CommitProgress.HardenedNow(j.sys, j.sys.phase.hardened) && CommitProgress.CopiesNow(j.sys, j.sys.phase.copies)
    && (forall k | 0 <= k < n :: WorkerDone(j.sys.workers[k], k) && j.sys.lastSeen[k] == 0)
    && (forall k | 0 <= k < i :: LogCopied(j.logs[k], bytes))
    && (forall k | i <= k < n :: LogDone(j.logs[k], bytes))
  }

  lemma BeginLog(c: Wal.Config, x: World) returns (y: World)
    requires WalProgress.On(c, true, x, x) && x.log.round.NoRound? && x.log.pub.gsn != x.log.seenGsn
    ensures WalHistory.StepTo(c, x, Wal.GctBegin, y) && y.log.round.Round? && y.hist.submitted == x.hist.submitted
  {
    WalProgress.NotRefused(c, true, x, x, Wal.GctBegin);
    WalProgress.BeginShape(c, x);
    y := WalProgress.After(c, x, Wal.GctBegin);
  }

  /** The committer reads one more log. */
  lemma ReadsLog(c: Wal.Config, n: nat, j: Joint, i: nat, bytes: seq<byte>) returns (j': Joint)
    requires On(c, n, j) && i < n && Reading(j, n, i, bytes)
    ensures On(c, n, j') && |j'.logs| == n && j'.logs[i].log.round.Round? && j'.logs == j.logs[i := j'.logs[i]]
    ensures j'.logs[i].hist.submitted == j.logs[i].hist.submitted
    ensures CommitProgress.OnlyPhase(j.sys, j'.sys) && j'.sys.phase.ReadLogs? && |j'.sys.phase.copies| == i + 1
    ensures |j'.sys.phase.visible| == n && j'.sys.phase.hardened == j.sys.phase.hardened
    ensures CommitProgress.CopiesNow(j.sys, j'.sys.phase.copies)
  {
    OnShape(c, n, j);
    LogOn(c, n, j, i);
    assert LogDone(j.logs[i], bytes);
    var y := BeginLog(c, j.logs[i]);
    var s' := CommitProgress.ReadLogStep(j.sys);
    j' := Joint(s', j.logs[i := y]);
    Goes(c, n, j, ReadLog, j');
  }

  lemma CopiesLog(c: Wal.Config, n: nat, j: Joint, i: nat) returns (j': Joint)
    requires On(c, n, j) && i < n && j.logs[i].log.round.Round?
    ensures On(c, n, j') && |j.logs| == n && j' == WithLog(j, i, j'.logs[i])
    ensures var x := j'.logs[i];
      && x.log.round.Round? && x.hist.submitted == j.logs[i].hist.submitted && |x.hist.ends| == |x.log.holes|
      && WalProgress.CopiedTo(x.log.round.writes, x.log.round.copied, |x.log.round.writes|, 0)
  {
    OnShape(c, n, j);
    LogOn(c, n, j, i);
    var z := CopyLog(c, j.logs[i]);
    j' := Locally(c, n, j, i, z);
  }

  lemma CopyLog(c: Wal.Config, x: World) returns (z: World)
    requires WalProgress.On(c, true, x, x) && x.log.round.Round?
    ensures WalProgress.Leads(c, true, x, z) && z.log.round.Round? && z.hist.submitted == x.hist.submitted
    ensures |z.hist.ends| == |z.log.holes|
    ensures WalProgress.CopiedTo(z.log.round.writes, z.log.round.copied, |z.log.round.writes|, 0)
  {
    z := WalProgress.Copies(c, true, x, x, 0, 0);
    WalProgress.OnEnds(c, true, x, z);
  }

  lemma ReadOn(j: Joint, u: Joint, j': Joint, n: nat, i: nat, bytes: seq<byte>)
    requires Reading(j, n, i, bytes) && i < n && |u.logs| == n && u.logs == j.logs[i := u.logs[i]]
    requires u.logs[i].hist.submitted == j.logs[i].hist.submitted
    requires CommitProgress.OnlyPhase(j.sys, u.sys) && u.sys.phase.ReadLogs? && |u.sys.phase.copies| == i + 1
    requires |u.sys.phase.visible| == n && u.sys.phase.hardened == j.sys.phase.hardened
    requires CommitProgress.CopiesNow(j.sys, u.sys.phase.copies)
    requires |j'.logs| == n && j' == WithLog(u, i, j'.logs[i])
    requires var x := j'.logs[i];
      && x.log.round.Round? && x.hist.submitted == u.logs[i].hist.submitted && |x.hist.ends| == |x.log.holes|
      && WalProgress.CopiedTo(x.log.round.writes, x.log.round.copied, |x.log.round.writes|, 0)
    ensures Reading(j', n, i + 1, bytes)
  {
    assert LogDone(j.logs[i], bytes);
  }

  lemma {:induction false} ReadsLogs(c: Wal.Config, n: nat, j: Joint, i: nat, bytes: seq<byte>) returns (j': Joint)
    requires On(c, n, j) && Reading(j, n, 0, bytes) && i <= n
    ensures On(c, n, j') && Reading(j', n, i, bytes)
    decreases i
  {
    if i == 0 {
      j' := j;
    } else {
      var u := ReadsLogs(c, n, j, i - 1, bytes);
      var u1 := ReadsLog(c, n, u, i - 1, bytes);
      j' := CopiesLog(c, n, u1, i - 1);
      ReadOn(u, u1, j', n, i - 1, bytes);
    }
  }

  /** The logs after the flush. */
  ghost function Flushed(c: Wal.Config, logs: seq<World>): (r: seq<World>)
    requires forall k | 0 <= k < |logs| :: WalProgress.Can(c, logs[k], Wal.GctEnd)
  {
    seq(|logs|, k requires 0 <= k < |logs| => WalProgress.After(c, logs[k], Wal.GctEnd))
  }

  lemma AllNewsNow(j: Joint, n: nat, bytes: seq<byte>)
    requires Reading(j, n, n, bytes) && n > 0
    ensures var gsns := Gsns(j.sys.phase.copies);
      gsns != j.sys.lastSeen && forall k | 0 <= k < n :: 0 < gsns[k] != j.sys.lastSeen[k]
  {
    var gsns := Gsns(j.sys.phase.copies);
    forall k | 0 <= k < n
      ensures 0 < gsns[k] != j.sys.lastSeen[k]
    {
      assert WorkerDone(j.sys.workers[k], k);
    }
    assert gsns[0] != j.sys.lastSeen[0];
  }

  /** All writes are done. */
  lemma Flushes(c: Wal.Config, n: nat, j: Joint, bytes: seq<byte>) returns (j': Joint)
    requires On(c, n, j) && Reading(j, n, n, bytes)
    ensures On(c, n, j') && |j'.logs| == n > 0 && |j'.logs[0].hist.submitted| == 1
    ensures j'.logs[0].hist.submitted[0].bytes == bytes && j'.sys.durable >= 1
    ensures j'.sys.phase.Committing? && j'.sys.phase.next == 0 && j'.sys.phase.minHardened == 1
    ensures CommitProgress.QueuesKept(j.sys, j'.sys)
  {
    OnShape(c, n, j);
    var s' := FlushMove(j, n, bytes);
    var logs' := EndLogs(c, j.logs, bytes);
    j' := Joint(s', logs');
    Goes(c, n, j, Flush, j');
  }

  lemma EndLogs(c: Wal.Config, logs: seq<World>, bytes: seq<byte>) returns (logs': seq<World>)
    requires forall k | 0 <= k < |logs| :: LogCopied(logs[k], bytes)
    ensures |logs'| == |logs| && forall k | 0 <= k < |logs| ::
              LogFlushes(c, logs[k], logs'[k]) && logs'[k].hist.submitted == logs[k].hist.submitted
  {
    forall k | 0 <= k < |logs|
      ensures WalProgress.Can(c, logs[k], Wal.GctEnd)
      ensures WalProgress.After(c, logs[k], Wal.GctEnd).hist.submitted == logs[k].hist.submitted
    {
      assert LogCopied(logs[k], bytes);
      WalProgress.EndShape(c, logs[k]);
    }
    logs' := Flushed(c, logs);
  }

  lemma FlushMove(j: Joint, n: nat, bytes: seq<byte>) returns (s': Sys)
    requires Reading(j, n, n, bytes) && n > 0
    ensures MoveTo(j.sys, Whole(GctFlush), s') && CommitProgress.QueuesKept(j.sys, s') && s'.durable >= 1
    ensures s'.phase.Committing? && s'.phase.next == 0 && s'.phase.minHardened == 1
  {
    AllNewsNow(j, n, bytes);
    s' := CommitProgress.FlushStep(j.sys);
    CommitProgress.AllActive(j.sys.phase.visible, Gsns(j.sys.phase.copies), j.sys.lastSeen, 0, s'.durable);
    AllHardened(j, n, bytes);
  }

  lemma AllHardened(j: Joint, n: nat, bytes: seq<byte>)
    requires Reading(j, n, n, bytes) && n > 0
    ensures MinAll(j.sys.phase.hardened) == 1
  {
    var hs := j.sys.phase.hardened;
    var i :| 0 <= i < |hs| && hs[i] == MinAll(hs);
    assert WorkerDone(j.sys.workers[i], i);
  }

  /** And worker 0's transaction is marked committed. */
  lemma Commits(c: Wal.Config, n: nat, j: Joint, w: Worker) returns (j': Joint)
    requires On(c, n, j) && j.sys.phase.Committing? && j.sys.phase.next == 0 && j.sys.phase.minHardened == 1
    requires j.sys.durable >= 1 && j.sys.workers[0].queue == w.queue && WorkerDone(w, 0)
    ensures On(c, n, j') && j'.logs == j.logs && w.queue[0] in j'.sys.committed
  {
    OnShape(c, n, j);
    var s' := CommitProgress.CommitLoopStep(j.sys);
    j' := j.(sys := s');
    Goes(c, n, j, Other(GctCommit), j');
    var k := Ready(w.queue, j.sys.durable, 1);
    assert k == 1 && w.queue[..1][0] == w.queue[0];
  }

  lemma ReadingStarts(c: Wal.Config, n: nat, j: Joint, j': Joint, bytes: seq<byte>)
    requires Entered(c, j, n, bytes) && |j.logs| == n && j'.logs == j.logs && CommitProgress.OnlyPhase(j.sys, j'.sys)
    requires j'.sys.phase.ReadLogs? && j'.sys.phase.copies == []
    requires |j'.sys.phase.visible| == |j'.sys.phase.hardened| == n
    requires CommitProgress.HardenedNow(j.sys, j'.sys.phase.hardened)
    ensures Reading(j', n, 0, bytes)
  {
  }

  /**
    For every configuration, every number of workers and every record that fits a block: a run that ends with a
    committed transaction of worker 0 that wrote this record, and with the record's bytes on the device at its LSN.
   */
  lemma RecordCommits(c: Wal.Config, n: nat, bytes: seq<byte>) returns (j: Joint, tx: Tx, r: Record)
    requires Wal.ValidConfig(c) && c.fakeWrap == 0 && n > 0 && 0 < |bytes| && |bytes| + c.crSize <= Align.BLOCK
    ensures Reaches(c, n, j) && tx in j.sys.committed && r in tx.seen && r.log == 0
    ensures |j.logs| > 0 && r.index < |j.logs[0].hist.submitted| && j.logs[0].hist.submitted[r.index].bytes == bytes
    ensures forall b | 0 <= b < |bytes| :: ByteOnDevice(j.logs, r, b)
  {
    StartEntered(c, n, bytes);
    var u := AllTurns(c, n, DurableCommit.Start(c, n), n, bytes);
    OnShape(c, n, u);
    var u1 := ReadsWorkers(c, n, u);
    ReadingStarts(c, n, u, u1, bytes);
    var u2 := ReadsLogs(c, n, u1, n, bytes);
    var u3 := Flushes(c, n, u2, bytes);
    j := Commits(c, n, u3, u2.sys.workers[0]);
    tx, r := u2.sys.workers[0].queue[0], Record(0, 0, 1, 0);
    OnDeviceNow(c, n, j, tx, r);
  }

  lemma OnDeviceNow(c: Wal.Config, n: nat, j: Joint, tx: Tx, r: Record)
    requires On(c, n, j) && c.fakeWrap == 0 && tx in j.sys.committed && r in tx.seen
    ensures forall b: nat :: ByteOnDevice(j.logs, r, b)
  {
    forall b: nat
      ensures ByteOnDevice(j.logs, r, b)
    {
      var joints: seq<Joint>, actions: seq<Action> :| DurableCommit.Run(c, n, joints, actions)
        && j == joints[|actions|];
      CommittedOnDevice(c, n, joints, actions, |actions|, tx, r, b);
    }
  }
}
