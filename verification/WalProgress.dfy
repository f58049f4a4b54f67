/**
  No thread of the log waits for ever: from every state of every run everything reserved can come to the device, and
  then the next record is taken, unless the log is closed.
 */
module WalProgress {
  import opened Wrappers
  import opened Align
  import opened WalMachine
  import opened WalHistory
  import opened WalProof
  import opened WalTheorems

  // ----- when a reservation waits

  /** Where a record of req bytes goes in the linear log: at its end, or at the start of the next lap. */
  function Place(c: Config, w: World, req: nat): (p: nat) {
    if w.log.cursor + req + c.crSize <= c.bufSize then |w.hist.lin| else w.hist.lap + c.bufSize
  }

  /** walEnsureEnoughSpace goes on exactly when the record and a carriage return behind it fit into the ring. */
  lemma GrantIff(c: Config, worlds: seq<World>, events: seq<Event>, i: nat, req: nat)
    requires ValidConfig(c) && Run(c, worlds, events) && i < |worlds|
    requires worlds[i].log.phase.Idle? && !worlds[i].log.redirect && 0 < req && req + c.crSize <= BLOCK
    ensures var w := worlds[i];
      Step(c, w.log, Grant(req)).Next? <==> Place(c, w, req) + req + c.crSize <= DownAlign(w.hist.gct) + c.bufSize
    ensures Step(c, worlds[i].log, Grant(req)).Next? || Step(c, worlds[i].log, Grant(req)).Blocked?
  {
    RunKeeps(c, worlds, events, i);
    GrantWhen(c, worlds[i], req);
  }

  lemma GrantWhen(c: Config, w: World, req: nat)
    requires ValidConfig(c) && Inv(c, w) && w.log.phase.Idle? && !w.log.redirect && 0 < req && req + c.crSize <= BLOCK
    ensures Step(c, w.log, Grant(req)).Next? <==> Place(c, w, req) + req + c.crSize <= DownAlign(w.hist.gct) + c.bufSize
    ensures Step(c, w.log, Grant(req)).Next? || Step(c, w.log, Grant(req)).Blocked?
  {
    FreeSpaceMeaning(c, w.log, w.hist);
  }

  // ----- which records the committer has not seen

  /** The newest record is at the end of the log, and nothing else carries its GSN. */
  ghost predicate Caught(s: Log, h: History)
    requires |h.ends| == |s.holes|
  {
    && (s.pub.gsn == s.gsnClock ==> h.pub == |h.lin|)
    && (s.round.Round? && s.round.pub.gsn == s.gsnClock ==> h.roundEnd == |h.lin|)
    && (s.seenGsn == s.gsnClock ==> h.gct == |h.lin|)
    && (forall i | 0 <= i < |s.holes| && s.holes[i].gsn == s.gsnClock :: i == |s.holes| - 1)
    && (if s.holes == [] then s.pub.gsn == s.gsnClock else s.holes[|s.holes| - 1].gsn == s.gsnClock)
  }

  /** A record has its GSN and is not in the log yet. */
  ghost predicate Behind(s: Log) {
    && s.pub.gsn < s.gsnClock && s.seenGsn < s.gsnClock && (s.round.Round? ==> s.round.pub.gsn < s.gsnClock)
    && (forall i | 0 <= i < |s.holes| :: s.holes[i].gsn < s.gsnClock)
  }

  ghost predicate NewsOk(w: World)
    requires |w.hist.ends| == |w.log.holes|
  {
    match w.log.phase
    case Ready(_) => true
    case Draining(_, _) => Behind(w.log)
    case Bumped(_, _) => Behind(w.log)
    case _ => Caught(w.log, w.hist)
  }

  lemma CollectCaught(c: Config, w: World)
    requires Inv(c, w) && Caught(w.log, w.hist)
    ensures Caught(Collected(w).log, Collected(w).hist)
  {
  }

  lemma CollectBehind(s: Log)
    requires Behind(s)
    ensures Behind(CollectHoles(s))
  {
  }

  lemma HolesBelowClock(c: Config, w: World)
    requires Inv(c, w)
    ensures w.log.pub.gsn <= w.log.gsnClock && w.log.seenGsn <= w.log.gsnClock
    ensures w.log.round.Round? ==> w.log.round.pub.gsn <= w.log.gsnClock
    ensures forall i | 0 <= i < |w.log.holes| :: w.log.holes[i].gsn <= w.log.gsnClock
  {
    forall i | 0 <= i < |w.log.holes|
      ensures w.log.holes[i].gsn <= w.log.gsnClock
    {
      if i < w.hist.drained {
        assert DrainedHoleOk(c, w.log, w.hist, i);
      } else {
        assert HoleOk(c, w.log, w.hist, i);
      }
    }
  }

  lemma BumpNews(c: Config, w: World, gsn: nat, w': World)
    requires Inv(c, w) && StepTo(c, w, BumpRecord(gsn), w')
    ensures |w'.hist.ends| == |w'.log.holes| && NewsOk(w')
  {
    HolesBelowClock(c, w);
  }

  lemma DrainNews(c: Config, w: World, w': World)
    requires |w.hist.ends| == |w.log.holes| && NewsOk(w) && StepTo(c, w, Drain, w')
    ensures |w'.hist.ends| == |w'.log.holes| && NewsOk(w')
  {
  }

  lemma CollectNews(c: Config, w: World, w': World)
    requires Inv(c, w) && NewsOk(w) && StepTo(c, w, Collect, w')
    ensures |w'.hist.ends| == |w'.log.holes| && NewsOk(w')
  {
    CollectCaught(c, w);
  }

  lemma WriteRecordNews(c: Config, w: World, header: seq<byte>, w': World)
    requires |w.hist.ends| == |w.log.holes| && NewsOk(w) && StepTo(c, w, WriteRecord(header), w')
    ensures |w'.hist.ends| == |w'.log.holes| && NewsOk(w')
  {
    var (s, end) := (w.log, w.log.cursor + w.log.phase.req);
    InsertCollects(c, s, Splice(s.ring, s.cursor, header), end, Idle,
                   Hole(end, s.gsnClock, true, s.cursor, s.phase.req, s.phase.lsn));
    CollectBehind(s);
  }

  lemma ReadyNews(c: Config, w: World, e: Event, w': World)
    requires StepTo(c, w, e, w') && (e.WriteCr? || e.WriteSkip?)
    ensures w'.log.phase.Ready?
  {
    var s := w.log;
    match e
    case WriteCr(entry) =>
      InsertCollects(c, s, Splice(s.ring, s.cursor, entry), 0, Ready(s.phase.req), Hole(0, s.gsnClock, false, 0, 0, 0));
    case WriteSkip(b) =>
      var up := UpAlign(s.cursor);
      InsertCollects(c, s, Splice(s.ring, s.cursor, [b]), up, Ready(s.phase.req), Hole(up, s.gsnClock, false, 0, 0, 0));
  }

  lemma GctNews(c: Config, w: World, e: Event, w': World)
    requires |w.hist.ends| == |w.log.holes| && NewsOk(w) && StepTo(c, w, e, w')
    requires (e.GctBegin? || e.GctCopy? || e.GctEnd?)
    ensures |w'.hist.ends| == |w'.log.holes| && NewsOk(w')
  {
    match e
    case GctBegin =>
    case GctCopy(_, _) =>
    case GctEnd =>
  }

  lemma PlainNews(c: Config, w: World, e: Event, w': World)
    requires |w.hist.ends| == |w.log.holes| && NewsOk(w) && StepTo(c, w, e, w')
    requires e.Grant? || e.Branch? || e.Fill? || e.Unlock?
    ensures |w'.hist.ends| == |w'.log.holes| && NewsOk(w')
  {
    match e
    case Grant(_) =>
    case Branch =>
    case Fill(_, _, _) =>
    case Unlock(_) =>
  }

  lemma NewsKept(c: Config, w: World, e: Event, w': World)
    requires Inv(c, w) && Inv(c, w') && NewsOk(w) && StepTo(c, w, e, w')
    ensures NewsOk(w')
  {
    match e
    case BumpRecord(gsn) => BumpNews(c, w, gsn, w');
    case Drain => DrainNews(c, w, w');
    case Collect => CollectNews(c, w, w');
    case WriteRecord(header) => WriteRecordNews(c, w, header, w');
    case WriteCr(_) => ReadyNews(c, w, e, w');
    case WriteSkip(_) => ReadyNews(c, w, e, w');
    case GctBegin => GctNews(c, w, e, w');
    case GctCopy(_, _) => GctNews(c, w, e, w');
    case GctEnd => GctNews(c, w, e, w');
    case _ => PlainNews(c, w, e, w');
  }

  // ----- going on

  ghost predicate Path(c: Config, worlds: seq<World>, events: seq<Event>) {
    |worlds| == |events| + 1 && forall i | 0 <= i < |events| :: StepAt(c, worlds, events, i)
  }

  /** Steps that begin no reservation, assign no GSN and publish nothing. */
  predicate IsLocal(e: Event) {
    !e.Grant? && !e.BumpRecord? && !e.Collect? && !e.GctBegin? && !e.GctEnd?
  }

  ghost predicate AllLocal(events: seq<Event>) {
    forall i | 0 <= i < |events| :: IsLocal(events[i])
  }

  /** Some continuation leads from w to w', if need be of such steps alone. */
  ghost predicate Leads(c: Config, local: bool, w: World, w': World) {
    exists worlds, events ::
      Path(c, worlds, events) && worlds[0] == w && worlds[|events|] == w' && (local ==> AllLocal(events))
  }

  lemma LeadsFurther(c: Config, local: bool, a: World, b: World, e: Event, b': World)
    requires Leads(c, local, a, b) && StepTo(c, b, e, b') && (local ==> IsLocal(e))
    ensures Leads(c, local, a, b')
  {
    var worlds, events :| Path(c, worlds, events) && worlds[0] == a && worlds[|events|] == b
                          && (local ==> AllLocal(events));
    var (worlds', events') := (worlds + [b'], events + [e]);
    forall i | 0 <= i < |events'|
      ensures StepAt(c, worlds', events', i)
    {
      assert i < |events| ==> StepAt(c, worlds, events, i);
    }
    assert Path(c, worlds', events') && worlds'[0] == a && worlds'[|events'|] == b' && (local ==> AllLocal(events'));
  }

  /** A world on the way from a. */
  ghost predicate On(c: Config, local: bool, a: World, w: World) {
    ValidConfig(c) && Leads(c, local, a, w) && Inv(c, w) && NewsOk(w)
  }

  ghost predicate Can(c: Config, w: World, e: Event) {
    |w.hist.ends| == |w.log.holes| && Step(c, w.log, e).Next?
  }

  ghost function After(c: Config, w: World, e: Event): (w': World)
    requires Can(c, w, e)
  {
    World(Step(c, w.log, e).log, HistoryStep(c, w.log, w.hist, e))
  }

  lemma Goes(c: Config, local: bool, a: World, w: World, e: Event) returns (w': World)
    requires On(c, local, a, w) && Can(c, w, e) && (local ==> IsLocal(e))
    ensures On(c, local, a, w') && w' == After(c, w, e)
  {
    w' := After(c, w, e);
    LeadsFurther(c, local, a, w, e, w');
    StepKeeps(c, w, e, w');
    NewsKept(c, w, e, w');
  }

  lemma OnEnds(c: Config, local: bool, a: World, w: World)
    requires On(c, local, a, w)
    ensures |w.hist.ends| == |w.log.holes| && |w.log.ring| == c.bufSize && w.log.cursor + c.crSize <= c.bufSize
  {
  }

  /** The step is not refused by the machine, so it is possible. */
  lemma NotRefused(c: Config, local: bool, a: World, w: World, e: Event)
    requires On(c, local, a, w) && !Step(c, w.log, e).Blocked?
    ensures Can(c, w, e)
  {
    StepIsSafe(c, w, e);
  }

  // ----- all records are submitted

  /** Locks and submitted records are all that differs. */
  ghost predicate OnlyLocks(w: World, w': World) {
    && |w'.log.holes| == |w.log.holes| && w'.log == w.log.(holes := w'.log.holes)
    && w'.hist == w.hist.(submitted := w'.hist.submitted) && w.hist.submitted <= w'.hist.submitted
    && forall i | 0 <= i < |w.log.holes| :: w'.log.holes[i] == w.log.holes[i].(locked := w'.log.holes[i].locked)
  }

  lemma UnlockedShape(c: Config, w: World, i: nat)
    requires |w.hist.ends| == |w.log.holes| && i < |w.log.holes| && w.log.holes[i].locked
    ensures Can(c, w, Unlock(w.log.head + i))
    ensures var w' := After(c, w, Unlock(w.log.head + i));
      OnlyLocks(w, w') && w'.log.holes == w.log.holes[i := w.log.holes[i].(locked := false)]
  {
  }

  lemma OnlyLocksTwice(u: World, w: World, w': World)
    requires OnlyLocks(u, w) && OnlyLocks(w, w')
    ensures OnlyLocks(u, w')
  {
  }

  lemma UnlocksOne(c: Config, local: bool, a: World, w: World, i: nat) returns (w': World)
    requires On(c, local, a, w) && i < |w.log.holes|
    ensures On(c, local, a, w') && OnlyLocks(w, w')
    ensures w'.log.holes == w.log.holes[i := w.log.holes[i].(locked := false)]
  {
    OnEnds(c, local, a, w);
    if w.log.holes[i].locked {
      UnlockedShape(c, w, i);
      w' := Goes(c, local, a, w, Unlock(w.log.head + i));
    } else {
      w' := w;
      assert w.log.holes[i := w.log.holes[i]] == w.log.holes;
    }
  }

  lemma {:induction false} UnlocksFirst(c: Config, local: bool, a: World, w: World, i: nat) returns (w': World)
    requires On(c, local, a, w) && i <= |w.log.holes|
    ensures On(c, local, a, w') && OnlyLocks(w, w') && forall k | 0 <= k < i :: !w'.log.holes[k].locked
    decreases i
  {
    if i == 0 {
      w' := w;
    } else {
      var u := UnlocksFirst(c, local, a, w, i - 1);
      w' := UnlocksOne(c, local, a, u, i - 1);
      OnlyLocksTwice(w, u, w');
    }
  }

  lemma UnlocksAll(c: Config, local: bool, a: World, w: World) returns (w': World)
    requires On(c, local, a, w)
    ensures On(c, local, a, w') && OnlyLocks(w, w') && AllFilled(w'.log.holes)
  {
    w' := UnlocksFirst(c, local, a, w, |w.log.holes|);
  }

  // ----- a reservation in progress comes to its end

  lemma BranchShape(c: Config, w: World)
    requires Can(c, w, Branch)
    ensures var w' := After(c, w, Branch);
      && w'.log.holes == w.log.holes && w'.log.cursor == w.log.cursor && w'.log.redirect == w.log.redirect
      && w.log.phase.Granted? && w'.hist.submitted == w.hist.submitted
      && var p := w'.log.phase; (p.CrBumped? || p.SkipBumped? || p.Ready?) && p.req == w.log.phase.req
  {
  }

  /** With all holes filled, insertHole does not wait. */
  lemma WriteNotBlocked(c: Config, s: Log, e: Event)
    requires AllFilled(s.holes) && 0 < c.maxHoles && |s.ring| == c.bufSize
    requires match e
             case WriteCr(entry) => s.phase.CrBumped? && |entry| == c.crSize
             case WriteSkip(_) => s.phase.SkipBumped?
             case WriteRecord(header) => s.phase.Bumped? && |header| <= s.phase.req
             case _ => false
    ensures !Step(c, s, e).Blocked?
  {
    FilledPrefix(s.holes);
  }

  lemma WroteShape(c: Config, w: World, e: Event)
    requires Can(c, w, e) && (e.WriteCr? || e.WriteSkip?) && AllFilled(w.log.holes)
    ensures var w' := After(c, w, e);
      && w'.log.phase == Ready(w.log.phase.req) && AllFilled(w'.log.holes) && w'.log.redirect == w.log.redirect
      && w'.hist.submitted == w.hist.submitted
  {
    var s := w.log;
    CollectsAll(s);
    match e
    case WriteCr(entry) =>
      InsertCollects(c, s, Splice(s.ring, s.cursor, entry), 0, Ready(s.phase.req), Hole(0, s.gsnClock, false, 0, 0, 0));
    case WriteSkip(b) =>
      var up := UpAlign(s.cursor);
      InsertCollects(c, s, Splice(s.ring, s.cursor, [b]), up, Ready(s.phase.req), Hole(up, s.gsnClock, false, 0, 0, 0));
  }

  function Entry(c: Config): (r: seq<byte>)
    ensures |r| == c.crSize
  {
    seq(c.crSize, i => 0)
  }

  /** From the end of the wait to walEnsureEnoughSpace's return. */
  lemma GetsReady(c: Config, local: bool, a: World, w: World) returns (w': World)
    requires On(c, local, a, w) && AllFilled(w.log.holes)
    requires var p := w.log.phase; p.Granted? || p.CrBumped? || p.SkipBumped? || p.Ready?
    ensures On(c, local, a, w') && AllFilled(w'.log.holes) && w'.log.phase == Ready(w.log.phase.req)
    ensures w'.log.redirect == w.log.redirect && w'.hist.submitted == w.hist.submitted
  {
    w' := w;
    if w.log.phase.Granted? {
      NotRefused(c, local, a, w, Branch);
      BranchShape(c, w);
      w' := Goes(c, local, a, w, Branch);
    }
    var u := w';
    OnEnds(c, local, a, u);
    if !u.log.phase.Ready? {
      var e := if u.log.phase.CrBumped? then WriteCr(Entry(c)) else WriteSkip(0);
      WriteNotBlocked(c, u.log, e);
      NotRefused(c, local, a, u, e);
      WroteShape(c, u, e);
      w' := Goes(c, local, a, u, e);
    }
  }

  lemma BumpShape(c: Config, w: World)
    requires Can(c, w, BumpRecord(w.log.gsnClock + 1))
    ensures var w' := After(c, w, BumpRecord(w.log.gsnClock + 1));
      && w'.log.holes == w.log.holes && w'.hist.submitted == w.hist.submitted && w.log.phase.Ready?
      && (w'.log.phase.Draining? || w'.log.phase.Bumped?) && w'.log.phase.req == w.log.phase.req
  {
  }

  lemma DrainShape(c: Config, w: World)
    requires |w.hist.ends| == |w.log.holes| && w.log.phase.Draining? && AllFilled(w.log.holes)
    ensures Can(c, w, Drain)
    ensures var w' := After(c, w, Drain);
      && w'.log.holes == w.log.holes && w'.hist.submitted == w.hist.submitted
      && w'.log.phase == Bumped(w.log.phase.req, w.log.phase.lsn)
  {
    FilledPrefix(w.log.holes);
  }

  /** From there to reserveLSN's return. */
  lemma GetsLsn(c: Config, a: World, w: World) returns (w': World)
    requires On(c, false, a, w) && AllFilled(w.log.holes)
    requires var p := w.log.phase; p.Ready? || p.Draining? || p.Bumped?
    ensures On(c, false, a, w') && AllFilled(w'.log.holes) && w'.log.phase.Bumped?
    ensures w'.log.phase.req == w.log.phase.req && w'.hist.submitted == w.hist.submitted
  {
    w' := w;
    if w.log.phase.Ready? {
      NotRefused(c, false, a, w, BumpRecord(w.log.gsnClock + 1));
      BumpShape(c, w);
      w' := Goes(c, false, a, w, BumpRecord(w.log.gsnClock + 1));
    }
    var u := w';
    OnEnds(c, false, a, u);
    if u.log.phase.Draining? {
      DrainShape(c, u);
      w' := Goes(c, false, a, u, Drain);
    }
  }

  lemma RecordShape(c: Config, w: World)
    requires Can(c, w, WriteRecord([])) && AllFilled(w.log.holes)
    ensures var w' := After(c, w, WriteRecord([]));
      && w.log.phase.Bumped? && w'.log.phase.Idle? && |w'.log.holes| == 1 && w'.hist.submitted == w.hist.submitted
      && w'.log.holes[0].locked && w'.log.holes[0].size == w.log.phase.req
  {
    var (s, end) := (w.log, w.log.cursor + w.log.phase.req);
    CollectsAll(s);
    InsertCollects(c, s, Splice(s.ring, s.cursor, []), end, Idle,
                   Hole(end, s.gsnClock, true, s.cursor, s.phase.req, s.phase.lsn));
  }

  /** And to the record's hole. */
  lemma GetsHole(c: Config, local: bool, a: World, w: World) returns (w': World)
    requires On(c, local, a, w) && AllFilled(w.log.holes) && w.log.phase.Bumped?
    ensures On(c, local, a, w') && w'.log.phase.Idle? && |w'.log.holes| == 1 && w'.hist.submitted == w.hist.submitted
    ensures w'.log.holes[0].locked && w'.log.holes[0].size == w.log.phase.req
  {
    OnEnds(c, local, a, w);
    WriteNotBlocked(c, w.log, WriteRecord([]));
    NotRefused(c, local, a, w, WriteRecord([]));
    RecordShape(c, w);
    w' := Goes(c, local, a, w, WriteRecord([]));
  }

  /** Nobody holds the log buffer mutex, and all records are submitted. */
  lemma ComesToIdle(c: Config, a: World, w: World) returns (w': World)
    requires On(c, false, a, w)
    ensures On(c, false, a, w') && w'.log.phase.Idle? && AllFilled(w'.log.holes)
    ensures w.hist.submitted <= w'.hist.submitted
  {
    var u := UnlocksAll(c, false, a, w);
    w' := u;
    if !u.log.phase.Idle? {
      var u1 := u;
      if u.log.phase.Granted? || u.log.phase.CrBumped? || u.log.phase.SkipBumped? {
        u1 := GetsReady(c, false, a, u);
      }
      var u2 := GetsLsn(c, a, u1);
      var u3 := GetsHole(c, false, a, u2);
      w' := UnlocksAll(c, false, a, u3);
    }
  }

  // ----- everything is published and written

  lemma CollectedShape(c: Config, w: World)
    requires |w.hist.ends| == |w.log.holes| && w.log.phase.Idle? && AllFilled(w.log.holes)
    ensures Can(c, w, Collect)
    ensures var w' := After(c, w, Collect);
      && w'.log.holes == [] && w'.log.phase.Idle? && w'.hist.submitted == w.hist.submitted && w'.hist.lin == w.hist.lin
      && w'.log.redirect == w.log.redirect
  {
    CollectsAll(w.log);
  }

  ghost predicate Rested(w: World) {
    w.log.phase.Idle? && w.log.holes == [] && w.hist.pub == |w.hist.lin| && w.log.pub.gsn == w.log.gsnClock
  }

  lemma EmptyQueue(c: Config, local: bool, a: World, w: World)
    requires On(c, local, a, w) && w.log.phase.Idle? && w.log.holes == []
    ensures Rested(w)
  {
  }

  lemma Publishes(c: Config, a: World, w: World) returns (w': World)
    requires On(c, false, a, w) && w.log.phase.Idle? && AllFilled(w.log.holes)
    ensures On(c, false, a, w') && Rested(w') && w'.hist.submitted == w.hist.submitted
    ensures w'.log.redirect == w.log.redirect
    ensures w'.hist.lin == w.hist.lin
  {
    OnEnds(c, false, a, w);
    CollectedShape(c, w);
    w' := Goes(c, false, a, w, Collect);
    EmptyQueue(c, false, a, w');
  }

  /** The first i writes of the round are copied, and k bytes of the next one. */
  ghost predicate CopiedTo(ws: seq<Write>, copied: set<nat>, i: nat, k: nat) {
    && i <= |ws| && (i < |ws| ==> k <= ws[i].size) && (i == |ws| ==> k == 0)
    && (forall j, p | 0 <= j < i && ws[j].dev <= p < ws[j].dev + ws[j].size :: p in copied)
    && (i < |ws| ==> forall p | ws[i].dev <= p < ws[i].dev + k :: p in copied)
  }

  /** Device and copied bytes are all that differs. */
  ghost predicate OnlyCopies(w: World, w': World) {
    && w.log.round.Round? && w'.log.round.Round? && w'.hist == w.hist
    && w'.log == w.log.(device := w'.log.device, round := w.log.round.(copied := w'.log.round.copied))
  }

  lemma CopyShape(c: Config, w: World, i: nat, k: nat)
    requires w.log.round.Round? && CopiedTo(w.log.round.writes, w.log.round.copied, i, k)
    requires i < |w.log.round.writes| && k < w.log.round.writes[i].size && Can(c, w, GctCopy(i, k))
    ensures var w' := After(c, w, GctCopy(i, k));
      OnlyCopies(w, w') && CopiedTo(w'.log.round.writes, w'.log.round.copied, i, k + 1)
  {
  }

  lemma {:induction false} Copies(c: Config, local: bool, a: World, w: World, i: nat, k: nat) returns (w': World)
    requires On(c, local, a, w) && w.log.round.Round? && CopiedTo(w.log.round.writes, w.log.round.copied, i, k)
    ensures On(c, local, a, w') && OnlyCopies(w, w')
    ensures CopiedTo(w'.log.round.writes, w'.log.round.copied, |w.log.round.writes|, 0)
    decreases |w.log.round.writes| - i, if i < |w.log.round.writes| then w.log.round.writes[i].size - k else 0
  {
    var ws := w.log.round.writes;
    if i == |ws| {
      w' := w;
    } else if k == ws[i].size {
      w' := Copies(c, local, a, w, i + 1, 0);
    } else {
      NotRefused(c, local, a, w, GctCopy(i, k));
      CopyShape(c, w, i, k);
      var u := Goes(c, local, a, w, GctCopy(i, k));
      w' := Copies(c, local, a, u, i, k + 1);
    }
  }

  lemma EndShape(c: Config, w: World)
    requires |w.hist.ends| == |w.log.holes| && w.log.round.Round?
    requires CopiedTo(w.log.round.writes, w.log.round.copied, |w.log.round.writes|, 0)
    ensures Can(c, w, GctEnd)
    ensures var w' := After(c, w, GctEnd);
      && w'.log == w.log.(gctCursor := w.log.round.pub.offset, seenGsn := w.log.round.pub.gsn, round := NoRound)
      && w'.hist == w.hist.(gct := w.hist.roundEnd)
  {
  }

  /** A round in flight comes to its end. */
  lemma RoundEnds(c: Config, a: World, w: World) returns (w': World)
    requires On(c, false, a, w) && Rested(w) && w.log.round.Round?
    ensures On(c, false, a, w') && Rested(w') && w'.log.round.NoRound? && w'.hist.submitted == w.hist.submitted
    ensures w'.log.redirect == w.log.redirect && w'.hist.lin == w.hist.lin
    ensures w'.log.seenGsn == w.log.round.pub.gsn && w'.hist.gct == w.hist.roundEnd
  {
    var u := Copies(c, false, a, w, 0, 0);
    OnEnds(c, false, a, u);
    EndShape(c, u);
    w' := Goes(c, false, a, u, GctEnd);
  }

  lemma BeginShape(c: Config, w: World)
    requires Can(c, w, GctBegin)
    ensures var w' := After(c, w, GctBegin);
      && w'.log.round.Round? && w'.log.round.pub == w.log.pub && w'.hist.roundEnd == w.hist.pub
      && w'.log == w.log.(segOffset := w'.log.segOffset, round := w'.log.round)
      && w'.hist == w.hist.(roundEnd := w.hist.pub, segBase := w'.hist.segBase)
  {
  }

  /** Nothing is left to do: everything reserved is submitted, published and on the device. */
  ghost predicate Quiet(w: World) {
    Rested(w) && w.log.round.NoRound? && w.hist.gct == |w.hist.lin|
  }

  lemma NewsLeft(c: Config, local: bool, a: World, w: World)
    requires On(c, local, a, w) && Rested(w) && w.log.round.NoRound?
    ensures w.log.seenGsn == w.log.pub.gsn ==> Quiet(w)
    ensures w.log.seenGsn != w.log.pub.gsn ==> !Step(c, w.log, GctBegin).Blocked?
  {
  }

  lemma CommitterCatchesUp(c: Config, a: World, w: World) returns (w': World)
    requires On(c, false, a, w) && Rested(w)
    ensures On(c, false, a, w') && Quiet(w') && w'.hist.submitted == w.hist.submitted
    ensures w'.log.redirect == w.log.redirect
    ensures w'.hist.lin == w.hist.lin
  {
    var u := w;
    if w.log.round.Round? {
      u := RoundEnds(c, a, w);
    }
    w' := u;
    NewsLeft(c, false, a, u);
    if u.log.seenGsn != u.log.pub.gsn {
      NotRefused(c, false, a, u, GctBegin);
      BeginShape(c, u);
      var u1 := Goes(c, false, a, u, GctBegin);
      w' := RoundEnds(c, a, u1);
    }
  }

  /** From every state, a state in which everything reserved is on the device. */
  lemma Quiesces(c: Config, a: World, w: World) returns (w': World)
    requires On(c, false, a, w)
    ensures On(c, false, a, w') && Quiet(w') && w.hist.submitted <= w'.hist.submitted
  {
    var u := ComesToIdle(c, a, w);
    var u1 := Publishes(c, a, u);
    w' := CommitterCatchesUp(c, a, u1);
  }

  // ----- the next record

  /** Where the record itself starts: behind a carriage return, behind the bytes up to the next block, or at the end. */
  function Start(c: Config, w: World, req: nat): (p: nat) {
    if w.log.cursor + req + c.crSize > c.bufSize then w.hist.lap + c.bufSize
    else if DownAlign(w.log.cursor) != DownAlign(w.log.cursor + req) then w.hist.lap + UpAlign(w.log.cursor)
    else |w.hist.lin|
  }

  lemma QuietGrants(c: Config, local: bool, a: World, w: World, req: nat)
    requires On(c, local, a, w) && Quiet(w) && !w.log.redirect && 0 < req && req + c.crSize <= BLOCK
    ensures Can(c, w, Grant(req))
  {
    GrantWhen(c, w, req);
    DownWithin(w.hist.gct);
  }

  lemma DownWithin(x: nat)
    ensures DownAlign(x) <= x < DownAlign(x) + BLOCK
  {
  }

  /** What the branch comes to, in terms of the cursor. */
  ghost predicate Branched(c: Config, w: World, w': World, req: nat) {
    && w'.hist.lin == w.hist.lin && w'.hist.lap == w.hist.lap && w'.log.cursor == w.log.cursor
    && w'.log.holes == w.log.holes && w'.hist.submitted == w.hist.submitted
    && w'.log.phase == (if w.log.cursor + req + c.crSize > c.bufSize then CrBumped(req)
                        else if DownAlign(w.log.cursor) != DownAlign(w.log.cursor + req) then SkipBumped(req)
                        else Ready(req))
  }

  lemma BranchAt(c: Config, w: World, req: nat, w': World)
    requires w.log.phase == Granted(req) && StepTo(c, w, Branch, w')
    requires ContiguousFreeSpace(c, w.log.gctCursor, w.log.cursor) < req + c.crSize
        <==> c.bufSize - w.log.cursor < req + c.crSize
    ensures Branched(c, w, w', req)
  {
  }

  lemma BranchTaken(c: Config, local: bool, a: World, w: World, req: nat)
    requires On(c, local, a, w) && w.log.phase == Granted(req)
    ensures ContiguousFreeSpace(c, w.log.gctCursor, w.log.cursor) < req + c.crSize
       <==> c.bufSize - w.log.cursor < req + c.crSize
  {
    BranchChoice(c, w.log, w.hist);
  }

  lemma WriteAt(c: Config, local: bool, a: World, w: World, e: Event)
    requires On(c, local, a, w) && Can(c, w, e) && (e.WriteCr? || e.WriteSkip?)
    ensures var w' := After(c, w, e);
      && (e.WriteCr? ==> w.log.phase.CrBumped? && |w'.hist.lin| == w.hist.lap + c.bufSize)
      && (e.WriteSkip? ==> w.log.phase.SkipBumped? && |w'.hist.lin| == w.hist.lap + UpAlign(w.log.cursor))
  {
  }

  lemma TakesBranch(c: Config, local: bool, a: World, w: World, req: nat) returns (w': World)
    requires On(c, local, a, w) && w.log.phase == Granted(req)
    ensures On(c, local, a, w') && Branched(c, w, w', req)
  {
    BranchTaken(c, local, a, w, req);
    NotRefused(c, local, a, w, Branch);
    w' := Goes(c, local, a, w, Branch);
    BranchAt(c, w, req, w');
  }

  lemma WritesEntry(c: Config, local: bool, a: World, w: World) returns (w': World)
    requires On(c, local, a, w) && AllFilled(w.log.holes) && (w.log.phase.CrBumped? || w.log.phase.SkipBumped?)
    ensures On(c, local, a, w') && AllFilled(w'.log.holes) && w'.log.phase == Ready(w.log.phase.req)
    ensures w'.hist.submitted == w.hist.submitted
    ensures |w'.hist.lin| == w.hist.lap + if w.log.phase.CrBumped? then c.bufSize else UpAlign(w.log.cursor)
  {
    var e := if w.log.phase.CrBumped? then WriteCr(Entry(c)) else WriteSkip(0);
    OnEnds(c, local, a, w);
    WriteNotBlocked(c, w.log, e);
    NotRefused(c, local, a, w, e);
    WroteShape(c, w, e);
    WriteAt(c, local, a, w, e);
    w' := Goes(c, local, a, w, e);
  }

  /** The reserved place. */
  lemma GetsPlace(c: Config, local: bool, a: World, w: World, req: nat) returns (w': World)
    requires On(c, local, a, w) && w.log.phase == Granted(req) && AllFilled(w.log.holes)
    ensures On(c, local, a, w') && AllFilled(w'.log.holes) && w'.log.phase == Ready(req)
    ensures |w'.hist.lin| == Start(c, w, req)
    ensures w'.hist.submitted == w.hist.submitted
  {
    var u := TakesBranch(c, local, a, w, req);
    if u.log.phase.Ready? {
      w' := u;
    } else {
      w' := WritesEntry(c, local, a, u);
    }
  }

  lemma BumpAt(c: Config, w: World, e: Event)
    requires Can(c, w, e) && (e.BumpRecord? || e.Drain?)
    ensures After(c, w, e).hist.lin == w.hist.lin
  {
  }

  lemma RecordAt(c: Config, w: World)
    requires Can(c, w, WriteRecord([])) && AllFilled(w.log.holes) && w.log.phase.Bumped?
    ensures var w' := After(c, w, WriteRecord([]));
      && |w'.hist.ends| == |w'.log.holes| == 1 && |w'.hist.lin| == |w.hist.lin| + w.log.phase.req == w'.hist.ends[0]
  {
    CollectsAll(w.log);
    var (s, end) := (w.log, w.log.cursor + w.log.phase.req);
    InsertCollects(c, s, Splice(s.ring, s.cursor, []), end, Idle,
                   Hole(end, s.gsnClock, true, s.cursor, s.phase.req, s.phase.lsn));
  }

  /** A record of req bytes is in the log at `at`, its hole is the only one, and it is still to be filled. */
  ghost predicate Reserved(w: World, at: nat, req: nat) {
    && w.log.phase.Idle? && |w.log.holes| == |w.hist.ends| == 1 && w.log.holes[0].locked && w.log.holes[0].size == req
    && w.hist.ends[0] == at + req == |w.hist.lin|
  }

  lemma Bumps(c: Config, a: World, w: World) returns (w': World)
    requires On(c, false, a, w) && AllFilled(w.log.holes) && w.log.phase.Ready?
    ensures On(c, false, a, w') && AllFilled(w'.log.holes) && w'.log.phase.Bumped?
    ensures w'.log.phase.req == w.log.phase.req
    ensures w'.hist.submitted == w.hist.submitted && w'.hist.lin == w.hist.lin
  {
    var e := BumpRecord(w.log.gsnClock + 1);
    NotRefused(c, false, a, w, e);
    BumpShape(c, w);
    BumpAt(c, w, e);
    var u := Goes(c, false, a, w, e);
    w' := Drains(c, false, a, u);
  }

  lemma Drains(c: Config, local: bool, a: World, w: World) returns (w': World)
    requires On(c, local, a, w) && AllFilled(w.log.holes) && (w.log.phase.Draining? || w.log.phase.Bumped?)
    ensures On(c, local, a, w') && AllFilled(w'.log.holes) && w'.log.phase.Bumped?
    ensures w'.log.phase.req == w.log.phase.req && w'.hist.submitted == w.hist.submitted && w'.hist.lin == w.hist.lin
  {
    w' := w;
    if w.log.phase.Draining? {
      OnEnds(c, local, a, w);
      DrainShape(c, w);
      BumpAt(c, w, Drain);
      w' := Goes(c, local, a, w, Drain);
    }
  }

  lemma GetsGranted(c: Config, a: World, w: World, req: nat) returns (w': World)
    requires On(c, false, a, w) && Quiet(w) && !w.log.redirect && 0 < req && req + c.crSize <= BLOCK
    ensures On(c, false, a, w') && w' == World(w.log.(phase := Granted(req)), w.hist)
  {
    QuietGrants(c, false, a, w, req);
    w' := Goes(c, false, a, w, Grant(req));
    GrantShape(c, w, req, w');
  }

  lemma WritesRecord(c: Config, local: bool, a: World, w: World) returns (w': World)
    requires On(c, local, a, w) && AllFilled(w.log.holes) && w.log.phase.Bumped?
    ensures On(c, local, a, w') && Reserved(w', |w.hist.lin|, w.log.phase.req) && w'.hist.submitted == w.hist.submitted
  {
    OnEnds(c, local, a, w);
    WriteNotBlocked(c, w.log, WriteRecord([]));
    NotRefused(c, local, a, w, WriteRecord([]));
    RecordShape(c, w);
    RecordAt(c, w);
    w' := Goes(c, local, a, w, WriteRecord([]));
  }

  /** The first k bytes are filled. */
  ghost predicate Filled(w: World, bytes: seq<byte>, k: nat) {
    && |w.log.holes| == 1 && k <= |bytes| && w.log.holes[0].start + k <= |w.log.ring|
    && w.log.ring[w.log.holes[0].start..w.log.holes[0].start + k] == bytes[..k]
  }

  lemma FillShape(c: Config, w: World, bytes: seq<byte>, k: nat)
    requires Filled(w, bytes, k) && k < |bytes| && Can(c, w, Fill(w.log.head, k, bytes[k]))
    ensures var w' := After(c, w, Fill(w.log.head, k, bytes[k]));
      && Filled(w', bytes, k + 1) && w'.log == w.log.(ring := w'.log.ring) && |w'.hist.lin| == |w.hist.lin|
      && w'.hist == w.hist.(lin := w'.hist.lin)
  {
    var w' := After(c, w, Fill(w.log.head, k, bytes[k]));
    var start := w.log.holes[0].start;
    assert w'.log.ring[start..start + k + 1] == w.log.ring[start..start + k] + [bytes[k]];
    assert bytes[..k + 1] == bytes[..k] + [bytes[k]];
  }

  lemma {:induction false} Fills(c: Config, local: bool, a: World, w: World, at: nat, bytes: seq<byte>, k: nat)
    returns (w': World)
    requires On(c, local, a, w) && Reserved(w, at, |bytes|) && Filled(w, bytes, k)
    ensures On(c, local, a, w') && Reserved(w', at, |bytes|) && Filled(w', bytes, |bytes|)
    ensures w'.hist.submitted == w.hist.submitted
    decreases |bytes| - k
  {
    if k == |bytes| {
      w' := w;
    } else {
      var e := Fill(w.log.head, k, bytes[k]);
      NotRefused(c, local, a, w, e);
      FillShape(c, w, bytes, k);
      var u := Goes(c, local, a, w, e);
      w' := Fills(c, local, a, u, at, bytes, k + 1);
    }
  }

  lemma HoleInRing(c: Config, local: bool, a: World, w: World)
    requires On(c, local, a, w) && |w.log.holes| == 1 && w.log.holes[0].locked
    ensures |w.hist.ends| == 1 && w.log.holes[0].start + w.log.holes[0].size <= |w.log.ring|
    ensures w.log.holes[0].size <= w.hist.ends[0]
  {
    HolePlace(c, w.log, w.hist, 0, 0);
  }

  /** Its owner submits it. */
  lemma Submits(c: Config, local: bool, a: World, w: World, at: nat, bytes: seq<byte>) returns (w': World, r: Submitted)
    requires On(c, local, a, w) && Reserved(w, at, |bytes|) && Filled(w, bytes, |bytes|)
    ensures On(c, local, a, w') && w'.log.phase.Idle? && AllFilled(w'.log.holes)
    ensures w'.hist.submitted == w.hist.submitted + [r] && r.bytes == bytes && r.at == at
  {
    OnEnds(c, local, a, w);
    HoleInRing(c, local, a, w);
    UnlockedShape(c, w, 0);
    w' := Goes(c, local, a, w, Unlock(w.log.head));
    UnlockShape(c, w, w.log.head, 0, w');
    r := RecordIn(w, 0);
    assert bytes[..|bytes|] == bytes;
  }

  /** From reserveLSN's return to submit(), as far as group commit does not see it. */
  lemma WritesAndSubmits(c: Config, local: bool, a: World, w: World, bytes: seq<byte>) returns (w': World, r: Submitted)
    requires On(c, local, a, w) && AllFilled(w.log.holes) && (w.log.phase.Draining? || w.log.phase.Bumped?)
    requires w.log.phase.req == |bytes|
    ensures On(c, local, a, w') && w'.log.phase.Idle? && AllFilled(w'.log.holes)
    ensures w'.hist.submitted == w.hist.submitted + [r] && r.bytes == bytes && r.at == |w.hist.lin|
  {
    var u := Drains(c, local, a, w);
    var u1 := WritesRecord(c, local, a, u);
    HoleInRing(c, local, a, u1);
    assert Filled(u1, bytes, 0);
    var u2 := Fills(c, local, a, u1, |w.hist.lin|, bytes, 0);
    w', r := Submits(c, local, a, u2, |w.hist.lin|, bytes);
  }

  /** r is on the device. */
  ghost predicate IsDurable(w: World, r: Submitted) {
    forall j | 0 <= j < |r.bytes| :: r.lsn + j in w.log.device && w.log.device[r.lsn + j] == r.bytes[j]
  }

  lemma QuietIsDurable(c: Config, local: bool, a: World, w: World, r: Submitted)
    requires On(c, local, a, w) && Quiet(w) && c.fakeWrap == 0 && r in w.hist.submitted
    ensures IsDurable(w, r)
  {
    assert SubmittedOk(c, w.log, w.hist, r);
    forall j | 0 <= j < |r.bytes|
      ensures r.lsn + j in w.log.device && w.log.device[r.lsn + j] == r.bytes[j]
    {
      assert w.hist.lin[r.at..r.at + |r.bytes|][j] == w.hist.lin[r.at + j];
    }
  }

  /** A record that is taken when everything before it is on the device. */
  lemma Appends(c: Config, a: World, w: World, bytes: seq<byte>) returns (w': World, r: Submitted)
    requires On(c, false, a, w) && Quiet(w) && !w.log.redirect && 0 < |bytes| && |bytes| + c.crSize <= BLOCK
    ensures On(c, false, a, w') && Quiet(w') && w'.hist.submitted == w.hist.submitted + [r]
    ensures r.bytes == bytes && r.at == Start(c, w, |bytes|) && (c.fakeWrap == 0 ==> IsDurable(w', r))
  {
    var u := GetsGranted(c, a, w, |bytes|);
    assert Start(c, u, |bytes|) == Start(c, w, |bytes|);
    var u1 := GetsPlace(c, false, a, u, |bytes|);
    var u2 := Bumps(c, a, u1);
    var u3;
    u3, r := WritesAndSubmits(c, false, a, u2, bytes);
    var u4 := Publishes(c, a, u3);
    w' := CommitterCatchesUp(c, a, u4);
    if c.fakeWrap == 0 {
      QuietIsDurable(c, false, a, w', r);
    }
  }

  // ----- over runs

  lemma InitNews(c: Config)
    ensures NewsOk(World(Init(c), INIT_HISTORY))
  {
  }

  lemma NewsAt(c: Config, worlds: seq<World>, events: seq<Event>, i: nat)
    requires ValidConfig(c) && Run(c, worlds, events) && i < |events|
    requires |worlds[i].hist.ends| == |worlds[i].log.holes| && NewsOk(worlds[i])
    ensures |worlds[i + 1].hist.ends| == |worlds[i + 1].log.holes| && NewsOk(worlds[i + 1])
  {
    RunKeeps(c, worlds, events, i);
    RunKeeps(c, worlds, events, i + 1);
    assert StepAt(c, worlds, events, i);
    NewsKept(c, worlds[i], events[i], worlds[i + 1]);
  }

  lemma {:induction false} RunNews(c: Config, worlds: seq<World>, events: seq<Event>, i: nat)
    requires ValidConfig(c) && Run(c, worlds, events) && i < |worlds|
    ensures |worlds[i].hist.ends| == |worlds[i].log.holes| && NewsOk(worlds[i])
    decreases i
  {
    if i == 0 {
      InitNews(c);
    } else {
      RunNews(c, worlds, events, i - 1);
      NewsAt(c, worlds, events, i - 1);
    }
  }

  lemma OnInRuns(c: Config, worlds: seq<World>, events: seq<Event>, i: nat)
    requires ValidConfig(c) && Run(c, worlds, events) && i < |worlds|
    ensures On(c, false, worlds[i], worlds[i])
  {
    RunNews(c, worlds, events, i);
    RunKeeps(c, worlds, events, i);
    var (w, none: seq<Event>) := (worlds[i], []);
    assert Path(c, [w], none) && [w][0] == w && [w][|none|] == w;
  }

  /**
    From every state of every run there is a continuation to a state in which every record reserved so far is submitted,
    published and on the device, and nobody is waiting.
   */
  lemma EverythingGetsWritten(c: Config, worlds: seq<World>, events: seq<Event>, i: nat) returns (w': World)
    requires ValidConfig(c) && Run(c, worlds, events) && i < |worlds|
    ensures Leads(c, false, worlds[i], w') && Quiet(w') && worlds[i].hist.submitted <= w'.hist.submitted
  {
    OnInRuns(c, worlds, events, i);
    w' := Quiesces(c, worlds[i], worlds[i]);
  }

  /**
    From every such state of a log that is not closed, every record that fits a block with a carriage return can be
    reserved, filled and submitted; it starts right behind the log, or at the next block or lap if it must, and the
    device then holds it at its LSN.
   */
  lemma NextRecordIsTaken(c: Config, worlds: seq<World>, events: seq<Event>, i: nat, bytes: seq<byte>)
    returns (w': World, r: Submitted)
    requires ValidConfig(c) && Run(c, worlds, events) && i < |worlds| && Quiet(worlds[i]) && !worlds[i].log.redirect
    requires 0 < |bytes| && |bytes| + c.crSize <= BLOCK
    ensures Leads(c, false, worlds[i], w') && Quiet(w') && w'.hist.submitted == worlds[i].hist.submitted + [r]
    ensures r.bytes == bytes && r.at == Start(c, worlds[i], |bytes|) && (c.fakeWrap == 0 ==> IsDurable(w', r))
  {
    OnInRuns(c, worlds, events, i);
    w', r := Appends(c, worlds[i], worlds[i], bytes);
  }

  /** So there is a run with any first record, for every configuration. */
  lemma FirstRecordIsTaken(c: Config, bytes: seq<byte>) returns (w': World, r: Submitted)
    requires ValidConfig(c) && 0 < |bytes| && |bytes| + c.crSize <= BLOCK
    ensures Reachable(c, w') && w'.hist.submitted == [r] && r.bytes == bytes && r.at + |bytes| <= w'.hist.gct
    ensures c.fakeWrap == 0 ==> IsDurable(w', r)
  {
    var (w, none: seq<Event>) := (World(Init(c), INIT_HISTORY), []);
    assert Run(c, [w], none);
    w', r := NextRecordIsTaken(c, [w], none, 0, bytes);
    var worlds, events :| Path(c, worlds, events) && worlds[0] == w && worlds[|events|] == w';
    assert Run(c, worlds, events) && w' == worlds[|events|];
    RunKeeps(c, worlds, events, |events|);
    assert SubmittedOk(c, w'.log, w'.hist, r);
  }
}
