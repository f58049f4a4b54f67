/** Exactly when the watermark can be trusted for every record: runs in which it overtakes one. */
module SubmitLimits {
  import opened Wrappers
  import opened GroupCommit
  import GroupCommitProof
  import opened SubmitSteps

  ghost predicate Reaches(n: nat, s: Sys) {
    exists states, moves :: Run(n, true, states, moves) && s == states[|moves|]
  }

  lemma ReachesInit(n: nat)
    requires n > 0
    ensures Reaches(n, Init(n))
  {
    var moves: seq<Move> := [];
    assert Run(n, true, [Init(n)], moves) && Init(n) == [Init(n)][|moves|];
  }

  lemma ReachesNext(n: nat, s: Sys, m: Move, s': Sys)
    requires Reaches(n, s) && MoveTo(s, m, s')
    ensures Reaches(n, s')
  {
    var states: seq<Sys>, moves: seq<Move> :| Run(n, true, states, moves) && s == states[|moves|];
    var (states', moves') := (states + [s'], moves + [m]);
    forall i | 0 <= i < |moves'|
      ensures MoveAt(states', moves', i)
    {
      assert i < |moves| ==> MoveAt(states, moves, i);
    }
    assert Run(n, true, states', moves') && s' == states'[|moves'|];
  }

  // ----- every worker writes one record; worker 0 does not get to collect its hole

  /** Worker k after its one record, with GSN 1. */
  ghost predicate HasOne(my: Worker, k: nat) {
    && my.records == [Record(k, 0, 1, k)] && my.visible == 1 && my.written == 0
    && (my.open <==> k == 0) && my.lastGsn == (if k == 0 then 0 else 1) && my.published == (if k == 0 then 0 else 1)
  }

  /** The first i workers have written. */
  ghost predicate Entered(s: Sys, n: nat, i: nat) {
    && i <= n && 0 < n == |s.workers| == |s.lastSeen| && s.phase == ReadWorkers([], []) && s.sync == 0
    && (forall k | 0 <= k < n :: s.lastSeen[k] == 0)
    && (forall k | 0 <= k < i :: HasOne(s.workers[k], k))
    && (forall k | i <= k < n :: s.workers[k] == InitWorker())
    && (forall page | page in s.pages :: page < i)
  }

  lemma NotLatched(s: Sys, n: nat, i: nat)
    requires Entered(s, n, i) && i < n
    ensures !Latched(s, i, i)
  {
    forall o | 0 <= o < |s.workers| && o != i
      ensures !OpenOn(s.workers[o], i)
    {
      if o < i {
        assert HasOne(s.workers[o], o);
      }
    }
  }

  lemma Begun(n: nat, s: Sys, i: nat) returns (s': Sys)
    requires Entered(s, n, i) && i < n && Reaches(n, s)
    ensures Reaches(n, s') && |s'.workers| == n && s' == Put(s, i, s'.workers[i])
    ensures var my := s'.workers[i]; my == InitWorker().(running := true, startTs := my.startTs)
  {
    s' := Put(s, i, InitWorker().(running := true, startTs := i + 1));
    ReachesNext(n, s, Whole(StartTx(i, i + 1)), s');
  }

  /** One more worker: its transaction starts, and its record gets GSN 1. */
  lemma Opened(n: nat, s: Sys, i: nat) returns (s': Sys)
    requires Entered(s, n, i) && i < n && Reaches(n, s)
    ensures Reaches(n, s') && |s'.workers| == n && s' == Put(s, i, s'.workers[i]).(pages := s.pages[i := 1])
    ensures var my := s'.workers[i];
            && my.records == [Record(i, 0, 1, i)] && my.open && my.clock == my.logClock == 1
            && my.written == my.published == my.lastGsn == 0
  {
    var s1 := Begun(n, s, i);
    NotLatched(s, n, i);
    StillFree(s, s1, i);
    assert NewGsn(s1, i, i) == 1;
    var e := Reserve(i, i);
    s' := Step(s1, e).value;
    ReachesNext(n, s1, Whole(e), s');
  }

  lemma StillFree(s: Sys, s': Sys, i: nat)
    requires i < |s.workers| == |s'.workers| && !Latched(s, i, i)
    requires forall o | 0 <= o < |s.workers| && o != i :: s'.workers[o] == s.workers[o]
    ensures !Latched(s', i, i)
  {
    forall o | 0 <= o < |s'.workers| && o != i
      ensures !OpenOn(s'.workers[o], i)
    {
      assert !OpenOn(s.workers[o], i);
    }
  }

  lemma Enters(n: nat, s: Sys, i: nat) returns (s': Sys)
    requires Entered(s, n, i) && i < n && Reaches(n, s)
    ensures Entered(s', n, i + 1) && Reaches(n, s')
  {
    var s1 := Opened(n, s, i);
    var my := s1.workers[i];
    if i == 0 {
      s' := Put(s1, i, my.(visible := my.clock));
      ReachesNext(n, s1, Publish(i), s');
    } else {
      s' := Put(s1, i, my.(open := false, visible := my.clock, published := |my.records|, lastGsn := my.logClock));
      ReachesNext(n, s1, Whole(Submit(i)), s');
    }
  }

  lemma {:induction false} AllEnter(n: nat, i: nat) returns (s: Sys)
    requires 0 < n && i <= n
    ensures Entered(s, n, i) && Reaches(n, s)
    decreases i
  {
    if i == 0 {
      s := Init(n);
      ReachesInit(n);
    } else {
      var s0 := AllEnter(n, i - 1);
      s := Enters(n, s0, i - 1);
    }
  }

  // ----- the committer's round

  ghost predicate All(s: seq<nat>, n: nat, x: nat) {
    |s| == n && forall i | 0 <= i < n :: s[i] == x
  }

  /** The committer has read i workers. */
  lemma {:induction false} ReadsWorkers(n: nat, s: Sys, i: nat) returns (vs: seq<nat>, hs: seq<nat>)
    requires Entered(s, n, n) && Reaches(n, s) && i <= n
    ensures All(vs, i, 1) && |hs| == i
    ensures Reaches(n, s.(phase := if i == n then ReadLogs(vs, hs, []) else ReadWorkers(vs, hs)))
    decreases i
  {
    if i == 0 {
      vs, hs := [], [];
      assert s.(phase := ReadWorkers(vs, hs)) == s;
    } else {
      var v, h := ReadsWorkers(n, s, i - 1);
      assert HasOne(s.workers[i - 1], i - 1);
      vs, hs := v + [1], h + [s.workers[i - 1].precommitted];
      ReachesNext(n, s.(phase := ReadWorkers(v, h)), Whole(GctReadWorker),
                  s.(phase := if i == n then ReadLogs(vs, hs, []) else ReadWorkers(vs, hs)));
    }
  }

  function CopyOf(k: nat): (c: Copy) {
    if k == 0 then Copy(0, 0) else Copy(1, 1)
  }

  /** The committer has read i logs. */
  lemma {:induction false} ReadsLogs(n: nat, s: Sys, vs: seq<nat>, hs: seq<nat>, i: nat) returns (copies: seq<Copy>)
    requires Entered(s, n, n) && Reaches(n, s.(phase := ReadLogs(vs, hs, []))) && i <= n
    ensures |copies| == i && (forall k | 0 <= k < i :: copies[k] == CopyOf(k))
    ensures Reaches(n, s.(phase := ReadLogs(vs, hs, copies)))
    decreases i
  {
    if i == 0 {
      copies := [];
    } else {
      var before := ReadsLogs(n, s, vs, hs, i - 1);
      assert HasOne(s.workers[i - 1], i - 1);
      copies := before + [CopyOf(i - 1)];
      ReachesNext(n, s.(phase := ReadLogs(vs, hs, before)), Whole(GctReadLog), s.(phase := ReadLogs(vs, hs, copies)));
    }
  }

  /** All workers have published GSN 1, and all logs but the first show it. */
  lemma Overtakes(vs: seq<nat>, gsns: seq<nat>, lastSeen: seq<nat>, n: nat)
    requires n >= 2 && All(vs, n, 1) && All(lastSeen, n, 0) && |gsns| == n
    requires gsns[0] == 0 && forall i | 1 <= i < n :: gsns[i] == 1
    ensures Watermark(vs, gsns, lastSeen) == Some(1)
  {
    var (active, straggler) := (MinLogs(gsns, lastSeen, true), MinLogs(gsns, lastSeen, false));
    assert gsns[1] != lastSeen[1] && gsns[0] == lastSeen[0];
    assert active.Some? && straggler.Some?;
  }

  lemma Flushes(n: nat, s: Sys, vs: seq<nat>, hs: seq<nat>, copies: seq<Copy>) returns (s': Sys)
    requires n >= 2 && Entered(s, n, n) && All(vs, n, 1) && |hs| == n
    requires |copies| == n && forall k | 0 <= k < n :: copies[k] == CopyOf(k)
    requires Reaches(n, s.(phase := ReadLogs(vs, hs, copies)))
    ensures Reaches(n, s') && |s'.workers| == n && s'.durable == 1
    ensures s'.workers[0] == s.workers[0]
  {
    var (s1, gsns) := (s.(phase := ReadLogs(vs, hs, copies)), Gsns(copies));
    assert forall k | 0 <= k < n :: gsns[k] == CopyOf(k).gsn;
    Overtakes(vs, gsns, s.lastSeen, n);
    s' := Step(s1, GctFlush).value;
    ReachesNext(n, s1, Whole(GctFlush), s');
  }

  /** The watermark is 1, and worker 0's record with GSN 1 is not written. */
  lemma OvertakenRecord(n: nat) returns (s: Sys)
    requires n >= 2
    ensures Reaches(n, s) && !Sound(s)
  {
    var s0 := AllEnter(n, n);
    var vs, hs := ReadsWorkers(n, s0, n);
    var copies := ReadsLogs(n, s0, vs, hs, n);
    s := Flushes(n, s0, vs, hs, copies);
    assert HasOne(s0.workers[0], 0);
    var r := Record(0, 0, 1, 0);
    assert IsRecord(s, r) && r.gsn <= s.durable && !IsWritten(s, r);
  }

  /** The exact condition: submit() is one step, or there is one worker. */
  lemma WatermarkIff(n: nat, split: bool)
    requires n >= 1
    ensures WatermarkHolds(n, split) <==> !split || n == 1
  {
    if !split {
      forall states: seq<Sys>, moves: seq<Move>, k: nat | Run(n, split, states, moves) && k <= |moves|
        ensures Sound(states[k])
      {
        WholeHolds(n, states, moves, k);
      }
    } else if n == 1 {
      forall states: seq<Sys>, moves: seq<Move>, k: nat | Run(n, split, states, moves) && k <= |moves|
        ensures Sound(states[k])
      {
        AloneHolds(states, moves, k);
      }
    } else {
      var s := OvertakenRecord(n);
      var states: seq<Sys>, moves: seq<Move> :| Run(n, true, states, moves) && s == states[|moves|];
      assert !Sound(states[|moves|]);
    }
  }
}
