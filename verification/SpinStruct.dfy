/**
  The single-writer spin struct through which a log publishes to the group committer: the writer changes the value
  field by field between two increments of the version, readers copy it field by field and retry.
 */
module SpinStruct {
  import opened Wrappers

  datatype Writer = Idle | Writing(next: nat, value: seq<int>)

  /** Returned: what getSync gives back. */
  datatype Reader = Waiting | Copying(version: nat, copy: seq<int>) | Returned(version: nat, copy: seq<int>)

  datatype Sys = Sys(version: nat, value: seq<int>, writer: Writer, readers: seq<Reader>)

  datatype Event = BeginPush(next: seq<int>) | WriteField | EndPush | Load(r: nat) | CopyField(r: nat) | Check(r: nat)

  function Init(value: seq<int>, readers: nat): (s: Sys) {
    Sys(0, value, Idle, seq(readers, i => Waiting))
  }

  function Put(s: Sys, r: nat, reader: Reader): (s': Sys)
    requires r < |s.readers|
  {
    s.(readers := s.readers[r := reader])
  }

  function Step(s: Sys, e: Event): (s': Option<Sys>) {
    match e
    case BeginPush(next) =>
      if !s.writer.Idle? || |next| != |s.value| then None
      else Some(s.(version := s.version + 1, writer := Writing(0, next)))
    case WriteField =>
      if !s.writer.Writing? || s.writer.next >= |s.value| || |s.writer.value| != |s.value| then None
      else
        var k := s.writer.next;
        Some(s.(value := s.value[k := s.writer.value[k]], writer := Writing(k + 1, s.writer.value)))
    case EndPush =>
      if !s.writer.Writing? || s.writer.next < |s.value| then None
        else Some(s.(version := s.version + 1, writer := Idle))
    case Load(r) =>
      if r >= |s.readers| || s.readers[r].Copying? || s.version % 2 == 1 then None
        else Some(Put(s, r, Copying(s.version, [])))
    case CopyField(r) =>
      if r >= |s.readers| || !s.readers[r].Copying? || |s.readers[r].copy| >= |s.value| then None
      else
        var (v, copy) := (s.readers[r].version, s.readers[r].copy);
        Some(Put(s, r, Copying(v, copy + [s.value[|copy|]])))
    case Check(r) =>
      if r >= |s.readers| || !s.readers[r].Copying? || |s.readers[r].copy| < |s.value| then None
      else
        var (v, copy) := (s.readers[r].version, s.readers[r].copy);
        Some(Put(s, r, if v == s.version then Returned(v, copy) else Waiting))
  }

  // ----- what the calls of pushSync say

  /** The argument of the last pushSync that has begun. */
  ghost function Begun(events: seq<Event>): (next: seq<int>) {
    if events == [] then []
    else
      var last := events[|events| - 1];
      if last.BeginPush? then last.next else Begun(events[..|events| - 1])
  }

  /**
    The initial value, then the argument of every pushSync that has returned: the value of version v is entry v / 2.
   */
  ghost function Pushed(value: seq<int>, events: seq<Event>): (r: seq<seq<int>>)
    ensures r != []
  {
    if events == [] then [value]
    else
      var before := events[..|events| - 1];
      if events[|events| - 1].EndPush? then Pushed(value, before) + [Begun(before)] else Pushed(value, before)
  }

  lemma OneMore(value: seq<int>, events: seq<Event>, e: Event)
    ensures Begun(events + [e]) == if e.BeginPush? then e.next else Begun(events)
    ensures Pushed(value, events + [e]) == if e.EndPush? then Pushed(value, events) + [Begun(events)]
                                           else Pushed(value, events)
  {
    assert (events + [e])[..|events|] == events;
  }

  ghost predicate WriterOk(s: Sys, pushed: seq<seq<int>>, begun: seq<int>) {
    && |pushed| == s.version / 2 + 1
    && (forall i | 0 <= i < |pushed| :: |pushed[i]| == |s.value|)
    && match s.writer
       case Idle => s.version % 2 == 0 && s.value == pushed[s.version / 2]
       case Writing(k, next) =>
         && s.version % 2 == 1 && next == begun && |next| == |s.value| && k <= |s.value|
         && s.value[..k] == next[..k] && s.value[k..] == pushed[s.version / 2][k..]
  }

  ghost predicate ReaderOk(s: Sys, pushed: seq<seq<int>>, reader: Reader) {
    match reader
    case Waiting => true
    case Copying(v, copy) =>
      && v % 2 == 0 && v <= s.version && v / 2 < |pushed| && |copy| <= |s.value|
      && (v == s.version ==> copy <= pushed[v / 2])
    case Returned(v, copy) => v % 2 == 0 && v <= s.version && v / 2 < |pushed| && copy == pushed[v / 2]
  }

  ghost predicate Inv(s: Sys, pushed: seq<seq<int>>, begun: seq<int>) {
    && WriterOk(s, pushed, begun)
    && forall r | 0 <= r < |s.readers| :: ReaderOk(s, pushed, s.readers[r])
  }

  lemma WriterStepKeeps(s: Sys, pushed: seq<seq<int>>, begun: seq<int>, e: Event, s': Sys)
    requires Inv(s, pushed, begun) && Step(s, e) == Some(s') && (e.BeginPush? || e.WriteField? || e.EndPush?)
    ensures Inv(s', if e.EndPush? then pushed + [begun] else pushed, if e.BeginPush? then e.next else begun)
  {
    forall r | 0 <= r < |s.readers|
      ensures ReaderOk(s', if e.EndPush? then pushed + [begun] else pushed, s'.readers[r])
    {
      assert ReaderOk(s, pushed, s.readers[r]);
    }
  }

  lemma ReaderStepKeeps(s: Sys, pushed: seq<seq<int>>, begun: seq<int>, e: Event, s': Sys)
    requires Inv(s, pushed, begun) && Step(s, e) == Some(s') && (e.Load? || e.CopyField? || e.Check?)
    ensures Inv(s', pushed, begun)
  {
    forall r | 0 <= r < |s.readers|
      ensures ReaderOk(s', pushed, s'.readers[r])
    {
      assert ReaderOk(s, pushed, s.readers[r]);
    }
  }

  ghost predicate Run(states: seq<Sys>, events: seq<Event>, value: seq<int>, readers: nat) {
    && |states| == |events| + 1 && states[0] == Init(value, readers)
    && forall i | 0 <= i < |events| :: Step(states[i], events[i]) == Some(states[i + 1])
  }

  lemma {:induction false} RunKeeps(states: seq<Sys>, events: seq<Event>, value: seq<int>, readers: nat, k: nat)
    requires Run(states, events, value, readers) && k <= |events|
    ensures Inv(states[k], Pushed(value, events[..k]), Begun(events[..k]))
  {
    if k > 0 {
      RunKeeps(states, events, value, readers, k - 1);
      var e := events[k - 1];
      assert events[..k] == events[..k - 1] + [e];
      OneMore(value, events[..k - 1], e);
      if e.BeginPush? || e.WriteField? || e.EndPush? {
        WriterStepKeeps(states[k - 1], Pushed(value, events[..k - 1]), Begun(events[..k - 1]), e, states[k]);
      } else {
        ReaderStepKeeps(states[k - 1], Pushed(value, events[..k - 1]), Begun(events[..k - 1]), e, states[k]);
      }
    }
  }

  /**
    getSync never returns a torn value: it returns the argument of the last pushSync that had returned when it checked,
    or the initial value.
   */
  lemma NeverTorn(states: seq<Sys>, events: seq<Event>, value: seq<int>, readers: nat, k: nat, r: nat)
    requires Run(states, events, value, readers) && k < |events| && r < |states[k + 1].readers|
    requires events[k] == Check(r) && states[k + 1].readers[r].Returned?
    ensures var pushed := Pushed(value, events[..k]);
            states[k + 1].readers[r].copy == states[k].value == pushed[|pushed| - 1]
  {
    RunKeeps(states, events, value, readers, k);
    assert ReaderOk(states[k], Pushed(value, events[..k]), states[k].readers[r]);
  }

  // ----- when it returns

  /** No pushSync begins or returns from event i on, up to event k. */
  predicate NoPush(events: seq<Event>, i: nat, k: nat)
    requires i <= k <= |events|
  {
    forall m | i <= m < k :: !events[m].BeginPush? && !events[m].EndPush?
  }

  lemma {:induction false} VersionCounts(states: seq<Sys>, events: seq<Event>, value: seq<int>, readers: nat, i: nat,
                                         k: nat)
    requires Run(states, events, value, readers) && i <= k <= |events|
    ensures states[i].version <= states[k].version
    ensures states[i].version == states[k].version <==> NoPush(events, i, k)
    decreases k
  {
    if i < k {
      VersionCounts(states, events, value, readers, i, k - 1);
      assert Step(states[k - 1], events[k - 1]) == Some(states[k]);
    }
  }

  /** Reader r loads the version with event i and does not load again up to event k. */
  predicate LoadedAt(events: seq<Event>, i: nat, k: nat, r: nat) {
    i < k <= |events| && events[i] == Load(r) && forall m | i < m < k :: events[m] != Load(r) && events[m] != Check(r)
  }

  lemma {:induction false} KeepsVersion(states: seq<Sys>, events: seq<Event>, value: seq<int>, readers: nat, i: nat,
                                        k: nat, r: nat)
    requires Run(states, events, value, readers) && LoadedAt(events, i, k, r)
    ensures r < |states[k].readers| && states[k].readers[r].Copying?
    ensures states[k].readers[r].version == states[i].version
    decreases k
  {
    assert Step(states[k - 1], events[k - 1]) == Some(states[k]);
    if i + 1 < k {
      KeepsVersion(states, events, value, readers, i, k - 1, r);
    }
  }

  /** A check passes exactly when no pushSync began or returned since the load; otherwise getSync starts again. */
  lemma ReturnsIff(states: seq<Sys>, events: seq<Event>, value: seq<int>, readers: nat, i: nat, k: nat, r: nat)
    requires Run(states, events, value, readers) && LoadedAt(events, i, k, r) && k < |events| && events[k] == Check(r)
    ensures r < |states[k + 1].readers|
    ensures states[k + 1].readers[r].Returned? <==> NoPush(events, i, k)
    ensures !states[k + 1].readers[r].Returned? ==> states[k + 1].readers[r].Waiting?
  {
    KeepsVersion(states, events, value, readers, i, k, r);
    VersionCounts(states, events, value, readers, i, k);
    assert Step(states[k], events[k]) == Some(states[k + 1]);
  }

  // ----- no reader waits for ever

  ghost predicate Does(s: Sys, events: seq<Event>, s': Sys) {
    if events == [] then s' == s
    else
      var n := |events| - 1;
      exists mid :: Does(s, events[..n], mid) && Step(mid, events[n]) == Some(s')
  }

  ghost predicate Leads(s: Sys, s': Sys) {
    exists events :: Does(s, events, s')
  }

  lemma LeadsOn(a: Sys, b: Sys, e: Event, c: Sys)
    requires Leads(a, b) && Step(b, e) == Some(c)
    ensures Leads(a, c)
  {
    var events :| Does(a, events, b);
    assert (events + [e])[..|events|] == events;
    assert Does(a, events + [e], c);
  }

  lemma LeadsHere(s: Sys)
    ensures Leads(s, s)
  {
    assert Does(s, [], s);
  }

  ghost predicate Written(s: Sys, k: nat) {
    s.writer.Writing? && s.writer.next == k <= |s.value| == |s.writer.value| && s.value[..k] == s.writer.value[..k]
  }

  lemma {:induction false} WritesRest(a: Sys, s: Sys, k: nat) returns (s': Sys)
    requires Leads(a, s) && Written(s, k)
    ensures Leads(a, s') && s' == s.(value := s.writer.value, version := s.version + 1, writer := Idle)
    decreases |s.value| - k
  {
    if k == |s.value| {
      s' := s.(version := s.version + 1, writer := Idle);
      assert s.value == s.writer.value;
      LeadsOn(a, s, EndPush, s');
    } else {
      var next := s.(value := s.value[k := s.writer.value[k]], writer := Writing(k + 1, s.writer.value));
      LeadsOn(a, s, WriteField, next);
      assert next.value[..k + 1] == next.value[..k] + [next.value[k]];
      assert next.writer.value[..k + 1] == next.writer.value[..k] + [next.writer.value[k]];
      s' := WritesRest(a, next, k + 1);
    }
  }

  /** Reader r, with the version loaded and this much copied, checks while nobody writes. */
  lemma {:induction false} CopiesRest(a: Sys, s: Sys, r: nat, v: nat, copy: seq<int>) returns (s': Sys)
    requires Leads(a, s) && r < |s.readers| && s.readers[r] == Copying(v, copy) && |copy| <= |s.value|
    ensures Leads(a, s') && r < |s'.readers| && s' == Put(s, r, s'.readers[r])
    ensures s'.readers[r] == if v == s.version then Returned(v, copy + s.value[|copy|..]) else Waiting
    decreases |s.value| - |copy|
  {
    if |copy| == |s.value| {
      s' := Put(s, r, if v == s.version then Returned(v, copy) else Waiting);
      assert copy + s.value[|copy|..] == copy;
      LeadsOn(a, s, Check(r), s');
    } else {
      var more := copy + [s.value[|copy|]];
      assert more + s.value[|more|..] == copy + s.value[|copy|..];
      LeadsOn(a, s, CopyField(r), Put(s, r, Copying(v, more)));
      s' := CopiesRest(a, Put(s, r, Copying(v, more)), r, v, more);
    }
  }

  lemma WriterRests(a: Sys, s: Sys, pushed: seq<seq<int>>, begun: seq<int>) returns (s': Sys)
    requires Leads(a, s) && WriterOk(s, pushed, begun)
    ensures Leads(a, s') && s'.writer.Idle? && s'.readers == s.readers && |s'.value| == |s.value|
    ensures s'.version % 2 == 0
  {
    if s.writer.Idle? {
      s' := s;
    } else {
      s' := WritesRest(a, s, s.writer.next);
    }
  }

  lemma ReaderRests(a: Sys, s: Sys, r: nat) returns (s': Sys)
    requires Leads(a, s) && r < |s.readers| && (s.readers[r].Copying? ==> |s.readers[r].copy| <= |s.value|)
    ensures Leads(a, s') && s' == s.(readers := s'.readers) && |s'.readers| == |s.readers| && !s'.readers[r].Copying?
  {
    if s.readers[r].Copying? {
      s' := CopiesRest(a, s, r, s.readers[r].version, s.readers[r].copy);
    } else {
      s' := s;
    }
  }

  lemma PushesAndReads(a: Sys, s: Sys, next: seq<int>, r: nat) returns (s': Sys)
    requires Leads(a, s) && s.writer.Idle? && s.version % 2 == 0 && |next| == |s.value|
    requires r < |s.readers| && !s.readers[r].Copying?
    ensures Leads(a, s') && s'.value == next && s'.writer.Idle?
    ensures r < |s'.readers| && s'.readers[r].Returned? && s'.readers[r].copy == next
  {
    var s1 := s.(version := s.version + 1, writer := Writing(0, next));
    LeadsOn(a, s, BeginPush(next), s1);
    var s2 := WritesRest(a, s1, 0);
    var s3 := Put(s2, r, Copying(s2.version, []));
    LeadsOn(a, s2, Load(r), s3);
    s' := CopiesRest(a, s3, r, s3.version, []);
    assert [] + s3.value[0..] == next;
  }

  lemma Settles(s: Sys, pushed: seq<seq<int>>, begun: seq<int>, r: nat) returns (s': Sys)
    requires Inv(s, pushed, begun) && r < |s.readers|
    ensures Leads(s, s') && s'.writer.Idle? && s'.version % 2 == 0 && |s'.value| == |s.value|
    ensures |s'.readers| == |s.readers| && !s'.readers[r].Copying?
  {
    assert ReaderOk(s, pushed, s.readers[r]);
    LeadsHere(s);
    var s1 := WriterRests(s, s, pushed, begun);
    s' := ReaderRests(s, s1, r);
  }

  /** From every state of every run: whatever is pushed next can be read by any reader after that. */
  lemma PushIsRead(states: seq<Sys>, events: seq<Event>, value: seq<int>, readers: nat, k: nat, next: seq<int>, r: nat)
    returns (s': Sys)
    requires Run(states, events, value, readers) && k <= |events| && |next| == |states[k].value|
    requires r < |states[k].readers|
    ensures Leads(states[k], s') && s'.value == next && s'.writer.Idle?
    ensures r < |s'.readers| && s'.readers[r].Returned? && s'.readers[r].copy == next
  {
    RunKeeps(states, events, value, readers, k);
    var s1 := Settles(states[k], Pushed(value, events[..k]), Begun(events[..k]), r);
    s' := PushesAndReads(states[k], s1, next, r);
  }
}
