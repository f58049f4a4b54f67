/**
  The hybrid latch under any number of guards, one atomic action per step: a shared mutex and a version that is odd
  while a guard is exclusive. Content stands for the page behind the latch.
 */
module Latch {
  import opened Wrappers

  type Content = int

  /** GUARD_STATE, and the points between the atomic actions of lock and unlock. */
  datatype Guard =
    | Uninitialized
    | Moved
    | Optimistic(version: nat)
    | Shared(version: nat)
    | Exclusive(version: nat)
    | Locked(expected: Option<nat>)         // holds the mutex exclusively, version not yet raised
    | SharedLocked(expected: Option<nat>)   // holds the mutex shared, version not yet read
    | Releasing(version: nat)               // version raised again, mutex not yet released

  datatype Sys = Sys(version: nat, content: Content, guards: seq<Guard>, owner: Option<nat>, sharers: set<nat>)

  datatype Event =
    | Load(g: nat)                    // toOptimistic*: read the version
    | LockExclusive(g: nat) | FinishExclusive(g: nat)   // toExclusive, tryToExclusive, toOptimisticOrExclusive
    | LockShared(g: nat) | FinishShared(g: nat)         // toShared, tryToShared, toOptimisticOrShared
    | Raise(g: nat) | Release(g: nat)                   // unlock
    | Move(g: nat, to: nat)
    | Write(g: nat, content: Content)

  function Init(n: nat, content: Content): (s: Sys) {
    Sys(0, content, seq(n, i => Uninitialized), None, {})
  }

  function Put(s: Sys, g: nat, guard: Guard): (r: Sys)
    requires g < |s.guards|
  {
    s.(guards := s.guards[g := guard])
  }

  /** None: the step is not possible now, or the guard jumps and nothing changes. */
  function Step(s: Sys, e: Event): (r: Option<Sys>) {
    if e.g >= |s.guards| then None
    else
      var my := s.guards[e.g];
      match e
      case Load(g) =>
        if !my.Uninitialized? || s.version % 2 == 1 then None else Some(Put(s, g, Optimistic(s.version)))
      case LockExclusive(g) =>
        if s.owner.Some? || s.sharers != {} then None
        else if my.Uninitialized? then Some(Put(s, g, Locked(None)).(owner := Some(g)))
        else if my.Optimistic? then Some(Put(s, g, Locked(Some(my.version))).(owner := Some(g)))
        else None
      case FinishExclusive(g) =>
        if !my.Locked? then None
        else if my.expected.Some? && my.expected.value != s.version then
          Some(Put(s, g, Optimistic(my.expected.value)).(owner := None))
        else Some(Put(s, g, Exclusive(s.version + 1)).(version := s.version + 1))
      case LockShared(g) =>
        if s.owner.Some? then None
        else if my.Uninitialized? then Some(Put(s, g, SharedLocked(None)).(sharers := s.sharers + {g}))
        else if my.Optimistic? then Some(Put(s, g, SharedLocked(Some(my.version))).(sharers := s.sharers + {g}))
        else None
      case FinishShared(g) =>
        if !my.SharedLocked? then None
        else if my.expected.Some? && my.expected.value != s.version then
          Some(Put(s, g, Optimistic(my.expected.value)).(sharers := s.sharers - {g}))
        else Some(Put(s, g, Shared(s.version)))
      case Raise(g) =>
        if !my.Exclusive? then None else Some(Put(s, g, Releasing(my.version + 1)).(version := my.version + 1))
      case Release(g) =>
        if my.Releasing? then Some(Put(s, g, Optimistic(my.version)).(owner := None))
        else if my.Shared? then Some(Put(s, g, Optimistic(my.version)).(sharers := s.sharers - {g}))
        else None
      case Move(g, to) =>
        if to >= |s.guards| || to == g || !Resting(s.guards[to]) || !(my.Optimistic? || my.Shared? || my.Exclusive?)
          then None
        else
          var s1 := Put(Put(s, to, my), g, Moved);
          Some(s1.(owner := if my.Exclusive? then Some(to) else s.owner,
                   sharers := if my.Shared? then s.sharers - {g} + {to} else s.sharers))
      case Write(g, content) =>
        if !my.Exclusive? then None else Some(s.(content := content))
  }

  /** A guard that holds nothing. */
  predicate Resting(g: Guard) {
    g.Uninitialized? || g.Moved? || g.Optimistic?
  }

  predicate Owns(g: Guard) {
    g.Exclusive? || g.Locked? || g.Releasing?
  }

  predicate Shares(g: Guard) {
    g.Shared? || g.SharedLocked?
  }

  /** Versions that guards hold, against the version of the latch. */
  predicate VersionOk(g: Guard, version: nat) {
    match g
    case Optimistic(v) => v <= version && v % 2 == 0
    case Shared(v) => v == version && v % 2 == 0
    case Exclusive(v) => v == version && v % 2 == 1
    case Releasing(v) => v == version && v % 2 == 0
    case Locked(expected) => version % 2 == 0
      && (expected.Some? ==> expected.value <= version && expected.value % 2 == 0)
    case SharedLocked(expected) => version % 2 == 0
      && (expected.Some? ==> expected.value <= version && expected.value % 2 == 0)
    case _ => true
  }

  ghost predicate Inv(s: Sys) {
    && (s.owner.Some? ==> s.owner.value < |s.guards| && s.sharers == {})
    && (forall g | 0 <= g < |s.guards| :: Owns(s.guards[g]) <==> s.owner == Some(g))
    && (forall g | 0 <= g < |s.guards| :: Shares(s.guards[g]) <==> g in s.sharers)
    && (forall g | g in s.sharers :: g < |s.guards|)
    && (forall g | 0 <= g < |s.guards| :: VersionOk(s.guards[g], s.version))
    && (s.version % 2 == 1 ==> s.owner.Some? && s.guards[s.owner.value].Exclusive?)
  }

  lemma OwnerStepKeeps(s: Sys, e: Event, s': Sys)
    requires Inv(s) && Step(s, e) == Some(s') && (e.LockExclusive? || e.FinishExclusive? || e.Raise?)
    ensures Inv(s')
  {
  }

  lemma SharerStepKeeps(s: Sys, e: Event, s': Sys)
    requires Inv(s) && Step(s, e) == Some(s') && (e.Load? || e.LockShared? || e.FinishShared? || e.Write?)
    ensures Inv(s')
  {
  }

  lemma ReleaseKeeps(s: Sys, g: nat, s': Sys)
    requires Inv(s) && Step(s, Release(g)) == Some(s')
    ensures Inv(s')
  {
  }

  lemma MoveKeeps(s: Sys, g: nat, to: nat, s': Sys)
    requires Inv(s) && Step(s, Move(g, to)) == Some(s')
    ensures Inv(s')
  {
  }

  lemma StepKeeps(s: Sys, e: Event, s': Sys)
    requires Inv(s) && Step(s, e) == Some(s')
    ensures Inv(s')
  {
    match e
    case Release(g) => ReleaseKeeps(s, g, s');
    case Move(g, to) => MoveKeeps(s, g, to, s');
    case LockExclusive(_) => OwnerStepKeeps(s, e, s');
    case FinishExclusive(_) => OwnerStepKeeps(s, e, s');
    case Raise(_) => OwnerStepKeeps(s, e, s');
    case _ => SharerStepKeeps(s, e, s');
  }

  /** The version never falls; content changes only at an odd version, which the step keeps. */
  lemma StepForward(s: Sys, e: Event, s': Sys)
    requires Inv(s) && Step(s, e) == Some(s')
    ensures s.version <= s'.version
    ensures s'.content != s.content ==> s.version % 2 == 1
  {
  }

  // ----- runs

  ghost predicate Run(n: nat, content: Content, states: seq<Sys>, events: seq<Event>) {
    && |states| == |events| + 1 && states[0] == Init(n, content)
    && forall i | 0 <= i < |events| :: Step(states[i], events[i]) == Some(states[i + 1])
  }

  lemma {:induction false} RunKeeps(n: nat, content: Content, states: seq<Sys>, events: seq<Event>, k: nat)
    requires Run(n, content, states, events) && k <= |events|
    ensures Inv(states[k])
  {
    if k > 0 {
      RunKeeps(n, content, states, events, k - 1);
      StepKeeps(states[k - 1], events[k - 1], states[k]);
    }
  }

  lemma {:induction false} VersionNeverFalls(n: nat, content: Content, states: seq<Sys>, events: seq<Event>, i: nat,
                                             j: nat)
    requires Run(n, content, states, events) && i <= j <= |events|
    ensures states[i].version <= states[j].version
    decreases j - i
  {
    if i < j {
      VersionNeverFalls(n, content, states, events, i, j - 1);
      RunKeeps(n, content, states, events, j - 1);
      StepForward(states[j - 1], events[j - 1], states[j]);
    }
  }

  /**
    The version was even and v at i, and is v at j: the content was the same all the time in between.
    This is what a passed recheck, a successful upgrade to shared or to exclusive, and an unlock establish.
   */
  lemma {:induction false} SameVersionSameContent(n: nat, content: Content, states: seq<Sys>, events: seq<Event>,
                                                  i: nat, k: nat, j: nat)
    requires Run(n, content, states, events) && i <= k <= j <= |events|
    requires states[i].version == states[j].version && states[i].version % 2 == 0
    ensures states[k].version == states[i].version && states[k].content == states[i].content
    decreases k - i
  {
    VersionNeverFalls(n, content, states, events, i, k);
    VersionNeverFalls(n, content, states, events, k, j);
    if i < k {
      VersionNeverFalls(n, content, states, events, i, k - 1);
      VersionNeverFalls(n, content, states, events, k - 1, k);
      SameVersionSameContent(n, content, states, events, i, k - 1, j);
      RunKeeps(n, content, states, events, k - 1);
      StepForward(states[k - 1], events[k - 1], states[k]);
    }
  }

  /** Odd exactly while one guard is exclusive. */
  lemma OddIffExclusive(n: nat, content: Content, states: seq<Sys>, events: seq<Event>, k: nat)
    requires Run(n, content, states, events) && k <= |events|
    ensures states[k].version % 2 == 1 <==> exists g :: 0 <= g < |states[k].guards| && states[k].guards[g].Exclusive?
  {
    RunKeeps(n, content, states, events, k);
    var s := states[k];
    if s.version % 2 == 1 {
      assert s.guards[s.owner.value].Exclusive?;
    }
    forall g | 0 <= g < |s.guards| && s.guards[g].Exclusive?
      ensures s.version % 2 == 1
    {
      assert VersionOk(s.guards[g], s.version);
    }
  }

  /** An exclusive guard is alone: no second one, and no shared one. */
  lemma ExclusiveExcludes(n: nat, content: Content, states: seq<Sys>, events: seq<Event>, k: nat, g: nat, h: nat)
    requires Run(n, content, states, events) && k <= |events|
    requires g < |states[k].guards| && h < |states[k].guards| && g != h && states[k].guards[g].Exclusive?
    ensures Resting(states[k].guards[h])
  {
    RunKeeps(n, content, states, events, k);
    var s := states[k];
    assert Owns(s.guards[g]) && (Owns(s.guards[h]) <==> s.owner == Some(h))
           && (Shares(s.guards[h]) <==> h in s.sharers);
  }

  // ----- from the load of a version to its use

  /**
    Events 0 to k loaded a version with event i into guard g: where that guard is before event k, if it is not gone.
   */
  function Carrier(events: seq<Event>, i: nat, k: nat): (r: Option<nat>)
    requires i < k <= |events|
  {
    if k == i + 1 then Some(events[i].g)
    else
      var (e, at) := (events[k - 1], Carrier(events, i, k - 1));
      if at.None? || !e.Move? then at
      else if e.g == at.value then Some(e.to)
      else if e.to == at.value then None
      else at
  }

  /** Guard h has the version that event i loaded, and has not been exclusive since. */
  ghost predicate Carries(states: seq<Sys>, events: seq<Event>, i: nat, k: nat, h: nat) {
    && |states| == |events| + 1 && i < k <= |events| && events[i].Load? && Carrier(events, i, k) == Some(h)
    && forall m, o | i < m <= k && Carrier(events, i, m) == Some(o) && o < |states[m].guards| ::
         !states[m].guards[o].Exclusive?
  }

  /** In whichever form: v is the version the guard holds or expects. */
  predicate HasVersion(g: Guard, v: nat) {
    g == Optimistic(v) || g == Shared(v) || g == Locked(Some(v)) || g == SharedLocked(Some(v))
  }

  lemma StepCarries(s: Sys, e: Event, s': Sys, h: nat, v: nat)
    requires Inv(s) && Step(s, e) == Some(s') && h < |s.guards| && HasVersion(s.guards[h], v)
    ensures |s'.guards| == |s.guards|
    ensures e.Move? && e.g == h ==> e.to < |s'.guards| && HasVersion(s'.guards[e.to], v)
    ensures !(e.Move? && (e.g == h || e.to == h)) ==> s'.guards[h].Exclusive? || HasVersion(s'.guards[h], v)
  {
  }

  /** The guard that carried the version one event earlier. */
  lemma CarriedBefore(states: seq<Sys>, events: seq<Event>, i: nat, k: nat, h: nat) returns (at: nat)
    requires Carries(states, events, i, k, h) && i + 1 < k && h < |states[k].guards|
    ensures Carries(states, events, i, k - 1, at) && !states[k].guards[h].Exclusive?
    ensures var e := events[k - 1];
            if e.Move? && e.g == at then h == e.to else h == at && !(e.Move? && e.to == at)
  {
    at := Carrier(events, i, k - 1).value;
  }

  lemma SameGuards(n: nat, content: Content, states: seq<Sys>, events: seq<Event>, k: nat)
    requires Run(n, content, states, events) && 0 < k <= |events|
    ensures |states[k].guards| == |states[k - 1].guards|
  {
    assert Step(states[k - 1], events[k - 1]) == Some(states[k]);
  }

  lemma LoadGives(s: Sys, e: Event, s': Sys)
    requires e.Load? && Step(s, e) == Some(s')
    ensures e.g < |s'.guards| && s'.guards[e.g] == Optimistic(s.version)
  {
  }

  lemma {:induction false} CarriesVersion(n: nat, content: Content, states: seq<Sys>, events: seq<Event>, i: nat,
                                          k: nat, h: nat)
    requires Run(n, content, states, events) && Carries(states, events, i, k, h)
    ensures h < |states[k].guards| && HasVersion(states[k].guards[h], states[i].version)
    decreases k
  {
    if k == i + 1 {
      LoadGives(states[i], events[i], states[k]);
    } else {
      var at := Carrier(events, i, k - 1).value;
      CarriesVersion(n, content, states, events, i, k - 1, at);
      RunKeeps(n, content, states, events, k - 1);
      SameGuards(n, content, states, events, k);
      StepCarries(states[k - 1], events[k - 1], states[k], at, states[i].version);
      at := CarriedBefore(states, events, i, k, h);
    }
  }

  lemma LoadsEven(n: nat, content: Content, states: seq<Sys>, events: seq<Event>, i: nat)
    requires Run(n, content, states, events) && i < |events| && events[i].Load?
    ensures states[i].version % 2 == 0 && states[i + 1].version == states[i].version
    ensures states[i + 1].content == states[i].content
  {
    assert Step(states[i], events[i]) == Some(states[i + 1]);
  }

  /**
    An optimistic read, from the load with event i to the recheck before event j: the recheck passes exactly when the
    version is the loaded one, and then the content was the same all the time. In between the guard may have been moved,
    shared, unlocked, and turned away by upgrades.
   */
  lemma OptimisticReadIsStable(n: nat, content: Content, states: seq<Sys>, events: seq<Event>, i: nat, k: nat, j: nat,
                               h: nat)
    requires Run(n, content, states, events) && i <= k <= j && Carries(states, events, i, j, h)
    requires h < |states[j].guards| && states[j].guards[h].Optimistic?
    ensures states[j].guards[h].version == states[j].version <==> states[j].version == states[i].version
    ensures states[j].guards[h].version == states[j].version ==> states[k].content == states[i].content
  {
    CarriesVersion(n, content, states, events, i, j, h);
    LoadsEven(n, content, states, events, i);
    if states[j].version == states[i].version {
      SameVersionSameContent(n, content, states, events, i, k, j);
    }
  }

  /**
    An upgrade, from the load with event i to event j: it succeeds exactly when the version is still the loaded one, and
    then the content is what it was at the load. If it fails the guard still has that version.
   */
  lemma UpgradeKeepsContent(n: nat, content: Content, states: seq<Sys>, events: seq<Event>, i: nat, j: nat, h: nat)
    requires Run(n, content, states, events) && j < |events| && Carries(states, events, i, j, h)
    requires events[j] == FinishExclusive(h) || events[j] == FinishShared(h)
    ensures h < |states[j + 1].guards|
    ensures var g := states[j + 1].guards[h];
      && ((if events[j].FinishExclusive? then g.Exclusive? else g.Shared?) <==> states[j].version == states[i].version)
      && (states[j].version == states[i].version ==> states[j + 1].content == states[i].content)
      && (states[j].version != states[i].version ==> g == Optimistic(states[i].version))
  {
    CarriesVersion(n, content, states, events, i, j, h);
    LoadsEven(n, content, states, events, i);
    assert Step(states[j], events[j]) == Some(states[j + 1]);
    if states[j].version == states[i].version {
      SameVersionSameContent(n, content, states, events, i, j, j);
    }
  }

  // ----- content

  /** The argument of the last write. */
  function LastWrite(content: Content, events: seq<Event>): (r: Content) {
    if events == [] then content
    else if events[|events| - 1].Write? then events[|events| - 1].content
    else LastWrite(content, events[..|events| - 1])
  }

  lemma {:induction false} ContentIsLastWrite(n: nat, content: Content, states: seq<Sys>, events: seq<Event>, k: nat)
    requires Run(n, content, states, events) && k <= |events|
    ensures states[k].content == LastWrite(content, events[..k])
  {
    if k > 0 {
      ContentIsLastWrite(n, content, states, events, k - 1);
      assert events[..k] == events[..k - 1] + [events[k - 1]] && events[..k][..k - 1] == events[..k - 1];
      assert Step(states[k - 1], events[k - 1]) == Some(states[k]);
    }
  }

  // ----- nobody waits for ever

  ghost predicate Does(s: Sys, events: seq<Event>, s': Sys) {
    if events == [] then s' == s
    else
      var n := |events| - 1;
      exists mid :: Does(s, events[..n], mid) && Step(mid, events[n]) == Some(s')
  }

  ghost predicate Leads(s: Sys, s': Sys) {
    exists events :: Does(s, events, s')
  }

  lemma LeadsHere(s: Sys)
    ensures Leads(s, s)
  {
    assert Does(s, [], s);
  }

  lemma LeadsOn(a: Sys, b: Sys, e: Event, c: Sys)
    requires Leads(a, b) && Inv(b) && Step(b, e) == Some(c)
    ensures Leads(a, c) && Inv(c)
  {
    var events :| Does(a, events, b);
    assert (events + [e])[..|events|] == events;
    assert Does(a, events + [e], c);
    StepKeeps(b, e, c);
  }

  /** Guards that hold nothing are as they were. */
  ghost predicate RestingStay(s: Sys, s': Sys) {
    |s'.guards| == |s.guards| && forall g | 0 <= g < |s.guards| && Resting(s.guards[g]) :: s'.guards[g] == s.guards[g]
  }

  ghost predicate Free(s: Sys) {
    s.owner.None? && s.sharers == {}
  }

  lemma ReleasingFrees(a: Sys, s: Sys, g: nat) returns (s': Sys)
    requires Leads(a, s) && Inv(s) && s.owner == Some(g) && s.guards[g].Releasing?
    ensures Leads(a, s') && Inv(s') && Free(s') && RestingStay(s, s')
  {
    s' := Step(s, Release(g)).value;
    LeadsOn(a, s, Release(g), s');
  }

  lemma ExclusiveFrees(a: Sys, s: Sys, g: nat) returns (s': Sys)
    requires Leads(a, s) && Inv(s) && s.owner == Some(g) && s.guards[g].Exclusive?
    ensures Leads(a, s') && Inv(s') && Free(s') && RestingStay(s, s')
  {
    var next := Step(s, Raise(g)).value;
    LeadsOn(a, s, Raise(g), next);
    s' := ReleasingFrees(a, next, g);
  }

  lemma LockedFrees(a: Sys, s: Sys, g: nat) returns (s': Sys)
    requires Leads(a, s) && Inv(s) && s.owner == Some(g) && s.guards[g].Locked?
    ensures Leads(a, s') && Inv(s') && Free(s') && RestingStay(s, s')
  {
    s' := Step(s, FinishExclusive(g)).value;
    LeadsOn(a, s, FinishExclusive(g), s');
    if s'.owner.Some? {
      s' := ExclusiveFrees(a, s', g);
    }
  }

  lemma OwnerFrees(a: Sys, s: Sys) returns (s': Sys)
    requires Leads(a, s) && Inv(s) && s.owner.Some?
    ensures Leads(a, s') && Inv(s') && Free(s') && RestingStay(s, s')
  {
    var g := s.owner.value;
    assert Owns(s.guards[g]);
    if s.guards[g].Locked? {
      s' := LockedFrees(a, s, g);
    } else if s.guards[g].Exclusive? {
      s' := ExclusiveFrees(a, s, g);
    } else {
      s' := ReleasingFrees(a, s, g);
    }
  }

  lemma SharerFrees(a: Sys, s: Sys, g: nat) returns (s': Sys)
    requires Leads(a, s) && Inv(s) && g in s.sharers
    ensures Leads(a, s') && Inv(s') && s'.owner.None? && s'.sharers == s.sharers - {g} && RestingStay(s, s')
  {
    s' := s;
    assert Shares(s.guards[g]);
    if s'.guards[g].SharedLocked? {
      var next := Step(s', FinishShared(g)).value;
      LeadsOn(a, s', FinishShared(g), next);
      s' := next;
    }
    if s'.guards[g].Shared? {
      var next := Step(s', Release(g)).value;
      LeadsOn(a, s', Release(g), next);
      s' := next;
    }
  }

  lemma {:induction false} AllFree(a: Sys, s: Sys) returns (s': Sys)
    requires Leads(a, s) && Inv(s)
    ensures Leads(a, s') && Inv(s') && Free(s') && RestingStay(s, s')
    decreases s.sharers
  {
    if s.owner.Some? {
      s' := OwnerFrees(a, s);
    } else if g :| g in s.sharers {
      var s1 := SharerFrees(a, s, g);
      s' := AllFree(a, s1);
    } else {
      s' := s;
    }
  }

  /** From every state of every run, a guard that holds nothing yet can get in and write. */
  lemma CanWrite(n: nat, content: Content, states: seq<Sys>, events: seq<Event>, k: nat, g: nat, c: Content)
    returns (s': Sys)
    requires Run(n, content, states, events) && k <= |events|
    requires g < |states[k].guards| && states[k].guards[g].Uninitialized?
    ensures Leads(states[k], s') && g < |s'.guards| && s'.guards[g].Exclusive? && s'.content == c
  {
    var s := states[k];
    RunKeeps(n, content, states, events, k);
    LeadsHere(s);
    var s1 := AllFree(s, s);
    var s2 := Step(s1, LockExclusive(g)).value;
    LeadsOn(s, s1, LockExclusive(g), s2);
    var s3 := Step(s2, FinishExclusive(g)).value;
    LeadsOn(s, s2, FinishExclusive(g), s3);
    s' := Step(s3, Write(g, c)).value;
    LeadsOn(s, s3, Write(g, c), s');
  }

  lemma UpgradesAndWrites(a: Sys, s: Sys, g: nat, c: Content) returns (s': Sys)
    requires Leads(a, s) && Inv(s) && Free(s) && g < |s.guards| && s.guards[g] == Optimistic(s.version)
    ensures Leads(a, s') && g < |s'.guards| && s'.guards[g].Exclusive? && s'.content == c
  {
    var s1 := Step(s, LockExclusive(g)).value;
    LeadsOn(a, s, LockExclusive(g), s1);
    var s2 := Step(s1, FinishExclusive(g)).value;
    LeadsOn(a, s1, FinishExclusive(g), s2);
    s' := Step(s2, Write(g, c)).value;
    LeadsOn(a, s2, Write(g, c), s');
  }

  /** And it can load a version first and upgrade then. */
  lemma CanUpgrade(n: nat, content: Content, states: seq<Sys>, events: seq<Event>, k: nat, g: nat, c: Content)
    returns (s1: Sys, s': Sys)
    requires Run(n, content, states, events) && k <= |events|
    requires g < |states[k].guards| && states[k].guards[g].Uninitialized?
    ensures Leads(states[k], s1) && g < |s1.guards| && s1.guards[g].Optimistic?
    ensures Leads(s1, s') && g < |s'.guards| && s'.guards[g].Exclusive? && s'.content == c
  {
    var s := states[k];
    RunKeeps(n, content, states, events, k);
    LeadsHere(s);
    var s0 := AllFree(s, s);
    s1 := LoadsFirst(s, s0, g);
    LeadsHere(s1);
    s' := UpgradesAndWrites(s1, s1, g, c);
  }

  lemma GetsShared(a: Sys, s: Sys, g: nat) returns (s': Sys)
    requires Leads(a, s) && Inv(s) && s.owner.None? && g < |s.guards| && s.guards[g].Uninitialized?
    ensures Leads(a, s') && Inv(s') && s'.owner.None? && |s'.guards| == |s.guards| && s'.guards[g].Shared?
    ensures s'.version == s.version
    ensures forall h | 0 <= h < |s.guards| && h != g :: s'.guards[h] == s.guards[h]
  {
    var s1 := Step(s, LockShared(g)).value;
    LeadsOn(a, s, LockShared(g), s1);
    s' := Step(s1, FinishShared(g)).value;
    LeadsOn(a, s1, FinishShared(g), s');
  }

  lemma JoinsShared(a: Sys, s: Sys, g: nat) returns (s': Sys)
    requires Leads(a, s) && Inv(s) && s.owner.None? && g < |s.guards| && s.guards[g] == Optimistic(s.version)
    ensures Leads(a, s') && Inv(s') && |s'.guards| == |s.guards| && s'.guards[g].Shared?
    ensures forall h | 0 <= h < |s.guards| && h != g :: s'.guards[h] == s.guards[h]
  {
    var s1 := Step(s, LockShared(g)).value;
    LeadsOn(a, s, LockShared(g), s1);
    s' := Step(s1, FinishShared(g)).value;
    LeadsOn(a, s1, FinishShared(g), s');
  }

  lemma LoadsFirst(a: Sys, s: Sys, h: nat) returns (s': Sys)
    requires Leads(a, s) && Inv(s) && Free(s) && h < |s.guards| && s.guards[h].Uninitialized?
    ensures Leads(a, s') && Inv(s') && Free(s') && s' == Put(s, h, Optimistic(s.version))
  {
    s' := Put(s, h, Optimistic(s.version));
    LeadsOn(a, s, Load(h), s');
  }

  /** Two of them can read together; the one that has loaded a version before joins the other. */
  lemma CanShare(n: nat, content: Content, states: seq<Sys>, events: seq<Event>, k: nat, g: nat, h: nat)
    returns (s': Sys)
    requires Run(n, content, states, events) && k <= |events| && g != h
    requires g < |states[k].guards| && states[k].guards[g].Uninitialized?
    requires h < |states[k].guards| && states[k].guards[h].Uninitialized?
    ensures Leads(states[k], s') && |s'.guards| == |states[k].guards| && s'.guards[g].Shared? && s'.guards[h].Shared?
  {
    var s := states[k];
    RunKeeps(n, content, states, events, k);
    LeadsHere(s);
    var s1 := AllFree(s, s);
    var s2 := LoadsFirst(s, s1, h);
    var s3 := GetsShared(s, s2, g);
    s' := JoinsShared(s, s3, h);
  }
}
