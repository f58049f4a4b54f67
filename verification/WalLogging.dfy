/**
  Logging and the log segment as the source writes them: objects whose methods change their fields.
  Each method is one or more steps of WalMachine taken without interference; where the source spins on
  another thread, the method stops before the step that has to wait, and says so.
 */
module WalLogging {
  import opened Wrappers
  import opened Align
  import opened WalMachine
  import opened CircularQueue

  /** Steps taken one after the other. */
  function Then(c: Config, o: Outcome, e: Event): (r: Outcome) {
    if o.Next? then Step(c, o.log, e) else o
  }

  /** The entry that the branch calls for. */
  function WriteEntryStep(c: Config, s: Log, entry: seq<byte>, skipType: byte): (r: Outcome) {
    if s.phase.CrBumped? then Step(c, s, WriteCr(entry))
    else if s.phase.SkipBumped? then Step(c, s, WriteSkip(skipType))
    else Next(s)
  }

  /** The two checks that end walEnsureEnoughSpace. */
  function Checked(c: Config, s: Log, req: nat): (r: Outcome) {
    if ContiguousFreeSpace(c, s.gctCursor, s.cursor) < req || s.cursor + req + c.crSize > c.bufSize then Crash
      else Next(s)
  }

  /** walEnsureEnoughSpace without interference: wait, branch, write the entry the branch calls for, and check. */
  function EnsureSpace(c: Config, s: Log, req: nat, entry: seq<byte>, skipType: byte): (r: Outcome) {
    var o := Then(c, Step(c, s, Grant(req)), Branch);
    if !o.Next? then o
    else
      var o' := WriteEntryStep(c, o.log, entry, skipType);
      if o'.Next? then Checked(c, o'.log, req) else o'
  }

  /**
    WaitsForSpace: the source spins on the committer, nothing has changed. WaitsForHole: it spins in insertHole, the LSN
    counter has moved. Aborts: one of its checks fires.
   */
  datatype Status = Done | WaitsForSpace | WaitsForHole(at: Phase) | Aborts

  /** Where the branch of walEnsureEnoughSpace can lead. */
  predicate Branched(c: Config, cursor: nat, req: nat, at: Phase) {
    && (at == CrBumped(req) || at == SkipBumped(req) || at == Ready(req))
    && (at.SkipBumped? ==> UpAlign(cursor) + c.crSize <= c.bufSize)
  }

  /** Different objects, whatever their types. */
  predicate Separate(a: object, b: object) { a != b }

  class Logging {
    const c: Config
    const ring: array<byte>
    const holes: Queue<Hole>
    var cursor: nat
    var lsn: nat
    var gsnClock: nat
    var pub: Published
    var redirect: bool
    var gctCursor: nat

    ghost predicate Valid()
      reads this, holes, holes.arr
    {
      && holes.Valid() && holes.arr.Length == c.maxHoles && Separate(ring, holes.arr)
      && ring.Length == c.bufSize && cursor + c.crSize <= c.bufSize && gctCursor < c.bufSize
      && 0 < c.crSize < BLOCK && Aligned(c.bufSize)
    }

    /** The machine state this object stands for, with its caller at phase p and the committer between rounds. */
    ghost function View(p: Phase): (s: Log)
      requires Valid()
      reads this, ring, holes, holes.arr
    {
      Log(cursor, lsn, ring[..], gsnClock, holes.Contents(), holes.head, pub, redirect, p, gctCursor, 0, 0, map[],
          NoRound)
    }

    constructor (c: Config)
      requires ValidConfig(c)
      ensures Valid() && fresh(ring) && fresh(holes) && fresh(holes.arr) && this.c == c
      ensures View(Idle) == Init(c)
    {
      this.c := c;
      ring := new byte[c.bufSize](i => 0);
      holes := new Queue<Hole>(c.maxHoles);
      cursor, lsn, gsnClock, redirect, gctCursor := 0, 0, 0, false, 0;
      pub := Published(0, 0);
      new;
      assert ring[..] == seq(c.bufSize, i => 0);
    }

    /** memcpy into the ring at the cursor. */
    method CopyIn(bytes: seq<byte>)
      requires Valid() && cursor + |bytes| <= c.bufSize
      modifies ring
      ensures ring[..] == Splice(old(ring[..]), cursor, bytes)
    {
      for i := 0 to |bytes|
        invariant forall k | 0 <= k < ring.Length ::
                    ring[k] == if cursor <= k < cursor + i then bytes[k - cursor] else old(ring[k])
      {
        ring[cursor + i] := bytes[i];
      }
    }

    /** collect_filled_holes(false) */
    method CollectFilledHoles(ghost p: Phase)
      requires Valid()
      modifies this`pub, holes`head
      ensures Valid() && View(p) == CollectHoles(old(View(p)))
    {
      ghost var before := holes.Contents();
      var k, last := holes.EraseFrontWhile((h: Hole) => !h.locked);
      PrefixUnique(before, k);
      if k > 0 {
        pub := Published(last.offset, last.gsn);
      } else {
        assert before[0..] == before;
      }
    }

    /** insertHole; false where the source would spin because the queue is full and its front is locked. */
    method InsertHole(h: Hole, ghost p: Phase) returns (ok: bool)
      requires Valid()
      modifies this`pub, holes`head, holes`tail, holes.arr
      ensures Valid()
      ensures !ok ==> View(p) == old(View(p)) && WalMachine.InsertHole(c, old(View(p)), h) == Blocked
      ensures ok ==> WalMachine.InsertHole(c, old(View(p)), h) == Next(View(p))
    {
      var full := holes.Full();
      CollectFilledHoles(p);
      if holes.Full() {
        ok := false;
        assert full && UnlockedPrefix(old(View(p)).holes) == 0;
        return;
      }
      var slot := holes.EmplaceBack(h);
      ok := true;
    }

    /** insertHole has to wait. */
    ghost predicate Stuck()
      requires Valid()
      reads this, holes, holes.arr
    {
      |holes.Contents()| >= c.maxHoles && UnlockedPrefix(holes.Contents()) == 0
    }

    method QueueStuck() returns (stuck: bool)
      requires Valid()
      ensures stuck == Stuck()
    {
      stuck := holes.Full();
      if stuck {
        assert holes.Contents()[0] == holes.arr[holes.head % holes.arr.Length];
        stuck := holes.arr[holes.head % holes.arr.Length].locked;
      }
    }

    method WriteCarriageReturn(req: nat, entry: seq<byte>)
      requires Valid() && |entry| == c.crSize && !Stuck()
      modifies this`cursor, this`pub, ring, holes, holes.arr
      ensures Valid() && Step(c, old(View(CrBumped(req))), WriteCr(entry)) == Next(View(Ready(req)))
    {
      CrStep(c, View(CrBumped(req)), req, entry);
      CopyIn(entry);
      cursor := 0;
      var ok := InsertHole(Hole(0, gsnClock, false, 0, 0, 0), Ready(req));
    }

    method WriteSkipEntry(req: nat, skipType: byte)
      requires Valid() && !Stuck() && UpAlign(cursor) + c.crSize <= c.bufSize
      modifies this`cursor, this`pub, ring, holes, holes.arr
      ensures Valid() && Step(c, old(View(SkipBumped(req))), WriteSkip(skipType)) == Next(View(Ready(req)))
    {
      SkipStep(c, View(SkipBumped(req)), req, skipType);
      CopyIn([skipType]);
      cursor := UpAlign(cursor);
      var ok := InsertHole(Hole(cursor, gsnClock, false, 0, 0, 0), Ready(req));
    }

    /** The branch: the LSN counter moves before anything is written. */
    method BumpLsn(req: nat) returns (at: Phase, ok: bool)
      requires Valid() && 0 < req && req + c.crSize <= BLOCK
      modifies this`lsn
      ensures Valid()
      ensures ok ==> Step(c, old(View(Granted(req))), Branch) == Next(View(at)) && Branched(c, cursor, req, at)
      ensures !ok ==> Step(c, old(View(Granted(req))), Branch) == Crash
    {
      at, ok := Ready(req), true;
      if ContiguousFreeSpace(c, gctCursor, cursor) < req + c.crSize {
        at := CrBumped(req);
        var next := lsn + (c.bufSize - cursor);
        if c.fakeWrap != 0 && next >= c.fakeWrap {
          ok := next == c.fakeWrap;
          lsn := 0;
        } else {
          lsn := next;
        }
      } else if DownAlign(cursor) != DownAlign(cursor + req) {
        at := SkipBumped(req);
        SkipStaysInside(cursor, req, c.crSize, c.bufSize);
        lsn := UpAlign(lsn);
      }
    }

    /** Carriage return, skip entry or nothing; false where insertHole would spin. */
    method WriteEntry(at: Phase, req: nat, entry: seq<byte>, skipType: byte) returns (ok: bool)
      requires Valid() && |entry| == c.crSize && Branched(c, cursor, req, at)
      modifies this`cursor, this`pub, ring, holes, holes.arr
      ensures Valid()
      ensures ok ==> WriteEntryStep(c, old(View(at)), entry, skipType) == Next(View(Ready(req)))
      ensures !ok ==> WriteEntryStep(c, old(View(at)), entry, skipType) == Blocked && View(at) == old(View(at))
    {
      if at.Ready? {
        return true;
      }
      var stuck := QueueStuck();
      if stuck {
        StuckStep(c, View(at), entry, skipType);
        return false;
      }
      if at.CrBumped? {
        WriteCarriageReturn(req, entry);
      } else {
        WriteSkipEntry(req, skipType);
      }
      return true;
    }

    /** walEnsureEnoughSpace */
    method WalEnsureEnoughSpace(req: nat, entry: seq<byte>, skipType: byte) returns (status: Status)
      requires Valid() && !redirect && 0 < req && req + c.crSize <= BLOCK && |entry| == c.crSize
      modifies this`lsn, this`cursor, this`pub, ring, holes, holes.arr
      ensures Valid()
      ensures var o := EnsureSpace(c, old(View(Idle)), req, entry, skipType);
              match status
              case Done => o == Next(View(Ready(req)))
              case WaitsForSpace => Step(c, old(View(Idle)), Grant(req)) == Blocked && View(Idle) == old(View(Idle))
              case WaitsForHole(at) =>
                o == Blocked && Then(c, Step(c, old(View(Idle)), Grant(req)), Branch) == Next(View(at))
              case Aborts => o == Crash
    {
      if FreeSpace(c, gctCursor, cursor) < WaitBytes(c, cursor, req) {
        return WaitsForSpace;
      }
      GrantStep(c, View(Idle), req);
      var at, bumped := BumpLsn(req);
      if !bumped {
        return Aborts;
      }
      var written := WriteEntry(at, req, entry, skipType);
      if !written {
        return WaitsForHole(at);
      }
      if ContiguousFreeSpace(c, gctCursor, cursor) < req || cursor + req + c.crSize > c.bufSize {
        return Aborts;
      }
      return Done;
    }

    /** unlock through the pointer that insertHole has returned: no other queued hole lives in that slot. */
    method UnlockHole(a: nat, ghost p: Phase)
      requires Valid() && holes.head <= a < holes.tail && holes.arr[a % c.maxHoles].locked
      modifies holes.arr
      ensures Valid() && Step(c, old(View(p)), Unlock(a)) == Next(View(p))
    {
      ghost var (before, i) := (holes.Contents(), a - holes.head);
      var hole := holes.arr[a % c.maxHoles].(locked := false);
      forall b: nat | b != a && holes.head <= b < holes.tail
        ensures b % c.maxHoles != a % c.maxHoles
      {
        if a < b {
          SlotsDiffer(c.maxHoles, a, b);
        } else {
          SlotsDiffer(c.maxHoles, b, a);
        }
      }
      holes.arr[a % c.maxHoles] := hole;
      assert holes.Contents() == before[i := hole];
    }

    /** drain_holes; false where the source would wait for a hole to be filled. */
    method DrainHoles(ghost req: nat, ghost at: nat) returns (ok: bool)
      requires Valid()
      modifies this`pub
      ensures Valid()
      ensures ok ==> Step(c, old(View(Draining(req, at))), Drain) == Next(View(Bumped(req, at)))
      ensures !ok ==> Step(c, old(View(Draining(req, at))), Drain) == Blocked && unchanged(this)
    {
      ghost var hs := holes.Contents();
      var published := pub;
      var i := holes.head;
      while i < holes.tail
        invariant holes.head <= i <= holes.tail && pub == old(pub)
        invariant forall j :: 0 <= j < i - holes.head ==> !hs[j].locked
        invariant published == if i == holes.head then old(pub)
                  else Published(hs[i - holes.head - 1].offset, hs[i - holes.head - 1].gsn)
      {
        var h := holes.arr[i % holes.arr.Length];
        assert h == hs[i - holes.head];
        if h.locked {
          return false;
        }
        published := Published(h.offset, h.gsn);
        i := i + 1;
      }
      pub := published;
      return true;
    }
  }

  /** per_worker_log_segment with the requests add_pwrite has queued in this round. */
  class LogSegment {
    const c: Config
    var offset: nat
    var writes: seq<Write>
    var failed: bool

    ghost function View(): (p: Plan)
      reads this
    {
      if failed then PlanCrash else Plan(writes, offset)
    }

    constructor (c: Config)
      ensures this.c == c && View() == Plan([], 0)
    {
      this.c, offset, writes, failed := c, 0, [], false;
    }

    /** LogManager::add_pwrite; `failed` stands for its ensure and SIGTRAP checks. */
    method AddPwrite(buf: nat, size: nat, blockFull: bool)
      requires !failed
      modifies this
      ensures View() == WalMachine.AddPwrite(c, old(View()), buf, size, blockFull)
    {
      if !Aligned(size) {
        failed := true;
        return;
      }
      if size == 0 {
        return;
      }
      if !Aligned(offset) {
        failed := true;
        return;
      }
      writes := writes + [Write(buf, size, offset)];
      offset := offset + size;
      if offset >= c.segSize {
        failed := true;
        return;
      }
      if !blockFull {
        offset := offset - BLOCK;
      }
      if c.fakeWrap != 0 && offset >= c.fakeWrap {
        failed := offset != c.fakeWrap;
        offset := 0;
      }
    }

    /** The write phase of groupCommiter for one log. */
    method QueueWrites(gctCursor: nat, published: Published)
      requires !failed && writes == [] && gctCursor <= c.bufSize
      modifies this
      ensures forall s: Log :: s.gctCursor == gctCursor && s.pub == published && s.segOffset == old(offset) ==>
                View() == PlanWrites(c, s)
    {
      var lower := DownAlign(gctCursor);
      var upper := UpAlign(published.offset);
      if published.offset > gctCursor {
        AddPwrite(lower, upper - lower, upper == published.offset);
      } else if published.offset < gctCursor {
        AddPwrite(lower, c.bufSize - lower, true);
        if !failed {
          AddPwrite(0, upper, upper == published.offset);
        }
      }
    }
  }

  lemma GrantStep(c: Config, s: Log, req: nat)
    requires s.phase.Idle? && !s.redirect && 0 < req && req + c.crSize <= BLOCK
    requires FreeSpace(c, s.gctCursor, s.cursor) >= WaitBytes(c, s.cursor, req)
    ensures Step(c, s, Grant(req)) == Next(s.(phase := Granted(req)))
  {
  }

  /** With a full queue and a locked front both entries wait, before they are written. */
  lemma StuckStep(c: Config, s: Log, entry: seq<byte>, skipType: byte)
    requires |s.holes| >= c.maxHoles && UnlockedPrefix(s.holes) == 0 && (s.phase.CrBumped? || s.phase.SkipBumped?)
    requires |entry| == c.crSize && s.cursor + c.crSize <= |s.ring| && 0 < c.crSize
    ensures WriteEntryStep(c, s, entry, skipType) == Blocked
  {
  }

  lemma CrStep(c: Config, s: Log, req: nat, entry: seq<byte>)
    requires s.phase == CrBumped(req) && |entry| == c.crSize && s.cursor + c.crSize <= |s.ring|
    ensures Step(c, s, WriteCr(entry))
         == InsertHole(c, s.(ring := Splice(s.ring, s.cursor, entry), cursor := 0, phase := Ready(req)),
                       Hole(0, s.gsnClock, false, 0, 0, 0))
  {
  }

  lemma SkipStep(c: Config, s: Log, req: nat, skipType: byte)
    requires s.phase == SkipBumped(req) && s.cursor < |s.ring|
    ensures Step(c, s, WriteSkip(skipType))
         == InsertHole(c,
           s.(ring := Splice(s.ring, s.cursor, [skipType]), cursor := UpAlign(s.cursor), phase := Ready(req)),
                       Hole(UpAlign(s.cursor), s.gsnClock, false, 0, 0, 0))
  {
  }

  /** A skip in front of a record that fits before the end of the ring stays a block away from it. */
  lemma SkipStaysInside(cursor: nat, req: nat, cr: nat, size: nat)
    requires Aligned(size) && 0 < req && 0 < cr && req + cr <= BLOCK && cursor + req + cr <= size
    requires DownAlign(cursor) != DownAlign(cursor + req)
    ensures UpAlign(cursor) + cr <= size
  {
    SkipBlock(cursor, req);
    Gap(UpAlign(cursor), size);
  }

  /** The collected prefix is determined by the lock bits. */
  lemma PrefixUnique(hs: seq<Hole>, k: nat)
    requires k <= |hs| && (forall i :: 0 <= i < k ==> !hs[i].locked) && (k < |hs| ==> hs[k].locked)
    ensures k == UnlockedPrefix(hs)
  {
  }
}
