/**
  tryCopyFromWALBuffer: a reader without the log buffer mutex copies a record out of the ring while
  workers keep reserving and overwriting it, and trusts the copy only if the LSN counter says so.
 */
module WalReader {
  import opened Wrappers
  import opened Align
  import opened WalMachine
  import opened WalHistory
  import opened WalProof
  import opened WalTheorems

  /** sizeof(WALEntry) */
  const HEADER: nat := 32

  /** The record size in a copied header: u16 at offset 2, little endian. */
  function SizeField(got: map<nat, byte>): (r: nat)
    requires 2 in got && 3 in got
  {
    got[2] as int + 256 * (got[3] as int)
  }

  datatype Reader =
    | Header(off: nat, max: nat, got: map<nat, byte>)
    | Body(off: nat, max: nat, got: map<nat, byte>, size: nat)
    | Copied(bytes: seq<byte>)
    | Refused

  datatype ReaderOutcome = ReaderNext(reader: Reader) | ReaderBlocked | ReaderCrash

  /** wal_lsn_counter - off > FLAGS_wal_buffer_size on u64: an LSN ahead of the counter wraps to a huge difference. */
  predicate TooOld(c: Config, s: Log, off: nat) {
    s.lsn < off || s.lsn - off > c.bufSize
  }

  function Start(c: Config, s: Log, off: nat, max: nat): (r: ReaderOutcome) {
    if TooOld(c, s, off) then ReaderNext(Refused)
    else if max < HEADER then ReaderCrash
    else ReaderNext(Header(off, max, map[]))
  }

  datatype ReaderEvent = ReadByte(j: nat) | Check

  function ReaderStep(c: Config, s: Log, r: Reader, e: ReaderEvent): (o: ReaderOutcome)
    requires 0 < c.bufSize
  {
    match r
    case Header(off, max, got) =>
      (match e
       case ReadByte(j) =>
         if j >= HEADER then ReaderBlocked
         else if off % c.bufSize + j >= |s.ring| then ReaderCrash
         else ReaderNext(Header(off, max, got[j := s.ring[off % c.bufSize + j]]))
       case Check =>
         if exists j | 0 <= j < HEADER :: j !in got then ReaderBlocked
         else if TooOld(c, s, off) then ReaderNext(Refused)
         else
           assert 2 in got && 3 in got;
           var size := SizeField(got);
           if size < HEADER || size > max then ReaderCrash else ReaderNext(Body(off, max, got, size)))
    case Body(off, max, got, size) =>
      (match e
       case ReadByte(j) =>
         if j < HEADER || j >= size then ReaderBlocked
         else if off % c.bufSize + j >= |s.ring| then ReaderCrash
         else ReaderNext(Body(off, max, got[j := s.ring[off % c.bufSize + j]], size))
       case Check =>
         if exists j | 0 <= j < size :: j !in got then ReaderBlocked
         else if TooOld(c, s, off) then ReaderNext(Refused)
         else ReaderNext(Copied(seq(size, j requires 0 <= j < size => got[j]))))
    case Copied(_) => ReaderBlocked
    case Refused => ReaderBlocked
  }

  /** The record whose LSN the reader was given, as its owner submitted it. */
  ghost predicate Target(c: Config, w: World, rec: Submitted, off: nat, max: nat) {
    && rec in w.hist.submitted && rec.lsn == off
    && HEADER <= |rec.bytes| <= max
    && rec.bytes[2] as int + 256 * (rec.bytes[3] as int) == |rec.bytes|
  }

  /** A byte already copied is the record's byte, or the counter has run a whole ring past the record. */
  ghost predicate ReaderInv(c: Config, w: World, r: Reader, rec: Submitted) {
    match r
    case Header(off, max, got) =>
      Target(c, w, rec, off, max) && Trusted(c, w.log, off, got, rec)
    case Body(off, max, got, size) =>
      Target(c, w, rec, off, max) && Trusted(c, w.log, off, got, rec) && size == |rec.bytes|
    case Copied(bytes) => bytes == rec.bytes
    case Refused => true
  }

  ghost predicate Trusted(c: Config, s: Log, off: nat, got: map<nat, byte>, rec: Submitted) {
    s.lsn > off + c.bufSize || forall j | j in got && j < |rec.bytes| :: got[j] == rec.bytes[j]
  }

  /** Where the record lies in the ring as long as the counter has not run a ring past it. */
  lemma RecordInRing(c: Config, w: World, rec: Submitted, j: nat)
    requires ValidConfig(c) && c.fakeWrap == 0 && Inv(c, w) && rec in w.hist.submitted && j < |rec.bytes|
    ensures rec.lsn % c.bufSize + |rec.bytes| <= c.bufSize == |w.log.ring|
    ensures w.log.lsn <= rec.lsn + c.bufSize ==> w.log.ring[rec.lsn % c.bufSize + j] == rec.bytes[j]
  {
    assert SubmittedOk(c, w.log, w.hist, rec);
    SubmittedInRing(c, w.log, w.hist, rec, j);
  }

  lemma SubmittedInRing(c: Config, s: Log, h: History, rec: Submitted, j: nat)
    requires ValidConfig(c) && c.fakeWrap == 0 && Cursors(c, s, h) && RingOk(c, s, h) && j < |rec.bytes|
    requires |h.ends| == |s.holes| && SubmittedOk(c, s, h, rec)
    ensures rec.lsn % c.bufSize + |rec.bytes| <= c.bufSize == |s.ring|
    ensures s.lsn <= rec.lsn + c.bufSize ==> s.ring[rec.lsn % c.bufSize + j] == rec.bytes[j]
  {
    SliceAt(h.lin, rec.at, rec.bytes, j);
    LapOf(c, rec.at, |rec.bytes|);
    if s.lsn <= rec.lsn + c.bufSize {
      AtInRing(c, s, h, rec.at, |rec.bytes|, j);
    }
  }

  lemma SliceAt(lin: seq<byte>, at: nat, bytes: seq<byte>, j: nat)
    requires at + |bytes| <= |lin| && lin[at..at + |bytes|] == bytes && j < |bytes|
    ensures lin[at + j] == bytes[j]
  {
    assert lin[at..at + |bytes|][j] == lin[at + j];
  }

  /** A linear position that the counter has not left by more than a ring is still in the ring. */
  lemma AtInRing(c: Config, s: Log, h: History, at: nat, size: nat, j: nat)
    requires ValidConfig(c) && c.fakeWrap == 0 && Cursors(c, s, h) && RingOk(c, s, h) && j < size
    requires at + size <= |h.lin| && InOneBlock(at, size) && s.lsn <= at + c.bufSize
    requires at % c.bufSize + size <= c.bufSize
    ensures s.ring[at % c.bufSize + j] == h.lin[at + j]
  {
    if at >= h.lap {
      ModInLap(c.bufSize, h.lap, at);
    } else {
      MultipleDifference(c.bufSize, c.bufSize, h.lap);
      ModInLap(c.bufSize, h.lap - c.bufSize, at);
      MultipleOfBlocks(c.bufSize, h.lap);
      Gap(DownAlign(at), h.lap);
    }
  }

  /** A range inside one block does not wrap around the end of the ring. */
  lemma LapOf(c: Config, at: nat, size: nat)
    requires ValidConfig(c) && InOneBlock(at, size)
    ensures at % c.bufSize + size <= c.bufSize
  {
    LapStart(c.bufSize, at);
    InLap(at, size, at - at % c.bufSize, c.bufSize);
  }

  lemma InLap(at: nat, size: nat, lap: nat, ring: nat)
    requires InOneBlock(at, size) && 0 < ring && Multiple(BLOCK, ring) && Multiple(ring, lap) && lap <= at < lap + ring
    ensures at - lap + size <= ring
  {
    MultipleOfBlocks(ring, lap);
    MultipleSum(BLOCK, lap, ring);
    Gap(DownAlign(at), lap + ring);
  }

  lemma LapStart(b: nat, x: nat)
    requires 0 < b
    ensures Multiple(b, x - x % b) && x % b < b
  {
    assert x - x % b == (x / b) * b;
    LapIsMultiple(b, x / b);
  }

  lemma {:induction false} LapIsMultiple(b: nat, k: nat)
    requires 0 < b
    ensures Multiple(b, k * b)
    decreases k
  {
    if k > 0 {
      LapIsMultiple(b, k - 1);
      assert k * b == (k - 1) * b + b;
    }
  }

  /** A step of the log never turns a trusted copy into a wrong one: the counter only grows. */
  lemma LogStepKeepsReader(c: Config, w: World, e: Event, w': World, r: Reader, rec: Submitted)
    requires ValidConfig(c) && c.fakeWrap == 0 && Inv(c, w) && StepTo(c, w, e, w') && ReaderInv(c, w, r, rec)
    ensures ReaderInv(c, w', r, rec)
  {
    StepForward(c, w, e, w');
  }

  lemma ReaderStepKeeps(c: Config, w: World, r: Reader, e: ReaderEvent, rec: Submitted)
    requires ValidConfig(c) && c.fakeWrap == 0 && Inv(c, w) && ReaderInv(c, w, r, rec)
    ensures ReaderStep(c, w.log, r, e) != ReaderCrash
    ensures ReaderStep(c, w.log, r, e).ReaderNext? ==> ReaderInv(c, w, ReaderStep(c, w.log, r, e).reader, rec)
  {
    match e
    case ReadByte(j) => ReadKeeps(c, w, r, j, rec);
    case Check => CheckKeeps(c, w, r, rec);
  }

  lemma ReadKeeps(c: Config, w: World, r: Reader, j: nat, rec: Submitted)
    requires ValidConfig(c) && c.fakeWrap == 0 && Inv(c, w) && ReaderInv(c, w, r, rec)
    ensures ReaderStep(c, w.log, r, ReadByte(j)) != ReaderCrash
    ensures ReaderStep(c, w.log, r, ReadByte(j)).ReaderNext? ==>
            ReaderInv(c, w, ReaderStep(c, w.log, r, ReadByte(j)).reader, rec)
  {
    if (r.Header? && j < HEADER) || (r.Body? && j < r.size) {
      RecordInRing(c, w, rec, j);
      ReadTrusted(c, w, r, j, rec);
    }
  }

  lemma ReadTrusted(c: Config, w: World, r: Reader, j: nat, rec: Submitted)
    requires 0 < c.bufSize && ReaderInv(c, w, r, rec) && ((r.Header? && j < HEADER) || (r.Body? && j < r.size))
    requires rec.lsn % c.bufSize + |rec.bytes| <= c.bufSize == |w.log.ring|
    requires w.log.lsn <= rec.lsn + c.bufSize ==> w.log.ring[rec.lsn % c.bufSize + j] == rec.bytes[j]
    ensures ReaderStep(c, w.log, r, ReadByte(j)) != ReaderCrash
    ensures ReaderStep(c, w.log, r, ReadByte(j)).ReaderNext? ==>
            ReaderInv(c, w, ReaderStep(c, w.log, r, ReadByte(j)).reader, rec)
  {
  }

  lemma CheckKeeps(c: Config, w: World, r: Reader, rec: Submitted)
    requires 0 < c.bufSize && ReaderInv(c, w, r, rec)
    ensures ReaderStep(c, w.log, r, Check) != ReaderCrash
    ensures ReaderStep(c, w.log, r, Check).ReaderNext? ==> ReaderInv(c, w, ReaderStep(c, w.log, r, Check).reader, rec)
  {
    var e := Check;
    if r.Body? && !TooOld(c, w.log, r.off) && forall j | 0 <= j < r.size :: j in r.got {
      assert ReaderStep(c, w.log, r, e).reader.bytes == rec.bytes;
    }
  }

  // ----- whole runs with a reader

  datatype Action = LogAction(event: Event) | ReaderAction(action: ReaderEvent)

  ghost predicate ActionAt(c: Config, worlds: seq<World>, readers: seq<Reader>, actions: seq<Action>, i: nat)
    requires 0 < c.bufSize && |worlds| == |readers| == |actions| + 1 && i < |actions|
  {
    ActionTo(c, worlds[i], readers[i], actions[i], worlds[i + 1], readers[i + 1])
  }

  ghost predicate ActionTo(c: Config, w: World, r: Reader, a: Action, w': World, r': Reader)
    requires 0 < c.bufSize
  {
    match a
    case LogAction(e) => StepTo(c, w, e, w') && r' == r
    case ReaderAction(e) => w' == w && ReaderStep(c, w.log, r, e) == ReaderNext(r')
  }

  ghost predicate ReaderRun(c: Config, worlds: seq<World>, readers: seq<Reader>, actions: seq<Action>)
    requires 0 < c.bufSize
  {
    && |worlds| == |readers| == |actions| + 1
    && forall i | 0 <= i < |actions| :: ActionAt(c, worlds, readers, actions, i)
  }

  lemma {:induction false} ReaderRunKeeps(
      c: Config, worlds: seq<World>, readers: seq<Reader>, actions: seq<Action>, rec: Submitted, max: nat, n: nat)
    requires ValidConfig(c) && c.fakeWrap == 0 && ReaderRun(c, worlds, readers, actions) && Inv(c, worlds[0])
    requires Target(c, worlds[0], rec, rec.lsn, max) && Start(c, worlds[0].log, rec.lsn, max) == ReaderNext(readers[0])
    requires n < |readers|
    ensures Inv(c, worlds[n]) && ReaderInv(c, worlds[n], readers[n], rec)
    decreases n
  {
    if n == 0 {
      ReaderStarts(c, worlds[0], readers[0], rec, max);
    } else {
      ReaderRunKeeps(c, worlds, readers, actions, rec, max, n - 1);
      assert ActionAt(c, worlds, readers, actions, n - 1);
      ActionKeeps(c, worlds[n - 1], readers[n - 1], actions[n - 1], worlds[n], readers[n], rec);
    }
  }

  lemma ReaderStarts(c: Config, w: World, r: Reader, rec: Submitted, max: nat)
    requires Target(c, w, rec, rec.lsn, max) && Start(c, w.log, rec.lsn, max) == ReaderNext(r)
    ensures ReaderInv(c, w, r, rec)
  {
  }

  lemma ActionKeeps(c: Config, w: World, r: Reader, a: Action, w': World, r': Reader, rec: Submitted)
    requires ValidConfig(c) && c.fakeWrap == 0 && Inv(c, w) && ReaderInv(c, w, r, rec) && ActionTo(c, w, r, a, w', r')
    ensures Inv(c, w') && ReaderInv(c, w', r', rec)
  {
    match a
    case LogAction(e) =>
      StepKeeps(c, w, e, w');
      LogStepKeepsReader(c, w, e, w', r, rec);
    case ReaderAction(e) =>
      ReaderStepKeeps(c, w, r, e, rec);
  }

  /**
    If the reader starts on the LSN of a submitted record and returns a copy, the copy is that record,
    however the steps of workers and committer fall between its reads. None of its own checks fails.
   */
  lemma CopyIsTheRecord(
      c: Config, worlds: seq<World>, readers: seq<Reader>, actions: seq<Action>, rec: Submitted, max: nat, n: nat,
        e: ReaderEvent)
    requires ValidConfig(c) && c.fakeWrap == 0 && ReaderRun(c, worlds, readers, actions) && Reachable(c, worlds[0])
    requires Target(c, worlds[0], rec, rec.lsn, max) && Start(c, worlds[0].log, rec.lsn, max) == ReaderNext(readers[0])
    requires n < |readers|
    ensures readers[n].Copied? ==> readers[n].bytes == rec.bytes
    ensures ReaderStep(c, worlds[n].log, readers[n], e) != ReaderCrash
  {
    ReachableInv(c, worlds[0]);
    ReaderRunKeeps(c, worlds, readers, actions, rec, max, n);
    ReaderStepKeeps(c, worlds[n], readers[n], e, rec);
  }

  // ----- when it gets its copy

  /** The counter has run more than a ring past the record. */
  predicate Passed(c: Config, s: Log, rec: Submitted) {
    rec.lsn + c.bufSize < s.lsn
  }

  lemma NotAhead(c: Config, w: World, rec: Submitted)
    requires c.fakeWrap == 0 && Inv(c, w) && rec in w.hist.submitted
    ensures rec.lsn <= w.log.lsn && (TooOld(c, w.log, rec.lsn) <==> Passed(c, w.log, rec))
  {
    assert SubmittedOk(c, w.log, w.hist, rec);
  }

  /** A reader is turned away exactly when the counter has run more than a ring past the record. */
  lemma StartIff(c: Config, w: World, rec: Submitted, max: nat)
    requires ValidConfig(c) && c.fakeWrap == 0 && Reachable(c, w) && Target(c, w, rec, rec.lsn, max)
    ensures Start(c, w.log, rec.lsn, max) ==
            ReaderNext(if Passed(c, w.log, rec) then Refused else Header(rec.lsn, max, map[]))
  {
    ReachableInv(c, w);
    NotAhead(c, w, rec);
  }

  /** All bytes that the next check is about have been read. */
  ghost predicate HasRead(r: Reader) {
    && (r.Header? || r.Body?)
    && forall j: nat | j < (if r.Header? then HEADER else r.size) :: j in r.got
  }

  /** The same at each of its checks; otherwise it goes on to the body, or returns the record. */
  lemma CheckIff(c: Config, worlds: seq<World>, readers: seq<Reader>, actions: seq<Action>, rec: Submitted, max: nat,
                 n: nat)
    requires ValidConfig(c) && c.fakeWrap == 0 && ReaderRun(c, worlds, readers, actions) && Reachable(c, worlds[0])
    requires Target(c, worlds[0], rec, rec.lsn, max) && Start(c, worlds[0].log, rec.lsn, max) == ReaderNext(readers[0])
    requires n < |readers| && HasRead(readers[n])
    ensures ReaderStep(c, worlds[n].log, readers[n], Check) ==
            ReaderNext(if Passed(c, worlds[n].log, rec) then Refused
                       else if readers[n].Header? then Body(rec.lsn, readers[n].max, readers[n].got, |rec.bytes|)
                       else Copied(rec.bytes))
  {
    ReachableInv(c, worlds[0]);
    ReaderRunKeeps(c, worlds, readers, actions, rec, max, n);
    CheckResult(c, worlds[n], readers[n], rec);
  }

  lemma CheckResult(c: Config, w: World, r: Reader, rec: Submitted)
    requires ValidConfig(c) && c.fakeWrap == 0 && Inv(c, w) && ReaderInv(c, w, r, rec) && HasRead(r)
    ensures ReaderStep(c, w.log, r, Check) ==
            ReaderNext(if Passed(c, w.log, rec) then Refused
                       else if r.Header? then Body(rec.lsn, r.max, r.got, |rec.bytes|) else Copied(rec.bytes))
  {
    NotAhead(c, w, rec);
    assert 0 in r.got && 1 in r.got && 2 in r.got && 3 in r.got;
    if r.Body? && !Passed(c, w.log, rec) {
      assert seq(r.size, j requires 0 <= j < r.size => r.got[j]) == rec.bytes;
    }
  }

  ghost predicate ReaderPath(c: Config, w: World, readers: seq<Reader>, events: seq<ReaderEvent>)
    requires 0 < c.bufSize
  {
    && |readers| == |events| + 1
    && forall i | 0 <= i < |events| :: ReaderStep(c, w.log, readers[i], events[i]) == ReaderNext(readers[i + 1])
  }

  /** Steps of the reader alone lead from r to r'. */
  ghost predicate ReaderLeads(c: Config, w: World, r: Reader, r': Reader)
    requires 0 < c.bufSize
  {
    exists readers, events :: ReaderPath(c, w, readers, events) && readers[0] == r && readers[|events|] == r'
  }

  lemma ReaderOn(c: Config, w: World, a: Reader, r: Reader, e: ReaderEvent, r': Reader)
    requires 0 < c.bufSize && ReaderLeads(c, w, a, r) && ReaderStep(c, w.log, r, e) == ReaderNext(r')
    ensures ReaderLeads(c, w, a, r')
  {
    var readers, events :| ReaderPath(c, w, readers, events) && readers[0] == a && readers[|events|] == r;
    var (readers', events') := (readers + [r'], events + [e]);
    assert ReaderPath(c, w, readers', events') && readers'[0] == a && readers'[|events'|] == r';
  }

  /** The bytes before j that this loop copies have been read. */
  ghost predicate HasReadTo(r: Reader, j: nat) {
    && (r.Header? || r.Body?) && j <= (if r.Header? then HEADER else r.size)
    && (r.Body? ==> HEADER <= j && forall k: nat | k < HEADER :: k in r.got)
    && forall k: nat | k < j :: k in r.got
  }

  lemma ReadOne(c: Config, w: World, r: Reader, rec: Submitted, j: nat) returns (r': Reader)
    requires ValidConfig(c) && c.fakeWrap == 0 && Inv(c, w) && ReaderInv(c, w, r, rec) && HasReadTo(r, j)
    requires j < (if r.Header? then HEADER else r.size)
    ensures ReaderStep(c, w.log, r, ReadByte(j)) == ReaderNext(r') && ReaderInv(c, w, r', rec) && HasReadTo(r', j + 1)
    ensures (r'.Header? <==> r.Header?) && (r.Body? ==> r'.size == r.size)
  {
    ReaderStepKeeps(c, w, r, ReadByte(j), rec);
    r' := ReaderStep(c, w.log, r, ReadByte(j)).reader;
  }

  lemma {:induction false} ReadRest(c: Config, w: World, a: Reader, r: Reader, rec: Submitted, j: nat)
    returns (r': Reader)
    requires ValidConfig(c) && c.fakeWrap == 0 && Inv(c, w) && ReaderInv(c, w, r, rec) && HasReadTo(r, j)
    requires ReaderLeads(c, w, a, r)
    ensures ReaderLeads(c, w, a, r') && ReaderInv(c, w, r', rec) && HasRead(r') && (r'.Header? <==> r.Header?)
    decreases (if r.Header? then HEADER else r.size) - j
  {
    if j == (if r.Header? then HEADER else r.size) {
      r' := r;
    } else {
      var u := ReadOne(c, w, r, rec, j);
      ReaderOn(c, w, a, r, ReadByte(j), u);
      r' := ReadRest(c, w, a, u, rec, j + 1);
    }
  }

  lemma ReadsBody(c: Config, w: World, a: Reader, r: Reader, rec: Submitted)
    requires ValidConfig(c) && c.fakeWrap == 0 && Inv(c, w) && ReaderInv(c, w, r, rec) && !Passed(c, w.log, rec)
    requires ReaderLeads(c, w, a, r) && r.Body? && HEADER <= r.size && forall k: nat | k < HEADER :: k in r.got
    ensures ReaderLeads(c, w, a, Copied(rec.bytes))
  {
    var u := ReadRest(c, w, a, r, rec, HEADER);
    CheckResult(c, w, u, rec);
    ReaderOn(c, w, a, u, Check, Copied(rec.bytes));
  }

  lemma ReadsHeader(c: Config, w: World, a: Reader, r: Reader, rec: Submitted)
    requires ValidConfig(c) && c.fakeWrap == 0 && Inv(c, w) && ReaderInv(c, w, r, rec) && !Passed(c, w.log, rec)
    requires ReaderLeads(c, w, a, r) && r.Header?
    ensures ReaderLeads(c, w, a, Copied(rec.bytes))
  {
    var u := ReadRest(c, w, a, r, rec, 0);
    CheckResult(c, w, u, rec);
    var body := Body(rec.lsn, u.max, u.got, |rec.bytes|);
    ReaderOn(c, w, a, u, Check, body);
    ReadsBody(c, w, a, body, rec);
  }

  /** Whenever it starts before the counter has run a ring past the record, its own steps can bring it the record. */
  lemma CopyCanBeHad(c: Config, w: World, rec: Submitted, max: nat)
    requires ValidConfig(c) && c.fakeWrap == 0 && Reachable(c, w) && Target(c, w, rec, rec.lsn, max)
    requires !Passed(c, w.log, rec)
    ensures Start(c, w.log, rec.lsn, max).ReaderNext?
    ensures ReaderLeads(c, w, Start(c, w.log, rec.lsn, max).reader, Copied(rec.bytes))
  {
    StartIff(c, w, rec, max);
    ReachableInv(c, w);
    var (r, none: seq<ReaderEvent>) := (Header(rec.lsn, max, map[]), []);
    ReaderStarts(c, w, r, rec, max);
    assert ReaderPath(c, w, [r], none) && [r][0] == r && [r][|none|] == r;
    ReadsHeader(c, w, r, r, rec);
  }
}
