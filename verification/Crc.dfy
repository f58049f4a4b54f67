/**
  The CRC with reflected input, at any width of at least eight bits: bit by bit, by table, and in parts.
  Words and bytes are the sequences of their bits, least significant first.
 */
module Crc {
  import opened Wrappers

  type Bits = seq<bool>

  const CHAR_BIT: nat := 8

  function Zeros(n: nat): (r: Bits)
    ensures |r| == n && forall i | 0 <= i < n :: !r[i]
  {
    seq(n, i => false)
  }

  function Xor(a: Bits, b: Bits): (r: Bits)
    requires |a| == |b|
    ensures |r| == |a| && forall i | 0 <= i < |a| :: r[i] == (a[i] != b[i])
  {
    seq(|a|, i requires 0 <= i < |a| => a[i] != b[i])
  }

  /** A byte as a word. */
  function Widen(b: Bits, width: nat): (r: Bits)
    requires |b| <= width
    ensures |r| == width
  {
    b + Zeros(width - |b|)
  }

  /** remainder >> n. */
  function ShiftRight(r: Bits, n: nat): (s: Bits)
    requires n <= |r|
    ensures |s| == |r|
  {
    r[n..] + Zeros(n)
  }

  /** One turn of the inner loop. */
  function Turn(r: Bits, polynomial: Bits): (s: Bits)
    requires |r| == |polynomial| > 0
    ensures |s| == |r|
  {
    if r[0] then Xor(ShiftRight(r, 1), polynomial) else ShiftRight(r, 1)
  }

  function Turns(r: Bits, polynomial: Bits, n: nat): (s: Bits)
    requires |r| == |polynomial| > 0
    ensures |s| == |r|
  {
    if n == 0 then r else Turn(Turns(r, polynomial, n - 1), polynomial)
  }

  predicate IsByte(b: Bits) {
    |b| == CHAR_BIT
  }

  predicate AreBytes(data: seq<Bits>) {
    forall i | 0 <= i < |data| :: IsByte(data[i])
  }

  /** One byte of data, bit by bit. */
  function AddByte(r: Bits, b: Bits, polynomial: Bits): (s: Bits)
    requires |r| == |polynomial| >= CHAR_BIT && IsByte(b)
    ensures |s| == |r|
  {
    Turns(Xor(r, Widen(b, |r|)), polynomial, CHAR_BIT)
  }

  /** CalculateRemainder, bit by bit. */
  function Remainder(data: seq<Bits>, polynomial: Bits, r: Bits): (s: Bits)
    requires |r| == |polynomial| >= CHAR_BIT && AreBytes(data)
    ensures |s| == |r|
  {
    if data == [] then r
    else AddByte(Remainder(data[..|data| - 1], polynomial, r), data[|data| - 1], polynomial)
  }

  // ----- eight turns are one lookup

  lemma TurnLinear(a: Bits, b: Bits, polynomial: Bits)
    requires |a| == |b| == |polynomial| > 0
    ensures Turn(Xor(a, b), polynomial) == Xor(Turn(a, polynomial), Turn(b, polynomial))
  {
  }

  lemma {:induction false} TurnsLinear(a: Bits, b: Bits, polynomial: Bits, n: nat)
    requires |a| == |b| == |polynomial| > 0
    ensures Turns(Xor(a, b), polynomial, n) == Xor(Turns(a, polynomial, n), Turns(b, polynomial, n))
  {
    if n > 0 {
      TurnsLinear(a, b, polynomial, n - 1);
      TurnLinear(Turns(a, polynomial, n - 1), Turns(b, polynomial, n - 1), polynomial);
    }
  }

  /** Low zero bits only shift out. */
  lemma {:induction false} TurnsOfZeros(r: Bits, polynomial: Bits, n: nat)
    requires |r| == |polynomial| > 0 && n <= |r| && forall i | 0 <= i < n :: !r[i]
    ensures Turns(r, polynomial, n) == ShiftRight(r, n)
  {
    if n > 0 {
      TurnsOfZeros(r, polynomial, n - 1);
    }
  }

  /** The low byte of remainder ^ byte. */
  function Low(r: Bits, b: Bits): (c: Bits)
    requires |r| >= CHAR_BIT && IsByte(b)
    ensures IsByte(c)
  {
    Xor(r[..CHAR_BIT], b)
  }

  /** The table's entry for a byte: its remainder from zero. */
  function Entry(b: Bits, polynomial: Bits): (s: Bits)
    requires IsByte(b) && |polynomial| >= CHAR_BIT
    ensures |s| == |polynomial|
  {
    AddByte(Zeros(|polynomial|), b, polynomial)
  }

  lemma HighAndLow(r: Bits, b: Bits, high: Bits, low: Bits)
    requires |r| >= CHAR_BIT && IsByte(b)
    requires high == Zeros(CHAR_BIT) + r[CHAR_BIT..] && low == Widen(Low(r, b), |r|)
    ensures Xor(r, Widen(b, |r|)) == Xor(high, low)
    ensures ShiftRight(high, CHAR_BIT) == ShiftRight(r, CHAR_BIT)
    ensures Xor(Zeros(|r|), low) == low
  {
  }

  /** The table-driven step computes what the bit-by-bit loop computes. */
  lemma LookupIsAddByte(r: Bits, b: Bits, polynomial: Bits)
    requires |r| == |polynomial| >= CHAR_BIT && IsByte(b)
    ensures AddByte(r, b, polynomial) == Xor(ShiftRight(r, CHAR_BIT), Entry(Low(r, b), polynomial))
  {
    var (high, low) := (Zeros(CHAR_BIT) + r[CHAR_BIT..], Widen(Low(r, b), |r|));
    HighAndLow(r, b, high, low);
    TurnsLinear(high, low, polynomial, CHAR_BIT);
    TurnsOfZeros(high, polynomial, CHAR_BIT);
  }

  // ----- the table

  function Index(b: Bits): (i: nat) {
    if b == [] then 0 else (if b[0] then 1 else 0) + 2 * Index(b[1..])
  }

  /** The bits of a number. */
  function BitsOf(i: nat, n: nat): (b: Bits)
    ensures |b| == n
  {
    if n == 0 then [] else [i % 2 == 1] + BitsOf(i / 2, n - 1)
  }

  function Power(n: nat): (r: nat) {
    if n == 0 then 1 else 2 * Power(n - 1)
  }

  lemma {:induction false} IndexInRange(b: Bits)
    ensures Index(b) < Power(|b|)
  {
    if b != [] {
      IndexInRange(b[1..]);
    }
  }

  lemma {:induction false} BitsOfIndex(b: Bits)
    ensures BitsOf(Index(b), |b|) == b
  {
    if b != [] {
      BitsOfIndex(b[1..]);
      assert Index(b) / 2 == Index(b[1..]) && (Index(b) % 2 == 1 <==> b[0]);
    }
  }

  lemma ByteIndex(b: Bits)
    requires IsByte(b)
    ensures Index(b) < 256 && BitsOf(Index(b), CHAR_BIT) == b
  {
    IndexInRange(b);
    BitsOfIndex(b);
    assert Power(4) == 16;
    assert Power(8) == 16 * Power(4);
  }

  /** The table holds the remainder of every byte. */
  predicate TableOk(table: seq<Bits>, polynomial: Bits)
    requires |polynomial| >= CHAR_BIT
  {
    |table| == 256 && forall i | 0 <= i < 256 :: table[i] == Entry(BitsOf(i, CHAR_BIT), polynomial)
  }

  method RemainderOfByte(r: Bits, b: Bits, polynomial: Bits) returns (s: Bits)
    requires |r| == |polynomial| >= CHAR_BIT && IsByte(b)
    ensures s == AddByte(r, b, polynomial)
  {
    s := Xor(r, Widen(b, |r|));
    var i := 0;
    while i < CHAR_BIT
      invariant 0 <= i <= CHAR_BIT && |s| == |r|
      invariant s == Turns(Xor(r, Widen(b, |r|)), polynomial, i)
    {
      s := if s[0] then Xor(ShiftRight(s, 1), polynomial) else ShiftRight(s, 1);
      i := i + 1;
    }
  }

  method CalculateRemainder(data: seq<Bits>, polynomial: Bits, r: Bits) returns (s: Bits)
    requires |r| == |polynomial| >= CHAR_BIT && AreBytes(data)
    ensures s == Remainder(data, polynomial, r)
  {
    s := r;
    var k := 0;
    while k < |data|
      invariant 0 <= k <= |data| && |s| == |r|
      invariant s == Remainder(data[..k], polynomial, r)
    {
      assert data[..k + 1][..k] == data[..k];
      s := RemainderOfByte(s, data[k], polynomial);
      k := k + 1;
    }
    assert data[..k] == data;
  }

  method InitTable(polynomial: Bits) returns (table: seq<Bits>)
    requires |polynomial| >= CHAR_BIT
    ensures TableOk(table, polynomial)
  {
    table := [];
    var byte := 0;
    while byte < 256
      invariant 0 <= byte == |table| <= 256
      invariant forall i | 0 <= i < byte :: table[i] == Entry(BitsOf(i, CHAR_BIT), polynomial)
    {
      var crc := RemainderOfByte(Zeros(|polynomial|), BitsOf(byte, CHAR_BIT), polynomial);
      table := table + [crc];
      byte := byte + 1;
    }
  }

  /**
    CalculateRemainder by table: the same remainder as bit by bit, for every byte sequence and every running remainder.
   */
  method CalculateRemainderByTable(data: seq<Bits>, table: seq<Bits>, polynomial: Bits, r: Bits) returns (s: Bits)
    requires |r| == |polynomial| >= CHAR_BIT && AreBytes(data) && TableOk(table, polynomial)
    ensures s == Remainder(data, polynomial, r)
  {
    s := r;
    var k := 0;
    while k < |data|
      invariant 0 <= k <= |data| && |s| == |r|
      invariant s == Remainder(data[..k], polynomial, r)
    {
      assert data[..k + 1][..k] == data[..k];
      LookupIsAddByte(s, data[k], polynomial);
      ByteIndex(Low(s, data[k]));
      s := Xor(ShiftRight(s, CHAR_BIT), table[Index(Low(s, data[k]))]);
      k := k + 1;
    }
    assert data[..k] == data;
  }

  // ----- the whole CRC, and CRCs in parts

  /** Parameters; reflectInput is true. */
  datatype Parameters = Parameters(polynomial: Bits, initial: Bits, finalXor: Bits, reflectOutput: bool)

  predicate ParametersOk(p: Parameters) {
    |p.initial| == |p.finalXor| == |p.polynomial| >= CHAR_BIT
  }

  /** Reflect over all bits. */
  function Reflect(r: Bits): (s: Bits)
    ensures |s| == |r| && forall i | 0 <= i < |r| :: s[i] == r[|r| - 1 - i]
  {
    seq(|r|, i requires 0 <= i < |r| => r[|r| - 1 - i])
  }

  /** The loop of Reflect: bits leave value at the low end and enter the result there. */
  method ReflectBits(value: Bits) returns (r: Bits)
    ensures r == Reflect(value)
  {
    r := [];
    var i := 0;
    while i < |value|
      invariant 0 <= i == |r| <= |value|
      invariant forall k | 0 <= k < i :: r[k] == value[i - 1 - k]
    {
      r := [value[i]] + r;
      i := i + 1;
    }
  }

  function Finalize(r: Bits, p: Parameters): (s: Bits)
    requires ParametersOk(p) && |r| == |p.polynomial|
    ensures |s| == |r|
  {
    Xor(if !p.reflectOutput then Reflect(r) else r, p.finalXor)
  }

  function UndoFinalize(crc: Bits, p: Parameters): (s: Bits)
    requires ParametersOk(p) && |crc| == |p.polynomial|
    ensures |s| == |crc|
  {
    var x := Xor(crc, p.finalXor);
    if !p.reflectOutput then Reflect(x) else x
  }

  lemma XorTwice(a: Bits, b: Bits)
    requires |a| == |b|
    ensures Xor(Xor(a, b), b) == a
  {
  }

  lemma ReflectTwice(a: Bits)
    ensures Reflect(Reflect(a)) == a
  {
  }

  lemma UndoFinalizeRestores(r: Bits, p: Parameters)
    requires ParametersOk(p) && |r| == |p.polynomial|
    ensures UndoFinalize(Finalize(r, p), p) == r && Finalize(UndoFinalize(r, p), p) == r
  {
    XorTwice(if !p.reflectOutput then Reflect(r) else r, p.finalXor);
    XorTwice(r, p.finalXor);
    ReflectTwice(r);
    ReflectTwice(Xor(r, p.finalXor));
  }

  function Calculate(data: seq<Bits>, p: Parameters): (crc: Bits)
    requires ParametersOk(p) && AreBytes(data)
    ensures |crc| == |p.polynomial|
  {
    Finalize(Remainder(data, Reflect(p.polynomial), p.initial), p)
  }

  /** Calculate with the CRC of what came before. */
  function CalculateMore(data: seq<Bits>, p: Parameters, crc: Bits): (r: Bits)
    requires ParametersOk(p) && AreBytes(data) && |crc| == |p.polynomial|
    ensures |r| == |crc|
  {
    Finalize(Remainder(data, Reflect(p.polynomial), UndoFinalize(crc, p)), p)
  }

  lemma {:induction false} RemainderInParts(a: seq<Bits>, b: seq<Bits>, polynomial: Bits, r: Bits)
    requires |r| == |polynomial| >= CHAR_BIT && AreBytes(a) && AreBytes(b)
    ensures AreBytes(a + b) && Remainder(a + b, polynomial, r) == Remainder(b, polynomial, Remainder(a, polynomial, r))
    decreases |b|
  {
    if b == [] {
      assert a + b == a;
    } else {
      var n := |b| - 1;
      RemainderInParts(a, b[..n], polynomial, r);
      assert (a + b)[..|a| + n] == a + b[..n];
    }
  }

  /** The CRC of two parts, one after the other, is the CRC of both together. */
  lemma CrcInParts(a: seq<Bits>, b: seq<Bits>, p: Parameters)
    requires ParametersOk(p) && AreBytes(a) && AreBytes(b)
    ensures AreBytes(a + b) && CalculateMore(b, p, Calculate(a, p)) == Calculate(a + b, p)
  {
    RemainderInParts(a, b, Reflect(p.polynomial), p.initial);
    UndoFinalizeRestores(Remainder(a, Reflect(p.polynomial), p.initial), p);
  }

  /** Calculate and CalculateMore by table. */
  method CalculateByTable(data: seq<Bits>, p: Parameters) returns (crc: Bits)
    requires ParametersOk(p) && AreBytes(data)
    ensures crc == Calculate(data, p)
  {
    var table := InitTable(Reflect(p.polynomial));
    var r := CalculateRemainderByTable(data, table, Reflect(p.polynomial), p.initial);
    crc := Finalize(r, p);
  }

  method CalculateMoreByTable(data: seq<Bits>, p: Parameters, crc: Bits) returns (r: Bits)
    requires ParametersOk(p) && AreBytes(data) && |crc| == |p.polynomial|
    ensures r == CalculateMore(data, p, crc)
  {
    var table := InitTable(Reflect(p.polynomial));
    r := CalculateRemainderByTable(data, table, Reflect(p.polynomial), UndoFinalize(crc, p));
    r := Finalize(r, p);
  }
}
