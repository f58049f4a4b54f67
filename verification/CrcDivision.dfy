/**
  A CRC is the remainder of a division of polynomials over one bit. A polynomial is the sequence of its coefficients,
  the highest power first; in the reflected order that is how a register and a stream of bits are read.
 */
module CrcDivision {
  import opened Crc

  // ----- polynomials

  /** b, or nothing. */
  function Times(bit: bool, b: Bits): (r: Bits)
    ensures |r| == |b|
  {
    if bit then b else Zeros(|b|)
  }

  /** Multiplication without carries: for every power of a one copy of b, shifted. */
  function Mul(a: Bits, b: Bits): (r: Bits)
    requires b != []
    ensures |r| == |a| + |b| - 1
  {
    if a == [] then Zeros(|b| - 1)
    else
      var n := |a| - 1;
      Xor(Mul(a[..n], b) + [false], Zeros(n) + Times(a[n], b))
  }

  /** x to the power of the width, plus the polynomial. */
  function Divisor(polynomial: Bits): (g: Bits) {
    [true] + polynomial
  }

  /** q times the divisor plus the remainder is the stream times x^width plus the initial value times x^|stream|. */
  ghost predicate Divides(q: Bits, stream: Bits, polynomial: Bits, initial: Bits, remainder: Bits) {
    && |q| == |stream| && |initial| == |remainder| == |polynomial|
    && Xor(Mul(q, Divisor(polynomial)), Zeros(|stream|) + remainder)
       == Xor(stream + Zeros(|polynomial|), initial + Zeros(|stream|))
  }

  /** The bits of the data in the order in which they are sent: each byte from its lowest bit. */
  function Stream(data: seq<Bits>): (r: Bits) {
    if data == [] then [] else Stream(data[..|data| - 1]) + data[|data| - 1]
  }

  lemma {:induction false} StreamLength(data: seq<Bits>)
    requires AreBytes(data)
    ensures |Stream(data)| == CHAR_BIT * |data|
  {
    if data != [] {
      StreamLength(data[..|data| - 1]);
    }
  }

  // ----- one bit of the stream

  /** Long division, one more bit d: the register shifts, and the divisor goes in if the bit that leaves is one. */
  function Next(r: Bits, d: bool, polynomial: Bits): (s: Bits)
    requires |r| == |polynomial| > 0
    ensures |s| == |r|
  {
    Xor(r[1..] + [false], Times(r[0] != d, polynomial))
  }

  lemma NextDivides(q: Bits, stream: Bits, polynomial: Bits, initial: Bits, r: Bits, d: bool)
    requires Divides(q, stream, polynomial, initial, r) && |polynomial| > 0
    ensures Divides(q + [r[0] != d], stream + [d], polynomial, initial, Next(r, d, polynomial))
  {
    var (n, w, g, top) := (|stream|, |polynomial|, Divisor(polynomial), r[0] != d);
    var (q', s', r') := (q + [top], stream + [d], Next(r, d, polynomial));
    assert q'[..n] == q;
    var (m, t) := (Mul(q, g) + [false], Zeros(n) + Times(top, g));
    assert Mul(q', g) == Xor(m, t);
    NextEquation(Mul(q, g), stream, polynomial, initial, r, d, top);
  }

  lemma NextEquation(m: Bits, stream: Bits, polynomial: Bits, initial: Bits, r: Bits, d: bool, top: bool)
    requires |initial| == |r| == |polynomial| > 0 && |m| == |stream| + |polynomial| && top == (r[0] != d)
    requires Xor(m, Zeros(|stream|) + r) == Xor(stream + Zeros(|polynomial|), initial + Zeros(|stream|))
    ensures Xor(Xor(m + [false], Zeros(|stream|) + Times(top, Divisor(polynomial))),
                Zeros(|stream| + 1) + Next(r, d, polynomial))
         == Xor(stream + [d] + Zeros(|polynomial|), initial + Zeros(|stream| + 1))
  {
    var (n, w) := (|stream|, |polynomial|);
    var left := Xor(Xor(m + [false], Zeros(n) + Times(top, Divisor(polynomial))),
                    Zeros(n + 1) + Next(r, d, polynomial));
    var right := Xor(stream + [d] + Zeros(w), initial + Zeros(n + 1));
    forall i | 0 <= i < n + w + 1
      ensures left[i] == right[i]
    {
      NextAt(m, stream, polynomial, initial, r, d, top, i);
    }
  }

  lemma NextAt(m: Bits, stream: Bits, polynomial: Bits, initial: Bits, r: Bits, d: bool, top: bool, i: nat)
    requires |initial| == |r| == |polynomial| > 0 && |m| == |stream| + |polynomial| && top == (r[0] != d)
    requires Xor(m, Zeros(|stream|) + r) == Xor(stream + Zeros(|polynomial|), initial + Zeros(|stream|))
    requires i < |stream| + |polynomial| + 1
    ensures Xor(Xor(m + [false], Zeros(|stream|) + Times(top, Divisor(polynomial))),
                Zeros(|stream| + 1) + Next(r, d, polynomial))[i]
         == Xor(stream + [d] + Zeros(|polynomial|), initial + Zeros(|stream| + 1))[i]
  {
    var n := |stream|;
    if i < |m| {
      assert Xor(m, Zeros(n) + r)[i] == Xor(stream + Zeros(|polynomial|), initial + Zeros(n))[i];
    }
  }

  /** Long division of a whole stream. */
  function Rest(r: Bits, stream: Bits, polynomial: Bits): (s: Bits)
    requires |r| == |polynomial| > 0
    ensures |s| == |r|
  {
    if stream == [] then r
    else Next(Rest(r, stream[..|stream| - 1], polynomial), stream[|stream| - 1], polynomial)
  }

  lemma NothingDivides(polynomial: Bits, initial: Bits)
    requires |initial| == |polynomial|
    ensures Divides([], [], polynomial, initial, initial)
  {
    assert Zeros(0) + initial == initial && initial + Zeros(0) == initial
           && [] + Zeros(|polynomial|) == Zeros(|polynomial|);
  }

  /** Dividing more of the stream. */
  lemma {:induction false} RestDivides(q: Bits, stream: Bits, polynomial: Bits, initial: Bits, r: Bits, more: Bits,
                                       whole: Bits)
    returns (q': Bits)
    requires Divides(q, stream, polynomial, initial, r) && |polynomial| > 0 && whole == stream + more
    ensures Divides(q', whole, polynomial, initial, Rest(r, more, polynomial))
    decreases |more|
  {
    if more == [] {
      q' := q;
      assert whole == stream;
    } else {
      var (front, d, most) := (more[..|more| - 1], more[|more| - 1], whole[..|whole| - 1]);
      Fronts(stream, more, whole);
      var q0 := RestDivides(q, stream, polynomial, initial, r, front, most);
      var mid := Rest(r, front, polynomial);
      NextDivides(q0, most, polynomial, initial, mid, d);
      q' := q0 + [mid[0] != d];
    }
  }

  lemma Fronts(a: Bits, b: Bits, both: Bits)
    requires both == a + b && b != []
    ensures both != [] && both[..|both| - 1] == a + b[..|b| - 1] && both == both[..|both| - 1] + [b[|b| - 1]]
  {
  }

  // ----- the loops of the source divide

  /** After k turns the k lowest bits of the byte are divided in, and the others are still to come. */
  lemma {:induction false} TurnsDivide(r: Bits, b: Bits, polynomial: Bits, k: nat)
    requires |r| == |polynomial| >= |b| >= k && |polynomial| > 0
    ensures Turns(Xor(r, Widen(b, |r|)), polynomial, k)
         == Xor(Rest(r, b[..k], polynomial), ShiftRight(Widen(b, |r|), k))
    decreases k
  {
    if k == 0 {
      assert ShiftRight(Widen(b, |r|), 0) == Widen(b, |r|);
    } else {
      TurnsDivide(r, b, polynomial, k - 1);
      assert b[..k][..k - 1] == b[..k - 1];
      TurnDivides(Rest(r, b[..k - 1], polynomial), Widen(b, |r|), polynomial, k - 1);
    }
  }

  lemma TurnDivides(s: Bits, wide: Bits, polynomial: Bits, k: nat)
    requires |s| == |wide| == |polynomial| && k < |s|
    ensures Turn(Xor(s, ShiftRight(wide, k)), polynomial) == Xor(Next(s, wide[k], polynomial), ShiftRight(wide, k + 1))
  {
    var (a, b) := (Turn(Xor(s, ShiftRight(wide, k)), polynomial),
      Xor(Next(s, wide[k], polynomial), ShiftRight(wide, k + 1)));
    assert Xor(s, ShiftRight(wide, k))[0] == (s[0] != wide[k]);
    forall i | 0 <= i < |s|
      ensures a[i] == b[i]
    {
    }
  }

  lemma AddByteDivides(r: Bits, b: Bits, polynomial: Bits)
    requires |r| == |polynomial| >= CHAR_BIT && IsByte(b)
    ensures AddByte(r, b, polynomial) == Rest(r, b, polynomial)
  {
    TurnsDivide(r, b, polynomial, CHAR_BIT);
    assert b[..CHAR_BIT] == b;
    assert ShiftRight(Widen(b, |r|), CHAR_BIT) == Zeros(|r|);
    assert Xor(Rest(r, b, polynomial), Zeros(|r|)) == Rest(r, b, polynomial);
  }

  lemma {:induction false} RemainderDivides(data: seq<Bits>, polynomial: Bits, initial: Bits) returns (q: Bits)
    requires |initial| == |polynomial| >= CHAR_BIT && AreBytes(data)
    ensures Divides(q, Stream(data), polynomial, initial, Remainder(data, polynomial, initial))
    decreases |data|
  {
    if data == [] {
      q := [];
      NothingDivides(polynomial, initial);
    } else {
      var n := |data| - 1;
      var r := Remainder(data[..n], polynomial, initial);
      var q0 := RemainderDivides(data[..n], polynomial, initial);
      AddByteDivides(r, data[n], polynomial);
      q := RestDivides(q0, Stream(data[..n]), polynomial, initial, r, data[n], Stream(data));
    }
  }

  // ----- there is one remainder

  lemma {:induction false} MulXor(a: Bits, b: Bits, g: Bits)
    requires |a| == |b| && g != []
    ensures Mul(Xor(a, b), g) == Xor(Mul(a, g), Mul(b, g))
    decreases |a|
  {
    if a != [] {
      var n := |a| - 1;
      MulXor(a[..n], b[..n], g);
      assert Xor(a, b)[..n] == Xor(a[..n], b[..n]);
      assert Xor(a, b)[n] == (a[n] != b[n]);
      MulXorStep(Mul(a[..n], g), Mul(b[..n], g), a[n], b[n], g, n);
    }
  }

  lemma MulXorStep(a: Bits, b: Bits, x: bool, y: bool, g: Bits, n: nat)
    requires |a| == |b| == n + |g| - 1 && g != []
    ensures Xor(Xor(a, b) + [false], Zeros(n) + Times(x != y, g))
         == Xor(Xor(a + [false], Zeros(n) + Times(x, g)), Xor(b + [false], Zeros(n) + Times(y, g)))
  {
  }

  lemma {:induction false} MulZeros(n: nat, g: Bits)
    requires g != []
    ensures Mul(Zeros(n), g) == Zeros(n + |g| - 1)
  {
    if n > 0 {
      MulZeros(n - 1, g);
      assert Zeros(n)[..n - 1] == Zeros(n - 1);
    }
  }

  /** A multiple of the divisor that is shorter than the divisor is nothing. */
  lemma {:induction false} ShortMultiple(q: Bits, polynomial: Bits)
    requires forall i | 0 <= i < |q| :: !Mul(q, Divisor(polynomial))[i]
    ensures q == Zeros(|q|)
    decreases |q|
  {
    if q != [] {
      var (n, g) := (|q| - 1, Divisor(polynomial));
      forall i | 0 <= i < n
        ensures !Mul(q[..n], g)[i]
      {
        assert Mul(q, g)[i] == (Mul(q[..n], g) + [false])[i];
      }
      ShortMultiple(q[..n], polynomial);
      MulZeros(n, g);
      assert !Mul(q, g)[n] && Mul(q, g)[n] == q[n];
    }
  }

  lemma XorCancels(a: Bits, b: Bits, c: Bits, d: Bits)
    requires |a| == |b| == |c| == |d| && Xor(a, c) == Xor(b, d)
    ensures Xor(a, b) == Xor(c, d)
  {
    forall i | 0 <= i < |a|
      ensures Xor(a, b)[i] == Xor(c, d)[i]
    {
      assert Xor(a, c)[i] == Xor(b, d)[i];
    }
  }

  lemma DivisionIsUnique(q: Bits, q': Bits, stream: Bits, polynomial: Bits, initial: Bits, r: Bits, r': Bits)
    requires Divides(q, stream, polynomial, initial, r) && Divides(q', stream, polynomial, initial, r')
    ensures r == r'
  {
    var (n, g) := (|stream|, Divisor(polynomial));
    var diff := Xor(q, q');
    XorCancels(Mul(q, g), Mul(q', g), Zeros(n) + r, Zeros(n) + r');
    MulXor(q, q', g);
    XorTails(Mul(diff, g), n, r, r');
    ShortMultiple(diff, polynomial);
    MulZeros(n, g);
  }

  lemma XorTails(m: Bits, n: nat, r: Bits, r': Bits)
    requires |r| == |r'| && m == Xor(Zeros(n) + r, Zeros(n) + r')
    ensures forall i | 0 <= i < n :: !m[i]
    ensures m == Zeros(n + |r|) ==> r == r'
  {
    if m == Zeros(n + |r|) {
      forall i | 0 <= i < |r|
        ensures r[i] == r'[i]
      {
        assert !m[n + i];
      }
    }
  }

  /** CalculateRemainder divides: the one remainder, for every data, polynomial and initial value. */
  lemma RemainderIff(data: seq<Bits>, polynomial: Bits, initial: Bits, r: Bits)
    requires |r| == |initial| == |polynomial| >= CHAR_BIT && AreBytes(data)
    ensures |Stream(data)| == CHAR_BIT * |data|
    ensures r == Remainder(data, polynomial, initial) <==> exists q :: Divides(q, Stream(data), polynomial, initial, r)
  {
    StreamLength(data);
    var q := RemainderDivides(data, polynomial, initial);
    forall q' | Divides(q', Stream(data), polynomial, initial, r)
      ensures r == Remainder(data, polynomial, initial)
    {
      DivisionIsUnique(q, q', Stream(data), polynomial, initial, Remainder(data, polynomial, initial), r);
    }
  }

  // ----- the whole CRC

  /** Bit i of the output: with reflected output that of the highest power comes first. */
  function Out(r: Bits, reflected: bool, i: nat): (b: bool)
    requires i < |r|
  {
    if reflected then r[i] else r[|r| - 1 - i]
  }

  /** A CRC is a remainder, in the order of the output, with the final exclusive or. */
  ghost predicate Holds(crc: Bits, p: Parameters, r: Bits) {
    && ParametersOk(p) && |crc| == |r| == |p.polynomial|
    && forall i | 0 <= i < |r| :: crc[i] == (Out(r, p.reflectOutput, i) != p.finalXor[i])
  }

  /** The coefficients of the polynomial, which the parameters list from the lowest power. */
  ghost predicate HighestFirst(polynomial: Bits, given: Bits) {
    |polynomial| == |given| && forall i | 0 <= i < |given| :: polynomial[i] == given[|given| - 1 - i]
  }

  /** A CRC is right exactly when it holds the remainder of the data's division by the polynomial. */
  lemma CalculateIff(data: seq<Bits>, p: Parameters, crc: Bits)
    requires ParametersOk(p) && AreBytes(data) && |crc| == |p.polynomial|
    ensures crc == Calculate(data, p)
       <==> exists q, polynomial, r :: HighestFirst(polynomial, p.polynomial) && Holds(crc, p, r)
                                       && Divides(q, Stream(data), polynomial, p.initial, r)
  {
    var g := Reflect(p.polynomial);
    var r := Remainder(data, g, p.initial);
    if crc == Calculate(data, p) {
      RemainderIff(data, g, p.initial, r);
      var q :| Divides(q, Stream(data), g, p.initial, r);
      HoldsFinal(crc, p, r);
      assert HighestFirst(g, p.polynomial) && Holds(crc, p, r);
    }
    forall q, polynomial, r' | HighestFirst(polynomial, p.polynomial) && Holds(crc, p, r')
                               && Divides(q, Stream(data), polynomial, p.initial, r')
      ensures crc == Calculate(data, p)
    {
      assert polynomial == g;
      RemainderIff(data, g, p.initial, r');
      HoldsFinal(crc, p, r');
    }
  }

  lemma HoldsFinal(crc: Bits, p: Parameters, r: Bits)
    requires ParametersOk(p) && |crc| == |r| == |p.polynomial|
    ensures Holds(crc, p, r) <==> crc == Finalize(r, p)
  {
    forall i | 0 <= i < |r|
      ensures Finalize(r, p)[i] == (Out(r, p.reflectOutput, i) != p.finalXor[i])
    {
    }
  }
}
