/** Block alignment (utils::downAlign, utils::upAlign) for the 4 KiB device block. */
module Align {

  /** LOG_DEV_BLK_SIZE */
  const BLOCK: nat := 4096

  /** x is a whole number of laps of b bytes. */
  predicate Multiple(b: nat, x: nat)
    decreases x
  {
    x == 0 || (0 < b <= x && Multiple(b, x - b))
  }

  predicate Aligned(x: nat) {
    Multiple(BLOCK, x)
  }

  /** The largest block boundary at or below x. */
  function DownAlign(x: nat): (r: nat)
    ensures r <= x < r + BLOCK && Aligned(r)
    decreases x
  {
    if x < BLOCK then 0 else BLOCK + DownAlign(x - BLOCK)
  }

  /** The smallest block boundary at or above x. */
  function UpAlign(x: nat): (r: nat)
    ensures x <= r < x + BLOCK && Aligned(r)
  {
    DownAlign(x + BLOCK - 1)
  }

  // ----- the masks of the source

  /** x & y */
  function And(x: nat, y: nat): (r: nat) {
    if x == 0 || y == 0 then 0 else (x % 2) * (y % 2) + 2 * And(x / 2, y / 2)
  }

  function Pow2(k: nat): (r: nat)
    ensures r > 0
  {
    if k == 0 then 1 else 2 * Pow2(k - 1)
  }

  /** Reduction modulo a power of two, bit by bit. */
  lemma ModHalf(x: nat, p: nat)
    requires p > 0
    ensures x % (2 * p) == x % 2 + 2 * (x / 2 % p)
  {
    var q, r := x / 2 / p, x / 2 % p;
    assert x / 2 == q * p + r;
    assert x == q * (2 * p) + (2 * r + x % 2);
    DivModUnique(x, 2 * p, q, 2 * r + x % 2);
  }

  lemma {:induction false} LowMask(x: nat, k: nat)
    ensures And(x, Pow2(k) - 1) == x % Pow2(k)
    decreases k
  {
    if k > 0 {
      LowMask(x / 2, k - 1);
      ModHalf(x, Pow2(k - 1));
      assert (Pow2(k) - 1) / 2 == Pow2(k - 1) - 1;
      if x == 0 {
        DivModUnique(0, Pow2(k), 0, 0);
      }
    }
  }

  /** The complement of the low mask, in words of n bits. */
  lemma {:induction false} HighMask(x: nat, k: nat, n: nat)
    requires k <= n && x < Pow2(n) && Pow2(k) <= Pow2(n)
    ensures And(x, Pow2(n) - Pow2(k)) == x - x % Pow2(k)
    decreases k
  {
    if k == 0 {
      LowMask(x, n);
      DivModUnique(x, Pow2(n), 0, x);
    } else {
      HighMask(x / 2, k - 1, n - 1);
      ModHalf(x, Pow2(k - 1));
      AndEven(x, Pow2(n - 1) - Pow2(k - 1), Pow2(n) - Pow2(k));
    }
  }

  lemma AndEven(x: nat, m: nat, mask: nat)
    requires mask == 2 * m
    ensures And(x, mask) == 2 * And(x / 2, m)
  {
    assert mask / 2 == m && mask % 2 == 0;
  }

  /** What downAlign and upAlign compute on 64-bit words: x - (x & 4095) and (x + 4095) & ~4095. */
  lemma AlignIsMask(x: nat)
    requires x + BLOCK - 1 < Pow2(64)
    ensures DownAlign(x) == x - And(x, BLOCK - 1)
    ensures UpAlign(x) == And(x + BLOCK - 1, Pow2(64) - BLOCK)
  {
    DownIsMask(x);
    DownIsMask(x + BLOCK - 1);
    BlockIsPower();
    PowMonotone(12, 64);
    LowMask(x, 12);
    HighMask(x + BLOCK - 1, 12, 64);
  }

  lemma BlockIsPower()
    ensures Pow2(12) == BLOCK
  {
  }

  lemma {:induction false} PowMonotone(k: nat, n: nat)
    requires k <= n
    ensures Pow2(k) <= Pow2(n)
    decreases n
  {
    if k < n {
      PowMonotone(k, n - 1);
    }
  }

  lemma {:induction false} DownIsMask(x: nat)
    ensures DownAlign(x) == x - x % BLOCK
    decreases x
  {
    if x >= BLOCK {
      DownIsMask(x - BLOCK);
    }
  }

  lemma DownUnique(x: nat, a: nat)
    requires Aligned(a) && a <= x < a + BLOCK
    ensures DownAlign(x) == a
  {
    Gap(a, DownAlign(x));
    Gap(DownAlign(x), a);
  }

  lemma UpUnique(x: nat, a: nat)
    requires Aligned(a) && x <= a < x + BLOCK
    ensures UpAlign(x) == a
  {
    DownUnique(x + BLOCK - 1, a);
  }

  lemma Unaligned(x: nat)
    requires DownAlign(x) < x
    ensures x < UpAlign(x)
  {
    if UpAlign(x) == x {
      DownUnique(x, x);
    }
  }

  /** Distinct block boundaries are at least a block apart. */
  lemma Gap(a: nat, b: nat)
    requires Aligned(a) && Aligned(b)
    ensures a < b ==> a + BLOCK <= b
  {
    if a < b {
      NextMultiple(BLOCK, a, b);
    }
  }

  lemma AlignMonotone(x: nat, y: nat)
    requires x <= y
    ensures DownAlign(x) <= DownAlign(y) && UpAlign(x) <= UpAlign(y)
  {
    Gap(DownAlign(y), DownAlign(x));
    Gap(UpAlign(y), UpAlign(x));
  }

  /** Rounding up is rounding down plus a block, except on a boundary. */
  lemma UpFromDown(x: nat)
    ensures if UpAlign(x) == x then DownAlign(x) == x else UpAlign(x) == DownAlign(x) + BLOCK
  {
    Gap(DownAlign(x), UpAlign(x));
    if UpAlign(x) == x {
      DownUnique(x, x);
    } else {
      MultipleSum(BLOCK, DownAlign(x), BLOCK);
      Gap(DownAlign(x) + BLOCK, UpAlign(x));
      if DownAlign(x) == x {
        UpUnique(x, x);
      }
    }
  }

  lemma AlignShift(x: nat, m: nat)
    requires Aligned(m)
    ensures DownAlign(x + m) == DownAlign(x) + m
    ensures UpAlign(x + m) == UpAlign(x) + m
  {
    MultipleSum(BLOCK, DownAlign(x), m);
    MultipleSum(BLOCK, UpAlign(x), m);
    DownUnique(x + m, DownAlign(x) + m);
    UpUnique(x + m, UpAlign(x) + m);
  }

  /** A record that does not end inside the block it starts in reaches the next block boundary. */
  lemma SkipBlock(cursor: nat, req: nat)
    requires 0 < req < BLOCK && DownAlign(cursor) != DownAlign(cursor + req)
    ensures DownAlign(cursor) < cursor < UpAlign(cursor) <= cursor + req
  {
    var d := DownAlign(cursor);
    if cursor == d || cursor + req < d + BLOCK {
      DownUnique(cursor + req, d);
    }
    assert cursor < d + BLOCK <= cursor + req;
    MultipleSum(BLOCK, d, BLOCK);
    UpUnique(cursor, d + BLOCK);
  }

  lemma {:induction false} MultipleOfBlocks(b: nat, x: nat)
    requires Aligned(b) && Multiple(b, x)
    ensures Aligned(x)
    decreases x
  {
    if x > 0 {
      MultipleOfBlocks(b, x - b);
      MultipleSum(BLOCK, x - b, b);
    }
  }

  /** Two multiples of b that differ are at least b apart. */
  lemma {:induction false} NextMultiple(b: nat, x: nat, y: nat)
    requires Multiple(b, x) && Multiple(b, y) && x < y
    ensures x + b <= y
    decreases x
  {
    if x > 0 {
      NextMultiple(b, x - b, y - b);
    }
  }

  lemma {:induction false} MultipleDifference(b: nat, x: nat, y: nat)
    requires Multiple(b, x) && Multiple(b, y) && x <= y
    ensures Multiple(b, y - x)
    decreases x
  {
    if x > 0 {
      if y < b { assert false; }
      MultipleDifference(b, x - b, y - b);
    }
  }

  lemma {:induction false} MultipleSum(b: nat, x: nat, y: nat)
    requires Multiple(b, x) && Multiple(b, y)
    ensures Multiple(b, x + y)
    decreases y
  {
    if y > 0 {
      MultipleSum(b, x, y - b);
    }
  }

  /** The recursive notion of multiple is divisibility. */
  lemma {:induction false} MultipleIsDivisible(b: nat, x: nat)
    requires 0 < b
    ensures Multiple(b, x) <==> x % b == 0
    decreases x
  {
    if 0 < x < b {
      DivModUnique(x, b, 0, x);
    } else if b <= x {
      MultipleIsDivisible(b, x - b);
      var q, r := (x - b) / b, (x - b) % b;
      assert x == (q + 1) * b + r;
      DivModUnique(x, b, q + 1, r);
    }
  }

  /** Reduction modulo b of a position in the lap that starts at the multiple m. */
  lemma ModInLap(b: nat, m: nat, x: nat)
    requires 0 < b && Multiple(b, m) && m <= x < m + b
    ensures x % b == x - m
  {
    MultipleIsDivisible(b, m);
    assert x == (m / b) * b + (x - m);
    DivModUnique(x, b, m / b, x - m);
  }

  lemma MulMonotone(m: nat, n: nat, a: nat)
    requires m <= n
    ensures m * a <= n * a
  {
    assert n * a == m * a + (n - m) * a;
  }

  /** Quotient and remainder are unique. */
  lemma DivModUnique(x: nat, a: nat, q: nat, r: nat)
    requires 0 < a && x == q * a + r && r < a
    ensures x / a == q && x % a == r
  {
    var q' := x / a;
    assert q' * a <= x < q' * a + a;
    if q' > q {
      MulMonotone(q + 1, q', a);
    } else if q' < q {
      MulMonotone(q' + 1, q, a);
    }
  }
}
