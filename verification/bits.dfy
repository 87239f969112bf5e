/** Unsigned machine words as bounded naturals, and the shift and `|`
    operators the decoder uses on them, written arithmetically:
    `x << n` is `(x * Pow2(n)) % Pow2(32)`, `x >> n` is `x / Pow2(n)`, and
    `x | y` is the bitwise `Or` below. */
module Bits {

  type byte = x: int | 0 <= x < 0x100
  type u32 = x: int | 0 <= x < 0x1_0000_0000

  const WordModulus: nat := 0x1_0000_0000

  function Pow2(n: nat): (r: nat)
    ensures r >= 1
  {
    if n == 0 then 1 else 2 * Pow2(n - 1)
  }

  lemma {:induction false} Pow2Add(a: nat, b: nat)
    ensures Pow2(a + b) == Pow2(a) * Pow2(b)
    decreases b
  {
    if b > 0 {
      Pow2Add(a, b - 1);
      calc {
        Pow2(a + b);
        2 * Pow2(a + b - 1);
        2 * (Pow2(a) * Pow2(b - 1));
        Pow2(a) * (2 * Pow2(b - 1));
        Pow2(a) * Pow2(b);
      }
    }
  }

  /** Pow2Add with the sum named by the caller. */
  lemma Pow2Sum(a: nat, b: nat, ab: nat)
    requires ab == a + b
    ensures Pow2(ab) == Pow2(a) * Pow2(b)
  {
    Pow2Add(a, b);
  }

  lemma Pow2Le(a: nat, b: nat)
    requires a <= b
    ensures Pow2(a) <= Pow2(b)
  {
    Pow2Add(a, b - a);
  }

  lemma Pow2Bytes()
    ensures Pow2(8) == 0x100 && Pow2(16) == 0x1_0000 && Pow2(24) == 0x100_0000
  {
    assert Pow2(8) == 0x100;
    Pow2Add(8, 8);
    Pow2Add(16, 8);
  }

  lemma Pow2Word()
    ensures Pow2(32) == WordModulus
  {
    Pow2Bytes();
    Pow2Add(16, 16);
  }

  lemma MulMonotone(a: int, b: int, d: int)
    requires a <= b && d >= 0
    ensures a * d <= b * d
  {
    assert b * d - a * d == (b - a) * d;
  }

  lemma ScaleSum(v: int, hi: int, a: int, lo: int, b: int)
    requires v == hi * a + lo
    ensures v * b == hi * (a * b) + lo * b
  {
    Distrib(hi, a, lo, b);
  }

  /** Shifting out the top part of hi * a + lo by b bits, modulo a * b. */
  lemma ShiftArith(v: int, hi: int, lo: int, a: int, b: int, m: int)
    requires v == hi * a + lo && a * b == m && 0 <= lo < a && b > 0
    ensures (v * b) % m == lo * b
  {
    ScaleSum(v, hi, a, lo, b);
    MulBelow(lo, a, b);
    DivModUnique(v * b, m, hi, lo * b);
  }

  /** The slot of width w that x falls in, counting from start. */
  lemma Slot(x: int, start: int, w: int, count: int) returns (r: nat)
    requires w > 0 && start <= x < start + count * w
    ensures r < count && start + r * w <= x < start + (r + 1) * w
  {
    r := (x - start) / w;
    var m := (x - start) % w;
    assert x - start == r * w + m;
    Distrib(r, 1, 1, w);
    if r >= count {
      MulMonotone(count, r, w);
      assert false;
    }
  }

  lemma SlotBounds(first: int, r: int, w: int, start: int)
    requires first * w == start
    ensures (first + r) * w == start + r * w
    ensures (first + r + 1) * w == start + (r + 1) * w
  {
    Distrib(first, 1, r, w);
    Distrib(first, 1, r + 1, w);
  }

  lemma MulBelow(x: int, a: int, b: int)
    requires 0 <= x < a && b > 0
    ensures x * b < a * b
  {
    MulMonotone(x + 1, a, b);
    assert (x + 1) * b == x * b + b;
  }

  /** Euclidean division by a positive divisor is determined by its
      quotient and remainder. */
  lemma DivModUnique(x: int, d: int, q: int, r: int)
    requires d > 0 && 0 <= r < d && x == q * d + r
    ensures x / d == q && x % d == r
  {
    var q', r' := x / d, x % d;
    assert x == q' * d + r';
    if q' > q {
      assert (q + 1) * d == q * d + d;
      MulMonotone(q + 1, q', d);
      assert false;
    } else if q' < q {
      assert (q' + 1) * d == q' * d + d;
      MulMonotone(q' + 1, q, d);
      assert false;
    }
  }

  /** x lies in the c-th block of width w exactly when x / w is c. */
  lemma QuotientRange(x: nat, w: nat, c: nat)
    requires w > 0
    ensures c * w <= x < (c + 1) * w <==> x / w == c
  {
    assert (c + 1) * w == c * w + w;
    if c * w <= x < (c + 1) * w {
      DivModUnique(x, w, c, x - c * w);
    }
  }

  lemma DivDiv(x: nat, a: nat, b: nat)
    requires a > 0 && b > 0
    ensures x / a / b == x / (a * b)
  {
    var qa, ra := x / a, x % a;
    var qb, rb := qa / b, qa % b;
    var ab, r := a * b, rb * a + ra;
    DivDivParts(x, a, b, qa, ra, qb, rb, ab, r);
    DivModUnique(x, ab, qb, r);
  }

  /** x = qa*a + ra and qa = qb*b + rb give x = qb*(a*b) + (rb*a + ra),
      with the remainder below a*b. */
  lemma DivDivParts(x: int, a: int, b: int, qa: int, ra: int, qb: int, rb: int, ab: int, r: int)
    requires a > 0 && b > 0 && ab == a * b && r == rb * a + ra
    requires x == qa * a + ra && 0 <= ra < a && qa == qb * b + rb && 0 <= rb < b
    ensures x == qb * ab + r && 0 <= r < ab
  {
    Distrib(qb, b, rb, a);
    assert b * a == ab;
    MulMonotone(0, rb, a);
    MulMonotone(rb, b - 1, a);
    assert (b - 1) * a == ab - a;
  }

  /** `x | y` on non-negative integers, one bit at a time. */
  function Or(a: nat, b: nat): nat
    decreases a + b
  {
    if a == 0 && b == 0 then 0
    else 2 * Or(a / 2, b / 2) + (if a % 2 == 1 || b % 2 == 1 then 1 else 0)
  }

  lemma {:induction false} OrZero(a: nat)
    ensures Or(a, 0) == a && Or(0, a) == a
    decreases a
  {
    if a != 0 {
      OrZero(a / 2);
    }
  }

  lemma {:induction false} OrSelf(a: nat)
    ensures Or(a, a) == a
    decreases a
  {
    if a != 0 {
      OrSelf(a / 2);
    }
  }

  /** `|` acts separately on the bits above and below position k. */
  lemma {:induction false} OrSplit(a: nat, b: nat, a1: nat, a0: nat, b1: nat, b0: nat, k: nat)
    requires a0 < Pow2(k) && b0 < Pow2(k)
    requires a == a1 * Pow2(k) + a0 && b == b1 * Pow2(k) + b0
    ensures Or(a, b) == Or(a1, b1) * Pow2(k) + Or(a0, b0)
    decreases k
  {
    var p := Pow2(k);
    if k == 0 {
      assert a0 == 0 && b0 == 0;
    } else {
      var h := Pow2(k - 1);
      assert p == 2 * h;
      MulNat(a1, h);
      MulNat(b1, h);
      var ah, bh := a1 * h, b1 * h;
      MulDouble(a1, h);
      MulDouble(b1, h);
      OrStep(ah, a0, bh, b0);
      OrSplit(ah + a0 / 2, bh + b0 / 2, a1, a0 / 2, b1, b0 / 2, k - 1);
      MulDouble(Or(a1, b1), h);
      OrStep(0, a0, 0, b0);
    }
  }

  lemma MulDouble(x: int, h: int)
    ensures x * (2 * h) == 2 * (x * h)
  {
  }

  /** One step of `Or` on a pair whose upper parts are even. */
  lemma OrStep(ah: nat, a0: nat, bh: nat, b0: nat)
    ensures Or(2 * ah + a0, 2 * bh + b0)
         == 2 * Or(ah + a0 / 2, bh + b0 / 2) + (if a0 % 2 == 1 || b0 % 2 == 1 then 1 else 0)
  {
    var a, b := 2 * ah + a0, 2 * bh + b0;
    assert a / 2 == ah + a0 / 2 && a % 2 == a0 % 2;
    assert b / 2 == bh + b0 / 2 && b % 2 == b0 % 2;
    if a == 0 && b == 0 {
      assert ah + a0 / 2 == 0 && bh + b0 / 2 == 0;
    }
  }

  /** The refill step of the decoder: `hi` carries zeros in its low n bits,
      `lo` fits in a + n bits, and where they overlap (the a bits above the
      low n) they agree, so `hi | lo` is `hi` with its low n bits taken
      from `lo`. */
  lemma OrOverlap(hi: nat, lo: nat, x: nat, mid: nat, low: nat, a: nat, n: nat, an: nat)
    requires mid < Pow2(a) && low < Pow2(n) && an == a + n
    requires hi == (x * Pow2(a) + mid) * Pow2(n) && lo == mid * Pow2(n) + low
    ensures Or(hi, lo) == x * Pow2(an) + mid * Pow2(n) + low
  {
    MulNat(x, Pow2(a));
    var t := x * Pow2(a) + mid;
    OrKeepsHigh(hi, lo, t, x, mid, low, a, n);
    ShiftRegroup(Or(hi, lo), t, x, mid, low, a, n, an);
  }

  /** (x * 2^a + mid) * 2^n + low regrouped around 2^(a+n). */
  lemma ShiftRegroup(v: int, t: int, x: int, mid: int, low: int, a: nat, n: nat, an: nat)
    requires an == a + n && t == x * Pow2(a) + mid && v == t * Pow2(n) + low
    ensures v == x * Pow2(an) + mid * Pow2(n) + low
  {
    Pow2Sum(a, n, an);
    Regroup(v, t, Pow2(n), low, x, Pow2(a), mid, Pow2(an));
  }

  lemma Regroup(v: int, t: int, p: int, low: int, x: int, q: int, mid: int, qp: int)
    requires v == t * p + low && t == x * q + mid && qp == q * p
    ensures v == x * qp + mid * p + low
  {
    Distrib(x, q, mid, p);
  }

  /** A product of naturals is a natural; stated once so that callers do
      not need non-linear reasoning for it. */
  lemma MulNat(a: nat, b: nat)
    ensures a * b >= 0
  {
  }

  /** `hi | lo` when lo's upper part repeats the low bits of hi's. */
  lemma OrKeepsHigh(hi: nat, lo: nat, t: nat, x: nat, mid: nat, low: nat, a: nat, n: nat)
    requires mid < Pow2(a) && low < Pow2(n) && t == x * Pow2(a) + mid
    requires hi == t * Pow2(n) && lo == mid * Pow2(n) + low
    ensures Or(hi, lo) == t * Pow2(n) + low
  {
    OrSplit(t, mid, x, mid, 0, mid, a);
    OrZero(x);
    OrSelf(mid);
    OrSplit(hi, lo, t, 0, mid, low, n);
    OrZero(low);
  }

  lemma Distrib(x: int, q: int, y: int, p: int)
    ensures (x * q + y) * p == x * (q * p) + y * p
  {
  }

  /** `|` of two n-bit values is an n-bit value. */
  lemma {:induction false} OrBound(a: nat, b: nat, n: nat)
    requires a < Pow2(n) && b < Pow2(n)
    ensures Or(a, b) < Pow2(n)
    decreases n
  {
    if n > 0 && !(a == 0 && b == 0) {
      OrBound(a / 2, b / 2, n - 1);
    }
  }

  /** The quotient of x < a * b by a is below b. */
  lemma DivBelow(x: nat, a: nat, b: nat)
    requires a > 0 && x < a * b
    ensures x / a < b
  {
    var q := x / a;
    assert x == q * a + x % a;
    if q >= b {
      MulMonotone(b, q, a);
    }
  }

  /** A 32-bit word splits into a high part of 32 - k bits and k low bits. */
  lemma WordSplit(k: nat)
    requires k <= 32
    ensures Pow2(32 - k) * Pow2(k) == WordModulus
  {
    Pow2Add(32 - k, k);
    Pow2Word();
  }

  /** `w << n` on a 32-bit word, one place at a time: bits moved past the
      top are lost. */
  function Shl(w: u32, n: nat): u32
    decreases n
  {
    if n == 0 then w else Shl((2 * w) % WordModulus, n - 1)
  }

  /** `w >> n` on a 32-bit word, one place at a time. */
  function Shr(w: u32, n: nat): u32
    decreases n
  {
    if n == 0 then w else Shr(w / 2, n - 1)
  }

  lemma {:induction false} ShlIsMul(w: u32, n: nat)
    ensures Shl(w, n) == (w * Pow2(n)) % WordModulus
    decreases n
  {
    if n > 0 {
      var h := Pow2(n - 1);
      ShlIsMul((2 * w) % WordModulus, n - 1);
      ModMul(2 * w, h, WordModulus);
      TwiceAssoc(w, h, Pow2(n));
    }
  }

  lemma TwiceAssoc(w: int, h: int, p: int)
    requires p == 2 * h
    ensures (2 * w) * h == w * p
  {
  }

  lemma {:induction false} ShrIsDiv(w: u32, n: nat)
    ensures Shr(w, n) == w / Pow2(n)
    decreases n
  {
    if n > 0 {
      ShrIsDiv(w / 2, n - 1);
      DivDiv(w, 2, Pow2(n - 1));
    }
  }

  /** Shifting a word right by 32 places or more leaves nothing. */
  lemma ShrAll(w: u32, n: nat)
    requires n >= 32
    ensures Shr(w, n) == 0
  {
    ShrIsDiv(w, n);
    Pow2Le(32, n);
    Pow2Word();
    DivModUnique(w, Pow2(n), 0, w);
  }

  /** Reducing a factor modulo m first does not change a product modulo m. */
  lemma ModMul(a: nat, b: nat, m: nat)
    requires m > 0
    ensures ((a % m) * b) % m == (a * b) % m
  {
    var q, r := a / m, a % m;
    var q2, r2 := (r * b) / m, (r * b) % m;
    assert r * b == q2 * m + r2;
    assert a * b == (q * b + q2) * m + r2 by {
      assert a == q * m + r;
      Distrib(q, m, r, b);
      assert a * b == q * (m * b) + r * b;
      Distrib(q, b, q2, m);
    }
    DivModUnique(a * b, m, q * b + q2, r2);
  }
}
