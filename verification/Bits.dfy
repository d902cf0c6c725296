/** Machine-word operations written out bit by bit, and the arithmetic they amount to. */
module Bits {

  function Pow2(n: nat): (r: nat)
    ensures r > 0
  {
    if n == 0 then 1 else 2 * Pow2(n - 1)
  }

  /** Bitwise `&` on unsigned words. */
  function And(a: nat, b: nat): (r: nat)
    ensures r <= a && r <= b
  {
    if a == 0 || b == 0 then 0 else (if a % 2 == 1 && b % 2 == 1 then 1 else 0) + 2 * And(a / 2, b / 2)
  }

  /** Bitwise `|` on unsigned words. */
  function Or(a: nat, b: nat): nat {
    if a == 0 then b
    else if b == 0 then a
    else (if a % 2 == 1 || b % 2 == 1 then 1 else 0) + 2 * Or(a / 2, b / 2)
  }

  /** `x << s` on a word of the given width: bits pushed past the top are lost. */
  function Shl(x: nat, width: nat, s: nat): nat {
    (x * Pow2(s)) % Pow2(width)
  }

  lemma {:induction false} Pow2Add(a: nat, b: nat)
    ensures Pow2(a + b) == Pow2(a) * Pow2(b)
  {
    if a > 0 {
      Pow2Add(a - 1, b);
    }
  }

  lemma {:induction false} Pow2Monotone(a: nat, b: nat)
    requires a <= b
    ensures Pow2(a) <= Pow2(b)
  {
    if a < b {
      Pow2Monotone(a, b - 1);
    }
  }

  /** Masking with 0..01..1 (k ones) keeps the remainder modulo 2^k. */
  lemma {:induction false} AndLowMask(x: nat, k: nat)
    ensures And(x, Pow2(k) - 1) == x % Pow2(k)
  {
    if k > 0 && x > 0 {
      var p := Pow2(k - 1);
      assert Pow2(k) == 2 * p;
      AndLowMask(x / 2, k - 1);
      ModDouble(x, p);
      AndOdd(x, p - 1);
    } else if x == 0 {
      SmallMod(0, Pow2(k));
    }
  }

  /** The lowest bit of a masked word is the lowest bit of the word when the mask is odd, */
  lemma AndOdd(x: nat, half: nat)
    ensures And(x, 2 * half + 1) == x % 2 + 2 * And(x / 2, half)
  {
    assert (2 * half + 1) % 2 == 1 && (2 * half + 1) / 2 == half;
  }

  /** and clear when the mask is even. */
  lemma AndEven(x: nat, half: nat)
    ensures And(x, 2 * half) == 2 * And(x / 2, half)
  {
    assert (2 * half) % 2 == 0 && (2 * half) / 2 == half;
  }

  lemma ModDouble(x: nat, p: nat)
    requires p > 0
    ensures x % (2 * p) == x % 2 + 2 * ((x / 2) % p)
    ensures x / (2 * p) == (x / 2) / p
  {
    var q, r := (x / 2) / p, (x / 2) % p;
    assert x / 2 == p * q + r;
    assert (2 * p) * q == 2 * (p * q);
    ModUnique(x, 2 * p, q, x % 2 + 2 * r);
  }

  lemma ModUnique(x: int, p: int, q: int, r: int)
    requires p > 0 && 0 <= r < p
    requires x == p * q + r
    ensures x % p == r && x / p == q
  {
    var q1, r1 := x / p, x % p;
    assert x == p * q1 + r1;
    if q1 < q {
      MulGap(p, q1, q);
      assert false;
    } else if q < q1 {
      MulGap(p, q, q1);
      assert false;
    }
  }

  lemma MulGap(p: int, a: int, b: int)
    requires p > 0 && a < b
    ensures p * a + p <= p * b
  {
    assert p * (a + 1) == p * a + p;
    assert p * (b - (a + 1)) >= 0;
    assert p * b == p * (a + 1) + p * (b - (a + 1));
  }

  /** Masking a w-bit word with 1..10..0 (k zeros) rounds it down to a multiple of 2^k. */
  lemma {:induction false} AndHighMask(x: nat, w: nat, k: nat)
    requires k <= w && x < Pow2(w)
    ensures Pow2(k) <= Pow2(w)
    ensures And(x, Pow2(w) - Pow2(k)) == x - x % Pow2(k)
  {
    Pow2Monotone(k, w);
    if k == 0 {
      AndFullMask(x, w);
    } else {
      HalfFits(x, Pow2(w), Pow2(w - 1));
      AndHighMask(x / 2, w - 1, k - 1);
      HighMaskGrows(x, Pow2(w - 1), Pow2(k - 1), Pow2(w), Pow2(k));
    }
  }

  lemma HalfFits(x: nat, top: nat, half: nat)
    requires x < top && top == 2 * half
    ensures x / 2 < half
  {
  }

  lemma HighMaskGrows(x: nat, halfTop: nat, halfLow: nat, top: nat, low: nat)
    requires 0 < halfLow <= halfTop && top == 2 * halfTop && low == 2 * halfLow
    requires And(x / 2, halfTop - halfLow) == x / 2 - (x / 2) % halfLow
    ensures And(x, top - low) == x - x % low
  {
    MaskGrows(x, halfTop - halfLow, halfLow, top - low, low);
  }

  lemma MaskGrows(x: nat, half: nat, low: nat, mask: nat, unit: nat)
    requires 0 < low && mask == 2 * half && unit == 2 * low
    requires And(x / 2, half) == x / 2 - (x / 2) % low
    ensures And(x, mask) == x - x % unit
  {
    MaskStep(x, half, low);
  }

  lemma AndFullMask(x: nat, w: nat)
    requires x < Pow2(w)
    ensures And(x, Pow2(w) - 1) == x
  {
    AndLowMask(x, w);
    SmallMod(x, Pow2(w));
  }

  lemma MaskStep(x: nat, half: nat, k: nat)
    requires 0 < k
    requires And(x / 2, half) == x / 2 - (x / 2) % k
    ensures And(x, 2 * half) == x - x % (2 * k)
  {
    AndEven(x, half);
    RoundDown(x, k);
  }

  lemma RoundDown(x: nat, p: nat)
    requires p > 0
    ensures x - x % (2 * p) == 2 * (x / 2 - (x / 2) % p)
  {
    ModDouble(x, p);
  }

  lemma SmallMod(x: nat, p: nat)
    requires x < p
    ensures x % p == x
  {
  }

  /** Setting one bit adds its weight exactly when the bit was clear. */
  lemma {:induction false} OrBit(x: nat, k: nat)
    ensures Or(x, Pow2(k)) == if (x / Pow2(k)) % 2 == 1 then x else x + Pow2(k)
  {
    if x == 0 {
      ModUnique(0, Pow2(k), 0, 0);
    } else if k > 0 {
      var p := Pow2(k - 1);
      assert Pow2(k) == 2 * p && (2 * p) % 2 == 0 && (2 * p) / 2 == p;
      OrBit(x / 2, k - 1);
      ModDouble(x, p);
    } else {
      assert Pow2(0) == 1;
      assert Or(x / 2, 0) == x / 2;
    }
  }
}
