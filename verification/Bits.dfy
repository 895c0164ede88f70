/** Division by powers of two, masks and shifts, in terms of the bits of a word. */
module Bits {
  import opened Words

  // ---------------------------------------------------------------- quotients and remainders

  lemma NaturalDivision(x: nat, y: nat)
    requires y > 0
    ensures x == x / y * y + x % y && 0 <= x % y < y && 0 <= x / y <= x
    ensures x / y == x ==> x == 0 || y == 1
  {
    ProductGrows(x / y, y);
  }

  lemma {:induction false} ProductGrows(q: nat, y: nat)
    requires y > 0
    ensures q * y >= q && (y > 1 && q > 0 ==> q * y > q)
  {
    if y > 1 {
      ProductGrows(q, y - 1);
      assert q * y == q * (y - 1) + q;
    }
  }

  lemma DivMod(v: nat, m: nat)
    requires m > 0
    ensures v % (256 * m) == v / 256 % m * 256 + v % 256
  {
    var q, r := v / 256 / m, v / 256 % m;
    assert v == 256 * (q * m + r) + v % 256;
    assert 256 * (q * m + r) == q * (256 * m) + r * 256;
    RemainderIs(v, 256 * m, q, r * 256 + v % 256);
  }

  lemma RemainderIs(v: nat, m: nat, q: nat, r: nat)
    requires m > 0 && v == q * m + r && r < m
    ensures v % m == r
  {
    NaturalDivision(v, m);
    TwoQuotients(m, v / m, v % m, q, r);
  }

  lemma TwoQuotients(m: nat, q1: nat, r1: nat, q2: nat, r2: nat)
    requires q1 * m + r1 == q2 * m + r2 && r1 < m && r2 < m
    ensures r1 == r2
  {
    Spread(m, q1, q2);
    Spread(m, q2, q1);
  }

  lemma Spread(m: nat, x: nat, y: nat)
    ensures x > y ==> x * m >= y * m + m
  {
    if x > y {
      ProductGrows(m, x - y);
      assert x * m == y * m + m * (x - y);
    }
  }

  lemma QuotientIs(v: nat, m: nat, q: nat, r: nat)
    requires m > 0 && v == q * m + r && r < m
    ensures v / m == q && v % m == r
  {
    NaturalDivision(v, m);
    TwoQuotients(m, v / m, v % m, q, r);
    Spread(m, v / m, q);
    Spread(m, q, v / m);
  }

  lemma Regroup(h: nat, r: nat, s: nat, a: nat, b: nat)
    ensures (h * b + r) * a + s == h * (a * b) + (r * a + s)
  {
    assert (h * b + r) * a == h * b * a + r * a;
    assert h * b * a == h * (a * b);
  }

  lemma DivTwice(x: nat, q: nat, a: nat, b: nat, h: nat, r: nat, s: nat)
    requires q == h * b + r && x == q * a + s && r < b && s < a
    ensures a * b > 0 && x / (a * b) == h
  {
    ProductGrows(a, b);
    Spread(a, b, r);
    Regroup(h, r, s, a, b);
    QuotientIs(x, a * b, h, r * a + s);
  }

  lemma DivDiv(x: nat, a: nat, b: nat)
    requires a > 0 && b > 0
    ensures a * b > 0 && x / a / b == x / (a * b)
  {
    NaturalDivision(x, a);
    NaturalDivision(x / a, b);
    DivTwice(x, x / a, a, b, x / a / b, x / a % b, x % a);
  }

  /** The bits below bit k, and those from bit k on. */
  function Low(x: nat, k: nat): nat { x % Pow2(k) }

  function High(x: nat, k: nat): nat {
    NaturalDivision(x, Pow2(k));
    x / Pow2(k)
  }

  /** Dividing by a power of two, one bit at a time. */
  lemma DivStep(x: nat, k: nat)
    requires k > 0
    ensures High(x, k) == High(x / 2, k - 1) && Low(x, k) == Low(x / 2, k - 1) * 2 + x % 2
  {
    var m, h := Pow2(k - 1), x / 2;
    NaturalDivision(h, m);
    assert h / m * (2 * m) == 2 * (h / m * m);
    QuotientIs(x, 2 * m, h / m, h % m * 2 + x % 2);
  }

  lemma DivNone(x: nat)
    ensures High(x, 0) == x && Low(x, 0) == 0 && Pow2(0) == 1
  {
  }

  lemma DivParts(x: nat, k: nat)
    ensures x == High(x, k) * Pow2(k) + Low(x, k) && Low(x, k) < Pow2(k)
  {
    NaturalDivision(x, Pow2(k));
  }

  lemma PartsAre(q: nat, r: nat, k: nat)
    requires r < Pow2(k)
    ensures High(q * Pow2(k) + r, k) == q && Low(q * Pow2(k) + r, k) == r
  {
    QuotientIs(q * Pow2(k) + r, Pow2(k), q, r);
  }

  /** Bit k is the parity of the quotient by 2^k. */
  lemma {:induction false} BitIs(x: nat, k: nat)
    ensures Bit(x, k) <==> High(x, k) % 2 == 1
  {
    if k == 0 {
      DivNone(x);
    } else {
      DivStep(x, k);
      hide High;
      BitIs(x / 2, k - 1);
    }
  }

  /** The same for a power that is written out. */
  lemma BitAt(x: nat, k: nat, m: nat)
    requires m == Pow2(k)
    ensures Bit(x, k) <==> x / m % 2 == 1
  {
    BitIs(x, k);
    hide Bit, Pow2;
  }

  // ---------------------------------------------------------------- masks

  lemma {:induction false} AndOfOnes(x: nat, k: nat)
    ensures And(x, Pow2(k) - 1) == Low(x, k)
    decreases k
  {
    hide *;
    if k > 0 {
      OnesStep(k);
      AndStep(x, Pow2(k) - 1);
      DivStep(x, k);
      AndOfOnes(x / 2, k - 1);
    } else {
      DivNone(x);
      AndOfZero(x);
    }
  }

  lemma AndOfZero(x: nat)
    ensures And(x, 0) == 0 && And(0, x) == 0
  {
  }

  lemma {:induction false} Pow2Grows(k: nat, n: nat)
    requires k <= n
    ensures Pow2(k) <= Pow2(n)
    decreases n
  {
    if k < n { Pow2Grows(k, n - 1); }
  }

  /** A mask of ones from bit k to bit n - 1. */
  lemma {:induction false} AndOfMask(x: nat, k: nat, n: nat)
    requires k <= n && Pow2(k) <= Pow2(n)
    ensures And(x, Pow2(n) - Pow2(k)) == Low(x, n) - Low(x, k)
    decreases k
  {
    hide And, Pow2, Low;
    if k == 0 {
      AndOfOnes(x, n);
      DivNone(x);
    } else {
      Pow2Grows(k - 1, n - 1);
      AndStep(x, Pow2(n) - Pow2(k));
      MaskStep(k, n);
      DivStep(x, k);
      DivStep(x, n);
      AndOfMask(x / 2, k - 1, n - 1);
    }
  }

  lemma MaskStep(k: nat, n: nat)
    requires 0 < k <= n && Pow2(k - 1) <= Pow2(n - 1)
    ensures Pow2(n) - Pow2(k) >= 0
    ensures (Pow2(n) - Pow2(k)) / 2 == Pow2(n - 1) - Pow2(k - 1) && (Pow2(n) - Pow2(k)) % 2 == 0
  {
  }

  /** A single bit. */
  lemma {:induction false} AndOfBit(x: nat, k: nat)
    ensures And(x, Pow2(k)) == if Bit(x, k) then Pow2(k) else 0
  {
    AndStep(x, Pow2(k));
    if k == 0 {
      AndOfZero(x / 2);
      hide And;
    } else {
      hide And;
      AndOfBit(x / 2, k - 1);
    }
  }

  lemma {:induction false} PowAdd(a: nat, b: nat)
    ensures Pow2(a + b) == Pow2(a) * Pow2(b)
    decreases a
  {
    if a == 0 {
      DivNone(0);
    } else {
      PowAdd(a - 1, b);
      assert Pow2(a + b) == 2 * Pow2(a + b - 1);
      assert 2 * (Pow2(a - 1) * Pow2(b)) == 2 * Pow2(a - 1) * Pow2(b);
    }
  }

  /** Fewer low bits of the low bits. */
  lemma {:induction false} LowOfFewer(x: nat, k: nat, n: nat)
    requires k <= n
    ensures Low(Low(x, n), k) == Low(x, k)
    decreases k
  {
    hide Low;
    if k == 0 {
      DivNone(x);
      DivNone(Low(x, n));
    } else {
      DivStep(x, n);
      DivStep(x, k);
      DivStep(Low(x, n), k);
      Halves(Low(x / 2, n - 1), x % 2);
      LowOfFewer(x / 2, k - 1, n - 1);
    }
  }

  lemma LowOfSmall(x: nat, k: nat)
    requires x < Pow2(k)
    ensures Low(x, k) == x && High(x, k) == 0
  {
    PartsAre(0, x, k);
  }

  /** OR of two numbers without a bit in common. */
  lemma OrOfParts(q: nat, r: nat, k: nat)
    requires r < Pow2(k)
    ensures Or(q * Pow2(k), r) == q * Pow2(k) + r
  {
    ShlIsProduct(q, k);
    ShlIsProduct(0, k);
    OrPack(q, 0, 0, r, k);
    OrOfZero(q);
    OrOfZero(r);
    hide Or, Shl, Pow2;
  }

  lemma OrOfZero(x: nat)
    ensures Or(x, 0) == x && Or(0, x) == x
  {
  }

  // ---------------------------------------------------------------- single bits

  /** The bits of a number put together from two parts. */
  lemma {:induction false} BitOfParts(q: nat, r: nat, n: nat, k: nat)
    requires r < Pow2(n)
    ensures Bit(q * Pow2(n) + r, k) <==> if k < n then Bit(r, k) else Bit(q, k - n)
    decreases n
  {
    if n > 0 {
      Halves(q * Pow2(n - 1), r);
      assert q * Pow2(n) == 2 * (q * Pow2(n - 1));
      if k > 0 {
        hide Pow2;
        BitOfParts(q, r / 2, n - 1, k - 1);
      }
    }
  }

  lemma BitOfLow(x: nat, n: nat, k: nat)
    ensures Bit(Low(x, n), k) <==> k < n && Bit(x, k)
  {
    DivParts(x, n);
    BitOfParts(High(x, n), Low(x, n), n, k);
    BitOfParts(0, Low(x, n), n, k);
    NoBit(k - n);
    hide Low, High, Bit, Pow2;
  }

  lemma BitOfHigh(x: nat, n: nat, k: nat)
    ensures Bit(High(x, n), k) <==> Bit(x, k + n)
  {
    DivParts(x, n);
    BitOfParts(High(x, n), Low(x, n), n, k + n);
    hide Low, High, Bit, Pow2;
  }

  lemma {:induction false} NoBit(k: int)
    ensures k >= 0 ==> !Bit(0, k)
    decreases k
  {
    if k > 0 { NoBit(k - 1); }
  }

  lemma {:induction false} BitOfOnes(n: nat, k: nat)
    ensures Bit(Pow2(n) - 1, k) <==> k < n
    decreases n
  {
    if n == 0 {
      NoBit(k);
      DivNone(0);
    } else {
      OnesStep(n);
      if k > 0 { BitOfOnes(n - 1, k - 1); }
    }
  }

  lemma {:induction false} BitOfOr(x: nat, y: nat, k: nat)
    ensures Bit(Or(x, y), k) <==> Bit(x, k) || Bit(y, k)
  {
    OrStep(x, y);
    hide Or;
    if k > 0 { BitOfOr(x / 2, y / 2, k - 1); }
  }

  /** All ones less x: every bit below n is flipped. */
  lemma {:induction false} BitOfNot(x: nat, n: nat, k: nat)
    requires x < Pow2(n) && k < n
    ensures Bit(Pow2(n) - 1 - x, k) <==> !Bit(x, k)
    decreases n
  {
    OnesStep(n);
    FlipStep(x, Pow2(n - 1));
    if k > 0 { BitOfNot(x / 2, n - 1, k - 1); }
  }

  lemma FlipStep(x: nat, m: nat)
    requires x < 2 * m
    ensures (2 * m - 1 - x) / 2 == m - 1 - x / 2 && (2 * m - 1 - x) % 2 == 1 - x % 2
  {
  }

  /** The bits below n determine a number below 2^n. */
  lemma {:induction false} SameBits(x: nat, y: nat, n: nat)
    requires x < Pow2(n) && y < Pow2(n) && forall k: nat :: k < n ==> (Bit(x, k) <==> Bit(y, k))
    ensures x == y
    decreases n
  {
    if n > 0 {
      assert Bit(x, 0) <==> Bit(y, 0);
      forall k: nat | k < n - 1 ensures Bit(x / 2, k) <==> Bit(y / 2, k) {
        assert Bit(x, k + 1) <==> Bit(y, k + 1);
      }
      SameBits(x / 2, y / 2, n - 1);
    }
  }

  // ---------------------------------------------------------------- shifts of words

  lemma LowIsWrap(x: nat)
    ensures Low(x, 32) == Wrap32(x) && Low(x, 64) == Wrap64(x)
  {
    WordSizes();
    hide Pow2;
  }

  /** A sign-extended word repeats its sign bit. */
  lemma BitOfSext(x: U32, k: nat)
    requires k < 64
    ensures Bit(Sext32(x), k) <==> Bit(x, if k < 32 then k else 31)
  {
    SextIs(x);
    SignBit32(x);
    WordSizes();
    BitOfParts(if x < 0x8000_0000 then 0 else 0xFFFF_FFFF, x, 32, k);
    if k >= 32 { BitOfOnes(32, k - 32); }
    NoBit(k - 32);
    hide Bit, Pow2, Sext32;
  }

  lemma SignBit32(x: U32)
    ensures Bit(x, 31) <==> x >= 0x8000_0000
  {
    WordSizes();
    assert Pow2(32) == 2 * Pow2(31);
    BitAt(x, 31, 0x8000_0000);
    hide Bit, Pow2;
  }
}
