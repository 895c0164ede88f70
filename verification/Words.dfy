/**
 * Machine words as bounded integers. Masks made of one run of ones are written with division and
 * remainder; bitwise operations on two variable words are defined bit by bit.
 */
module Words {

  datatype Option<+T> = None | Some(value: T)

  type U8 = x: int | 0 <= x < 0x100 witness 0
  type U16 = x: int | 0 <= x < 0x1_0000 witness 0
  type U32 = x: int | 0 <= x < 0x1_0000_0000 witness 0
  type U64 = x: int | 0 <= x < 0x1_0000_0000_0000_0000 witness 0

  /** A register number. */
  type RegIndex = x: int | 0 <= x < 32 witness 0

  /** Conversion to uint64_t and uint32_t: reduction modulo the word size. */
  function Wrap64(x: int): U64 { x % 0x1_0000_0000_0000_0000 }

  function Wrap32(x: int): U32 { x % 0x1_0000_0000 }

  /** The low 32 bits: what a TLB or a masked program counter sees of an address. */
  function Low32(x: U64): U32 { x % 0x1_0000_0000 }

  lemma LowOfLow(x: U64)
    ensures Low32(Low32(x)) == Low32(x)
  {
  }

  /** Reading a word as two's complement. */
  function Signed32(x: U32): int { if x < 0x8000_0000 then x else x - 0x1_0000_0000 }

  function Signed64(x: U64): int {
    if x < 0x8000_0000_0000_0000 then x else x - 0x1_0000_0000_0000_0000
  }

  function Signed16(x: int): int
    requires 0 <= x < 0x1_0000
  {
    if x < 0x8000 then x else x - 0x1_0000
  }

  function Signed8(x: U8): int { if x < 0x80 then x else x - 0x100 }

  /** A 32-bit result as it is written to a 64-bit register. */
  function Sext32(x: U32): U64 { Wrap64(Signed32(x)) }

  // ---------------------------------------------------------------- reduction with an explicit quotient

  lemma Wrap32Is(x: int, q: int, r: int)
    requires x == q * 0x1_0000_0000 + r && 0 <= r < 0x1_0000_0000
    ensures Wrap32(x) == r && x / 0x1_0000_0000 == q
  {
  }

  lemma Wrap64Is(x: int, q: int, r: int)
    requires x == q * 0x1_0000_0000_0000_0000 + r && 0 <= r < 0x1_0000_0000_0000_0000
    ensures Wrap64(x) == r && x / 0x1_0000_0000_0000_0000 == q
  {
  }

  lemma Wrap32Parts(x: int)
    ensures x == x / 0x1_0000_0000 * 0x1_0000_0000 + Wrap32(x)
  {
  }

  lemma Wrap64Parts(x: int)
    ensures x == x / 0x1_0000_0000_0000_0000 * 0x1_0000_0000_0000_0000 + Wrap64(x)
  {
  }

  /** Multiples of the word size do not matter. */
  lemma Wrap32Shift(x: int, k: int)
    ensures Wrap32(x + k * 0x1_0000_0000) == Wrap32(x)
  {
    Wrap32Parts(x);
    Wrap32Is(x + k * 0x1_0000_0000, x / 0x1_0000_0000 + k, Wrap32(x));
  }

  lemma Wrap64Shift(x: int, k: int)
    ensures Wrap64(x + k * 0x1_0000_0000_0000_0000) == Wrap64(x)
  {
    Wrap64Parts(x);
    Wrap64Is(x + k * 0x1_0000_0000_0000_0000, x / 0x1_0000_0000_0000_0000 + k, Wrap64(x));
  }

  /** A sign-extended word, by the sign. */
  lemma SextIs(x: U32)
    ensures Sext32(x) == if x < 0x8000_0000 then x else x + 0xFFFF_FFFF_0000_0000
  {
    if x < 0x8000_0000 {
      Wrap64Is(x, 0, x);
    } else {
      Wrap64Is(x - 0x1_0000_0000, -1, x + 0xFFFF_FFFF_0000_0000);
    }
  }

  predicate Bit(x: nat, k: nat) {
    if k == 0 then x % 2 == 1 else Bit(x / 2, k - 1)
  }

  function Pow2(k: nat): (p: nat)
    ensures p >= 1
  {
    if k == 0 then 1 else 2 * Pow2(k - 1)
  }

  function Shl(x: nat, k: nat): nat {
    if k == 0 then x else 2 * Shl(x, k - 1)
  }

  function And(x: nat, y: nat): (r: nat)
    ensures r <= x && r <= y
  {
    if x == 0 || y == 0 then 0 else (if x % 2 == 1 && y % 2 == 1 then 1 else 0) + 2 * And(x / 2, y / 2)
  }

  function Or(x: nat, y: nat): (r: nat)
    ensures x <= r <= x + y && y <= r
  {
    if x == 0 then y else if y == 0 then x
    else (if x % 2 == 1 || y % 2 == 1 then 1 else 0) + 2 * Or(x / 2, y / 2)
  }

  function Xor(x: nat, y: nat): (r: nat)
    ensures r <= x + y
  {
    if x == 0 then y else if y == 0 then x
    else (if x % 2 != y % 2 then 1 else 0) + 2 * Xor(x / 2, y / 2)
  }

  // ---------------------------------------------------------------- laws of the bitwise operations

  lemma AndStep(x: nat, y: nat)
    ensures And(x, y) == And(x / 2, y / 2) * 2 + (if x % 2 == 1 && y % 2 == 1 then 1 else 0)
  {
  }

  lemma OrStep(x: nat, y: nat)
    ensures Or(x, y) == Or(x / 2, y / 2) * 2 + (if x % 2 == 1 || y % 2 == 1 then 1 else 0)
  {
  }

  lemma XorStep(x: nat, y: nat)
    ensures Xor(x, y) == Xor(x / 2, y / 2) * 2 + (if x % 2 != y % 2 then 1 else 0)
  {
  }

  /** Both operations work bit by bit. */
  lemma {:induction false} BitOfAnd(x: nat, y: nat, k: nat)
    ensures Bit(And(x, y), k) <==> Bit(x, k) && Bit(y, k)
  {
    AndStep(x, y);
    hide And;
    if k > 0 { BitOfAnd(x / 2, y / 2, k - 1); }
  }

  lemma {:induction false} BitOfXor(x: nat, y: nat, k: nat)
    ensures Bit(Xor(x, y), k) <==> Bit(x, k) != Bit(y, k)
  {
    XorStep(x, y);
    hide Xor;
    if k > 0 { BitOfXor(x / 2, y / 2, k - 1); }
  }

  lemma {:induction false} OrBelow(x: nat, y: nat, k: nat)
    requires x < Pow2(k) && y < Pow2(k)
    ensures Or(x, y) < Pow2(k)
  {
    OrStep(x, y);
    hide Or;
    if k > 0 { OrBelow(x / 2, y / 2, k - 1); }
  }

  lemma {:induction false} XorBelow(x: nat, y: nat, k: nat)
    requires x < Pow2(k) && y < Pow2(k)
    ensures Xor(x, y) < Pow2(k)
  {
    XorStep(x, y);
    hide Xor;
    if k > 0 { XorBelow(x / 2, y / 2, k - 1); }
  }

  lemma WordSizes()
    ensures Pow2(32) == 0x1_0000_0000 && Pow2(64) == 0x1_0000_0000_0000_0000
  {
    assert Pow2(8) == 0x100;
    assert Pow2(16) == 0x1_0000;
    assert Pow2(24) == 0x100_0000;
    assert Pow2(32) == 0x1_0000_0000;
    assert Pow2(40) == 0x100_0000_0000;
    assert Pow2(48) == 0x1_0000_0000_0000;
    assert Pow2(56) == 0x100_0000_0000_0000;
  }

  function Or64(x: U64, y: U64): U64 {
    WordSizes();
    OrBelow(x, y, 64);
    Or(x, y)
  }

  function Xor64(x: U64, y: U64): U64 {
    WordSizes();
    XorBelow(x, y, 64);
    Xor(x, y)
  }

  /** A page number and a page offset are handled separately by AND and by OR. */
  lemma AndSplit(x: nat, y: nat)
    ensures And(x, y) == And(x / 4096, y / 4096) * 4096 + And(x % 4096, y % 4096)
  {
    hide And;
    PageSize(x / 4096);
    PageSize(y / 4096);
    PageSize(And(x / 4096, y / 4096));
    AndPack(x / 4096, x % 4096, y / 4096, y % 4096, 12);
  }

  lemma OrSplit(x: nat, y: nat)
    ensures Or(x, y) == Or(x / 4096, y / 4096) * 4096 + Or(x % 4096, y % 4096)
  {
    hide Or;
    PageSize(x / 4096);
    PageSize(y / 4096);
    PageSize(Or(x / 4096, y / 4096));
    OrPack(x / 4096, x % 4096, y / 4096, y % 4096, 12);
  }

  lemma PackedHalves(q: nat, r: nat, k: nat)
    requires k > 0
    ensures (Shl(q, k) + r) / 2 == Shl(q, k - 1) + r / 2 && (Shl(q, k) + r) % 2 == r % 2
    ensures Shl(q, k) == 2 * Shl(q, k - 1)
  {
    Halves(Shl(q, k - 1), r);
  }

  lemma ShlNone(q: nat)
    ensures Shl(q, 0) == q && Pow2(0) == 1
  {
  }

  lemma {:induction false} AndPack(q1: nat, r1: nat, q2: nat, r2: nat, k: nat)
    requires r1 < Pow2(k) && r2 < Pow2(k)
    ensures And(Shl(q1, k) + r1, Shl(q2, k) + r2) == Shl(And(q1, q2), k) + And(r1, r2)
  {
    AndStep(r1, r2);
    hide And, Shl;
    if k > 0 {
      AndPack(q1, r1 / 2, q2, r2 / 2, k - 1);
      PackedHalves(q1, r1, k);
      PackedHalves(q2, r2, k);
      PackedHalves(And(q1, q2), 0, k);
      AndStep(Shl(q1, k) + r1, Shl(q2, k) + r2);
    } else {
      ShlNone(q1);
      ShlNone(q2);
      ShlNone(And(q1, q2));
    }
  }

  lemma {:induction false} OrPack(q1: nat, r1: nat, q2: nat, r2: nat, k: nat)
    requires r1 < Pow2(k) && r2 < Pow2(k)
    ensures Or(Shl(q1, k) + r1, Shl(q2, k) + r2) == Shl(Or(q1, q2), k) + Or(r1, r2)
  {
    OrStep(r1, r2);
    hide Or, Shl;
    if k > 0 {
      OrPack(q1, r1 / 2, q2, r2 / 2, k - 1);
      PackedHalves(q1, r1, k);
      PackedHalves(q2, r2, k);
      PackedHalves(Or(q1, q2), 0, k);
      OrStep(Shl(q1, k) + r1, Shl(q2, k) + r2);
    } else {
      ShlNone(q1);
      ShlNone(q2);
      ShlNone(Or(q1, q2));
    }
  }

  lemma {:induction false} ShlIsProduct(q: nat, k: nat)
    ensures Shl(q, k) == q * Pow2(k)
  {
    if k > 0 {
      ShlIsProduct(q, k - 1);
      assert q * Pow2(k) == 2 * (q * Pow2(k - 1));
    }
  }

  lemma Halves(q: nat, r: nat)
    ensures (2 * q + r) / 2 == q + r / 2 && (2 * q + r) % 2 == r % 2
  {
  }

  lemma PageSize(q: nat)
    ensures Pow2(12) == 4096 && Shl(q, 12) == q * 4096
  {
    assert Pow2(6) == 64;
    ShlIsProduct(q, 12);
  }

  lemma OnesStep(k: nat)
    requires k > 0
    ensures (Pow2(k) - 1) / 2 == Pow2(k - 1) - 1 && (Pow2(k) - 1) % 2 == 1 && Pow2(k) == 2 * Pow2(k - 1)
  {
    OddHalf(Pow2(k - 1));
  }

  lemma OddHalf(m: nat)
    requires m > 0
    ensures (2 * m - 1) / 2 == m - 1 && (2 * m - 1) % 2 == 1
  {
  }

  lemma {:induction false} AndOnes(x: nat, k: nat)
    requires x < Pow2(k)
    ensures And(x, Pow2(k) - 1) == x
  {
    AndStep(x, Pow2(k) - 1);
    hide And, Pow2;
    if k > 0 {
      OnesStep(k);
      AndOnes(x / 2, k - 1);
    } else {
      ShlNone(0);
    }
  }

  lemma AndOffset(x: nat)
    requires x < 4096
    ensures And(x, 4095) == x
  {
    PageSize(0);
    AndOnes(x, 12);
  }
}
