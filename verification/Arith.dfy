/** Bounded arithmetic of the ALU: overflow tests, HI/LO products and quotients (src/mips_base.cpp). */
module Arith {
  import opened Words
  import opened Bits

  datatype HiLo = HiLo(hi: U64, lo: U64)

  // ---------------------------------------------------------------- overflow

  predicate OverflowAdd32(result: U32, lhs: U32, rhs: U32) {
    Bit(And(Xor(lhs, result), Xor(rhs, result)), 31)
  }

  predicate OverflowAdd64(result: U64, lhs: U64, rhs: U64) {
    Bit(And(Xor(lhs, result), Xor(rhs, result)), 63)
  }

  predicate OverflowSub32(result: U32, lhs: U32, rhs: U32) {
    Bit(And(Xor(lhs, rhs), Xor(lhs, result)), 31)
  }

  predicate OverflowSub64(result: U64, lhs: U64, rhs: U64) {
    Bit(And(Xor(lhs, rhs), Xor(lhs, result)), 63)
  }

  predicate Fits32(x: int) { -0x8000_0000 <= x < 0x8000_0000 }

  predicate Fits64(x: int) { -0x8000_0000_0000_0000 <= x < 0x8000_0000_0000_0000 }

  predicate Negative64(x: U64) { x >= 0x8000_0000_0000_0000 }

  lemma {:induction false} TopBit(x: nat, k: nat)
    requires x < Pow2(k + 1)
    ensures Bit(x, k) <==> x >= Pow2(k)
  {
    if k > 0 { TopBit(x / 2, k - 1); }
  }

  lemma SignBits(x: nat)
    ensures x < 0x1_0000_0000 ==> (Bit(x, 31) <==> x >= 0x8000_0000)
    ensures x < 0x1_0000_0000_0000_0000 ==> (Bit(x, 63) <==> x >= 0x8000_0000_0000_0000)
  {
    WordSizes();
    assert Pow2(31) == 0x8000_0000;
    assert Pow2(63) == 0x8000_0000_0000_0000;
    if x < Pow2(32) { TopBit(x, 31); }
    if x < Pow2(64) { TopBit(x, 63); }
  }

  /** The test is one comparison of signs per operand. */
  lemma SignTest(x: nat, y: nat, u: nat, v: nat, k: nat)
    ensures Bit(And(Xor(x, y), Xor(u, v)), k) <==> Bit(x, k) != Bit(y, k) && Bit(u, k) != Bit(v, k)
  {
    BitOfAnd(Xor(x, y), Xor(u, v), k);
    BitOfXor(x, y, k);
    BitOfXor(u, v, k);
  }

  /** ADD, ADDI, SUB, DADD, DADDI and DSUB trap exactly when the signed result leaves the word; else they write it. */
  lemma AddOverflowIsExact32(lhs: U32, rhs: U32)
    ensures OverflowAdd32(Wrap32(lhs + rhs), lhs, rhs) <==> !Fits32(Signed32(lhs) + Signed32(rhs))
    ensures Fits32(Signed32(lhs) + Signed32(rhs)) ==> Signed32(Wrap32(lhs + rhs)) == Signed32(lhs) + Signed32(rhs)
  {
    var result := Wrap32(lhs + rhs);
    SignTest(lhs, result, rhs, result, 31);
    SignBits(lhs);
    SignBits(rhs);
    SignBits(result);
    SignsOfAdd32(lhs, rhs);
    hide Bit, And, Xor, Wrap32, Signed32, Fits32;
  }

  lemma SignsOfAdd32(lhs: U32, rhs: U32)
    ensures var result := Wrap32(lhs + rhs);
            (lhs >= 0x8000_0000) != (result >= 0x8000_0000) && (rhs >= 0x8000_0000) != (result >= 0x8000_0000)
            <==> !Fits32(Signed32(lhs) + Signed32(rhs))
    ensures Fits32(Signed32(lhs) + Signed32(rhs)) ==> Signed32(Wrap32(lhs + rhs)) == Signed32(lhs) + Signed32(rhs)
  {
  }

  lemma SubOverflowIsExact32(lhs: U32, rhs: U32)
    ensures OverflowSub32(Wrap32(lhs - rhs), lhs, rhs) <==> !Fits32(Signed32(lhs) - Signed32(rhs))
    ensures Fits32(Signed32(lhs) - Signed32(rhs)) ==> Signed32(Wrap32(lhs - rhs)) == Signed32(lhs) - Signed32(rhs)
  {
    var result := Wrap32(lhs - rhs);
    SignTest(lhs, rhs, lhs, result, 31);
    SignBits(lhs);
    SignBits(rhs);
    SignBits(result);
    SignsOfSub32(lhs, rhs);
    hide Bit, And, Xor, Wrap32, Signed32, Fits32;
  }

  lemma SignsOfSub32(lhs: U32, rhs: U32)
    ensures var result := Wrap32(lhs - rhs);
            (lhs >= 0x8000_0000) != (rhs >= 0x8000_0000) && (lhs >= 0x8000_0000) != (result >= 0x8000_0000)
            <==> !Fits32(Signed32(lhs) - Signed32(rhs))
    ensures Fits32(Signed32(lhs) - Signed32(rhs)) ==> Signed32(Wrap32(lhs - rhs)) == Signed32(lhs) - Signed32(rhs)
  {
  }

  lemma AddOverflowIsExact64(lhs: U64, rhs: U64)
    ensures OverflowAdd64(Wrap64(lhs + rhs), lhs, rhs) <==> !Fits64(Signed64(lhs) + Signed64(rhs))
    ensures Fits64(Signed64(lhs) + Signed64(rhs)) ==> Signed64(Wrap64(lhs + rhs)) == Signed64(lhs) + Signed64(rhs)
  {
    var result := Wrap64(lhs + rhs);
    SignTest(lhs, result, rhs, result, 63);
    SignBits(lhs);
    SignBits(rhs);
    SignBits(result);
    SignsOfAdd64(lhs, rhs);
    hide Bit, And, Xor, Wrap64, Signed64, Fits64;
  }

  lemma SignsOfAdd64(lhs: U64, rhs: U64)
    ensures var result := Wrap64(lhs + rhs);
            Negative64(lhs) != Negative64(result) && Negative64(rhs) != Negative64(result)
            <==> !Fits64(Signed64(lhs) + Signed64(rhs))
    ensures Fits64(Signed64(lhs) + Signed64(rhs)) ==> Signed64(Wrap64(lhs + rhs)) == Signed64(lhs) + Signed64(rhs)
  {
  }

  lemma SubOverflowIsExact64(lhs: U64, rhs: U64)
    ensures OverflowSub64(Wrap64(lhs - rhs), lhs, rhs) <==> !Fits64(Signed64(lhs) - Signed64(rhs))
    ensures Fits64(Signed64(lhs) - Signed64(rhs)) ==> Signed64(Wrap64(lhs - rhs)) == Signed64(lhs) - Signed64(rhs)
  {
    var result := Wrap64(lhs - rhs);
    SignTest(lhs, rhs, lhs, result, 63);
    SignBits(lhs);
    SignBits(rhs);
    SignBits(result);
    SignsOfSub64(lhs, rhs);
    hide Bit, And, Xor, Wrap64, Signed64, Fits64;
  }

  lemma SignsOfSub64(lhs: U64, rhs: U64)
    ensures var result := Wrap64(lhs - rhs);
            Negative64(lhs) != Negative64(rhs) && Negative64(lhs) != Negative64(result)
            <==> !Fits64(Signed64(lhs) - Signed64(rhs))
    ensures Fits64(Signed64(lhs) - Signed64(rhs)) ==> Signed64(Wrap64(lhs - rhs)) == Signed64(lhs) - Signed64(rhs)
  {
  }

  // ---------------------------------------------------------------- products

  /** A 64-bit product split into two sign-extended 32-bit halves; the C products are exact. */
  function SplitWord(product: int): HiLo {
    HiLo(Sext32(Wrap32(product / 0x1_0000_0000)), Sext32(Wrap32(product)))
  }

  function SplitDouble(product: int): HiLo {
    HiLo(Wrap64(product / 0x1_0000_0000_0000_0000), Wrap64(product))
  }

  function Mult(rs: U32, rt: U32): HiLo { SplitWord(Signed32(rs) * Signed32(rt)) }

  function Multu(rs: U32, rt: U32): HiLo { SplitWord(rs * rt) }

  function Dmult(rs: U64, rt: U64): HiLo { SplitDouble(Signed64(rs) * Signed64(rt)) }

  function Dmultu(rs: U64, rt: U64): HiLo { SplitDouble(rs * rt) }

  lemma ProductBound(x: int, y: int, m: nat)
    requires -(m as int) <= x <= m && -(m as int) <= y <= m
    ensures -(m * m) <= x * y <= m * m
  {
    UnsignedProductBound(Abs(x), Abs(y), m);
    ProductOfAbs(x, y);
  }

  lemma ProductOfAbs(x: int, y: int)
    ensures Abs(x) * Abs(y) == if (x < 0) == (y < 0) then x * y else -(x * y)
  {
  }

  lemma UnsignedProductBound(x: nat, y: nat, m: nat)
    requires x <= m && y <= m
    ensures 0 <= x * y <= m * m
  {
    assert x * y <= m * y <= m * m;
  }

  lemma SextRoundTrip(x: U32)
    ensures Low32(Sext32(x)) == x
  {
    SextIs(x);
    hide Sext32;
    if x < 0x8000_0000 { LowIs(x, 0, x); } else { LowIs(x + 0xFFFF_FFFF_0000_0000, 0xFFFF_FFFF, x); }
  }

  lemma LowIs(x: U64, q: int, r: int)
    requires x == q * 0x1_0000_0000 + r && 0 <= r < 0x1_0000_0000
    ensures Low32(x) == r
  {
  }

  lemma SplitWordIsExact(p: int)
    ensures -0x8000_0000_0000_0000 <= p < 0x8000_0000_0000_0000 ==>
              Signed32(Low32(SplitWord(p).hi)) * 0x1_0000_0000 + Low32(SplitWord(p).lo) == p
    ensures 0 <= p < 0x1_0000_0000_0000_0000 ==>
              Low32(SplitWord(p).hi) * 0x1_0000_0000 + Low32(SplitWord(p).lo) == p
  {
    var q := p / 0x1_0000_0000;
    Wrap32Parts(p);
    SextRoundTrip(Wrap32(q));
    SextRoundTrip(Wrap32(p));
    hide Sext32, Low32;
    if 0 <= p < 0x1_0000_0000_0000_0000 {
      Wrap32Is(q, 0, q);
    } else if -0x8000_0000_0000_0000 <= p < 0 {
      Wrap32Is(q, -1, q + 0x1_0000_0000);
    }
  }

  /** HI:LO after MULT, MULTU, DMULT and DMULTU is the exact double-width product. */
  lemma MultIsExact(rs: U32, rt: U32)
    ensures var r := Mult(rs, rt);
            Signed32(Low32(r.hi)) * 0x1_0000_0000 + Low32(r.lo) == Signed32(rs) * Signed32(rt)
  {
    ProductBound(Signed32(rs), Signed32(rt), 0x8000_0000);
    hide Signed32, SplitWord;
    SplitWordIsExact(Signed32(rs) * Signed32(rt));
  }

  lemma MultuIsExact(rs: U32, rt: U32)
    ensures var r := Multu(rs, rt);
            Low32(r.hi) * 0x1_0000_0000 + Low32(r.lo) == rs * rt
  {
    UnsignedProductBound(rs, rt, 0xFFFF_FFFF);
    hide SplitWord;
    SplitWordIsExact(rs * rt);
  }

  lemma SplitDoubleIsExact(p: int)
    ensures -0x8000_0000_0000_0000 * 0x1_0000_0000_0000_0000 <= p < 0x8000_0000_0000_0000 * 0x1_0000_0000_0000_0000 ==>
              Signed64(SplitDouble(p).hi) * 0x1_0000_0000_0000_0000 + SplitDouble(p).lo == p
    ensures 0 <= p < 0x1_0000_0000_0000_0000 * 0x1_0000_0000_0000_0000 ==>
              SplitDouble(p).hi * 0x1_0000_0000_0000_0000 + SplitDouble(p).lo == p
  {
  }

  lemma DmultIsExact(rs: U64, rt: U64)
    ensures var r := Dmult(rs, rt);
            Signed64(r.hi) * 0x1_0000_0000_0000_0000 + r.lo == Signed64(rs) * Signed64(rt)
  {
    ProductBound(Signed64(rs), Signed64(rt), 0x8000_0000_0000_0000);
    hide Signed64, SplitDouble;
    SplitDoubleIsExact(Signed64(rs) * Signed64(rt));
  }

  lemma DmultuIsExact(rs: U64, rt: U64)
    ensures var r := Dmultu(rs, rt);
            r.hi * 0x1_0000_0000_0000_0000 + r.lo == rs * rt
  {
    UnsignedProductBound(rs, rt, 0xFFFF_FFFF_FFFF_FFFF);
    hide SplitDouble;
    SplitDoubleIsExact(rs * rt);
  }

  // ---------------------------------------------------------------- quotients

  function Abs(x: int): nat { if x < 0 then -x else x }

  /** C++ division: the quotient is truncated toward zero. */
  function TruncDiv(x: int, y: int): int
    requires y != 0
  {
    if (x < 0) == (y < 0) then Abs(x) / Abs(y) else -(Abs(x) / Abs(y))
  }

  function TruncRem(x: int, y: int): int
    requires y != 0
  {
    x - TruncDiv(x, y) * y
  }

  function Div(rs: U32, rt: U32): HiLo {
    if rt == 0 then HiLo(Sext32(rs), if rs >= 0x8000_0000 then 1 else 0xFFFF_FFFF_FFFF_FFFF)
    else if rs == 0x8000_0000 && rt == 0xFFFF_FFFF then HiLo(0, Sext32(0x8000_0000))
    else HiLo(Wrap64(TruncRem(Signed32(rs), Signed32(rt))), Wrap64(TruncDiv(Signed32(rs), Signed32(rt))))
  }

  function Divu(rs: U32, rt: U32): HiLo {
    if rt == 0 then HiLo(Sext32(rs), 0xFFFF_FFFF_FFFF_FFFF)
    else HiLo(Sext32(rs % rt), Sext32(rs / rt))
  }

  function Ddiv(rs: U64, rt: U64): HiLo {
    if rt == 0 then HiLo(rs, if rs >= 0x8000_0000_0000_0000 then 1 else 0xFFFF_FFFF_FFFF_FFFF)
    else if rs == 0x8000_0000_0000_0000 && rt == 0xFFFF_FFFF_FFFF_FFFF then HiLo(0, 0x8000_0000_0000_0000)
    else HiLo(Wrap64(TruncRem(Signed64(rs), Signed64(rt))), Wrap64(TruncDiv(Signed64(rs), Signed64(rt))))
  }

  function Ddivu(rs: U64, rt: U64): HiLo {
    if rt == 0 then HiLo(rs, 0xFFFF_FFFF_FFFF_FFFF) else HiLo(rs % rt, rs / rt)
  }

  /** The remainder is smaller than the divisor and has the dividend's sign. */
  predicate IsTruncated(x: int, y: int, q: int, r: int) {
    && q * y + r == x
    && Abs(r) < Abs(y)
    && (r > 0 ==> x > 0) && (r < 0 ==> x < 0)
  }

  lemma TruncDivIsTruncated(x: int, y: int)
    requires y != 0
    ensures IsTruncated(x, y, TruncDiv(x, y), TruncRem(x, y))
    ensures Abs(TruncDiv(x, y)) <= Abs(x)
    ensures Abs(x) == Abs(TruncDiv(x, y)) ==> x == 0 || y == 1 || y == -1
  {
    NaturalDivision(Abs(x), Abs(y));
    ProductOfAbs(TruncDiv(x, y), y);
  }

  /** DIV and DDIV with a non-zero divisor, except for the one overflowing pair. */
  lemma DivIsExact(rs: U32, rt: U32)
    requires rt != 0 && !(rs == 0x8000_0000 && rt == 0xFFFF_FFFF)
    ensures var r := Div(rs, rt);
            IsTruncated(Signed32(rs), Signed32(rt), Signed64(r.lo), Signed64(r.hi))
            && Fits32(Signed64(r.lo)) && Fits32(Signed64(r.hi))
  {
    var x, y := Signed32(rs), Signed32(rt);
    TruncDivIsTruncated(x, y);
    var q, r := TruncDiv(x, y), TruncRem(x, y);
    hide TruncDiv, TruncRem;
    assert Fits32(q) && Fits32(r);
    WrapOfSmall(q);
    WrapOfSmall(r);
  }

  lemma WrapOfSmall(x: int)
    requires Fits64(x)
    ensures Signed64(Wrap64(x)) == x
  {
  }

  lemma DdivIsExact(rs: U64, rt: U64)
    requires rt != 0 && !(rs == 0x8000_0000_0000_0000 && rt == 0xFFFF_FFFF_FFFF_FFFF)
    ensures var r := Ddiv(rs, rt);
            IsTruncated(Signed64(rs), Signed64(rt), Signed64(r.lo), Signed64(r.hi))
  {
    var x, y := Signed64(rs), Signed64(rt);
    TruncDivIsTruncated(x, y);
    var q, r := TruncDiv(x, y), TruncRem(x, y);
    hide TruncDiv, TruncRem;
    WrapOfSmall(q);
    WrapOfSmall(r);
  }

  // The overflowing pairs keep the identity modulo the word size.

  lemma DivOverflowWraps32()
    ensures var r := Div(0x8000_0000, 0xFFFF_FFFF);
            Wrap32(Low32(r.lo) * 0xFFFF_FFFF) == 0x8000_0000 && r.hi == 0
  {
    SextRoundTrip(0x8000_0000);
    hide Sext32, Low32;
  }

  lemma DivOverflowWraps64()
    ensures var r := Ddiv(0x8000_0000_0000_0000, 0xFFFF_FFFF_FFFF_FFFF);
            Wrap64(r.lo * 0xFFFF_FFFF_FFFF_FFFF) == 0x8000_0000_0000_0000 && r.hi == 0
  {
  }

  lemma DivuIsExact(rs: U32, rt: U32)
    requires rt != 0
    ensures var r := Divu(rs, rt); Low32(r.lo) * rt + Low32(r.hi) == rs && Low32(r.hi) < rt
  {
    NaturalDivision(rs, rt);
    SextRoundTrip(rs % rt);
    SextRoundTrip(rs / rt);
  }

  lemma DdivuIsExact(rs: U64, rt: U64)
    requires rt != 0
    ensures var r := Ddivu(rs, rt); r.lo * rt + r.hi == rs && r.hi < rt
  {
  }
}
