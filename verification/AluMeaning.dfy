/**
 * What the computing instructions mean, stated apart from how the handlers compute it: exact signed
 * arithmetic or a trap, modular arithmetic, exact products and quotients, and loads that undo stores.
 */
module AluMeaning {
  import opened Words
  import opened Bits
  import opened Decoder
  import opened Tlb
  import opened Arith
  import opened Memory
  import opened Handlers

  // ---------------------------------------------------------------- addition and subtraction

  predicate IsTrapping(id: InstId) {
    id.KAdd? || id.KAddi? || id.KSub? || id.KDadd? || id.KDaddi? || id.KDsub?
  }

  predicate IsAddSub(id: InstId) { IsAddSub32(id) || IsAddSub64(id) }

  predicate HasImmediate(id: InstId) {
    id.KAddi? || id.KAddiu? || id.KDaddi? || id.KDaddiu?
  }

  function Dest(id: InstId, raw: U32): RegIndex { if HasImmediate(id) then Rt(raw) else Rd(raw) }

  /** A register read as a signed operand of the instruction's width. */
  function SignedOperand(id: InstId, v: U64): int { if IsAddSub32(id) then Signed32(Low32(v)) else Signed64(v) }

  /** The mathematical result, on signed operands and without a width. */
  function Exact(id: InstId, raw: U32, gpr: Regs): int {
    var x, y := SignedOperand(id, gpr[Rs(raw)]), SignedOperand(id, gpr[Rt(raw)]);
    if HasImmediate(id) then x + ImmSigned(raw)
    else if id.KSub? || id.KSubu? || id.KDsub? || id.KDsubu? then x - y
    else x + y
  }

  predicate Fits(id: InstId, x: int) { if IsAddSub32(id) then Fits32(x) else Fits64(x) }

  lemma ImmBounds(raw: U32)
    ensures -0x8000 <= ImmSigned(raw) < 0x8000
    ensures Signed32(Wrap32(ImmSigned(raw))) == ImmSigned(raw) && Signed64(Wrap64(ImmSigned(raw))) == ImmSigned(raw)
  {
  }

  lemma SextIsWrap(x: U32, v: int)
    requires Signed32(x) == v
    ensures Sext32(x) == Wrap64(v)
  {
  }

  // The exact result from the unsigned operands the handlers use.

  lemma AddWord(x: U32, y: U32)
    ensures var v := Signed32(x) + Signed32(y);
            && (OverflowAdd32(Wrap32(x + y), x, y) <==> !Fits32(v)) &&
                (Fits32(v) ==> Sext32(Wrap32(x + y)) == Wrap64(v))
            && Sext32(Wrap32(x + y)) == Sext32(Wrap32(v))
  {
    hide OverflowAdd32, Sext32;
    var v: int := Signed32(x) + Signed32(y);
    AddOverflowIsExact32(x, y);
    SignedCongruent32(x, y);
    if Fits32(v) { SextIsWrap(Wrap32(x + y), v); }
  }

  lemma SubWord(x: U32, y: U32)
    ensures var v := Signed32(x) - Signed32(y);
            && (OverflowSub32(Wrap32(x - y), x, y) <==> !Fits32(v)) &&
                (Fits32(v) ==> Sext32(Wrap32(x - y)) == Wrap64(v))
            && Sext32(Wrap32(x - y)) == Sext32(Wrap32(v))
  {
    hide OverflowSub32, Sext32;
    var v: int := Signed32(x) - Signed32(y);
    SubOverflowIsExact32(x, y);
    SignedCongruent32(x, y);
    if Fits32(v) { SextIsWrap(Wrap32(x - y), v); }
  }

  lemma AddDouble(x: U64, y: U64)
    ensures var v := Signed64(x) + Signed64(y);
            (OverflowAdd64(Wrap64(x + y), x, y) <==> !Fits64(v)) && Wrap64(x + y) == Wrap64(v)
  {
    hide OverflowAdd64;
    AddOverflowIsExact64(x, y);
    SignedCongruent64(x, y);
  }

  lemma SubDouble(x: U64, y: U64)
    ensures var v := Signed64(x) - Signed64(y);
            (OverflowSub64(Wrap64(x - y), x, y) <==> !Fits64(v)) && Wrap64(x - y) == Wrap64(v)
  {
    hide OverflowSub64;
    SubOverflowIsExact64(x, y);
    SignedCongruent64(x, y);
  }

  predicate IsMemoryOp(id: InstId) {
    IsUnalignedLoad(id) || IsUnalignedStore(id) || IsLoad(id) || IsStore(id)
  }

  lemma WordIsNotMemory(id: InstId)
    requires IsAddSub32(id)
    ensures !IsMemoryOp(id)
  {
    match id
    case KAdd =>
    case KAddi =>
    case KSub =>
    case KAddu =>
    case KAddiu =>
    case KSubu =>
  }

  lemma DoubleIsNotMemory(id: InstId)
    requires IsAddSub64(id)
    ensures !IsMemoryOp(id)
  {
    match id
    case KDadd =>
    case KDaddi =>
    case KDsub =>
    case KDaddu =>
    case KDaddiu =>
    case KDsubu =>
  }

  lemma ComputeIs(t: TlbView, strict: bool, raw: U32, d: Data)
    requires IsAddSub(Decode(raw))
    ensures var id := Decode(raw);
            Compute(t, strict, raw, d) == if IsAddSub32(id) then AddSub32(id, raw, d) else AddSub64(id, raw, d)
  {
    hide Decode, AddSub32, AddSub64, Unaligned, Load, Store, Logic, Compare, Shift32, Shift64, HiLoOp;
    hide IsAddSub32, IsAddSub64, IsLoad, IsStore, IsUnalignedLoad, IsUnalignedStore;
    if IsAddSub32(Decode(raw)) {
      WordIsNotMemory(Decode(raw));
    } else {
      DoubleIsNotMemory(Decode(raw));
    }
  }

  lemma AddMeaning(raw: U32, d: Data)
    ensures var v := Signed32(Low32(d.gpr[Rs(raw)])) + Signed32(Low32(d.gpr[Rt(raw)]));
            && AddSub32(KAdd, raw, d) == OrTrap(!Fits32(v), d, Rd(raw), Wrap64(v))
            && AddSub32(KAddu, raw, d) == OrTrap(false, d, Rd(raw), Sext32(Wrap32(v)))
  {
    hide Rs, Rt, Rd, SetReg, Low32, Signed32, Wrap32, Wrap64, Sext32, ImmSigned, Fits32, OverflowAdd32, OverflowSub32;
    AddWord(Low32(d.gpr[Rs(raw)]), Low32(d.gpr[Rt(raw)]));
  }

  lemma AddImmMeaning(raw: U32, d: Data)
    ensures var v := Signed32(Low32(d.gpr[Rs(raw)])) + ImmSigned(raw);
            && AddSub32(KAddi, raw, d) == OrTrap(!Fits32(v), d, Rt(raw), Wrap64(v))
            && AddSub32(KAddiu, raw, d) == OrTrap(false, d, Rt(raw), Sext32(Wrap32(v)))
  {
    hide Rs, Rt, Rd, SetReg, Low32, Signed32, Wrap32, Wrap64, Sext32, ImmSigned, Fits32, OverflowAdd32, OverflowSub32;
    ImmBounds(raw);
    AddWord(Low32(d.gpr[Rs(raw)]), Wrap32(ImmSigned(raw)));
  }

  lemma SubMeaning(raw: U32, d: Data)
    ensures var v := Signed32(Low32(d.gpr[Rs(raw)])) - Signed32(Low32(d.gpr[Rt(raw)]));
            && AddSub32(KSub, raw, d) == OrTrap(!Fits32(v), d, Rd(raw), Wrap64(v))
            && AddSub32(KSubu, raw, d) == OrTrap(false, d, Rd(raw), Sext32(Wrap32(v)))
  {
    hide Rs, Rt, Rd, SetReg, Low32, Signed32, Wrap32, Wrap64, Sext32, ImmSigned, Fits32, OverflowAdd32, OverflowSub32;
    SubWord(Low32(d.gpr[Rs(raw)]), Low32(d.gpr[Rt(raw)]));
  }

  lemma DaddMeaning(raw: U32, d: Data)
    ensures var v := Signed64(d.gpr[Rs(raw)]) + Signed64(d.gpr[Rt(raw)]);
            && AddSub64(KDadd, raw, d) == OrTrap(!Fits64(v), d, Rd(raw), Wrap64(v))
            && AddSub64(KDaddu, raw, d) == OrTrap(false, d, Rd(raw), Wrap64(v))
  {
    hide Rs, Rt, Rd, SetReg, Signed64, Wrap64, ImmSigned, Fits64, OverflowAdd64, OverflowSub64;
    AddDouble(d.gpr[Rs(raw)], d.gpr[Rt(raw)]);
  }

  lemma DaddImmMeaning(raw: U32, d: Data)
    ensures var v := Signed64(d.gpr[Rs(raw)]) + ImmSigned(raw);
            && AddSub64(KDaddi, raw, d) == OrTrap(!Fits64(v), d, Rt(raw), Wrap64(v))
            && AddSub64(KDaddiu, raw, d) == OrTrap(false, d, Rt(raw), Wrap64(v))
  {
    hide Rs, Rt, Rd, SetReg, Signed64, Wrap64, ImmSigned, Fits64, OverflowAdd64, OverflowSub64;
    ImmBounds(raw);
    AddDouble(d.gpr[Rs(raw)], Wrap64(ImmSigned(raw)));
  }

  lemma DsubMeaning(raw: U32, d: Data)
    ensures var v := Signed64(d.gpr[Rs(raw)]) - Signed64(d.gpr[Rt(raw)]);
            && AddSub64(KDsub, raw, d) == OrTrap(!Fits64(v), d, Rd(raw), Wrap64(v))
            && AddSub64(KDsubu, raw, d) == OrTrap(false, d, Rd(raw), Wrap64(v))
  {
    hide Rs, Rt, Rd, SetReg, Signed64, Wrap64, ImmSigned, Fits64, OverflowAdd64, OverflowSub64;
    SubDouble(d.gpr[Rs(raw)], d.gpr[Rt(raw)]);
  }

  predicate WordMeans(id: InstId, raw: U32, d: Data) {
    var v := Exact(id, raw, d.gpr);
    AddSub32(id, raw, d)
    == if IsTrapping(id) then OrTrap(!Fits32(v), d, Dest(id, raw), Wrap64(v))
       else OrTrap(false, d, Dest(id, raw), Sext32(Wrap32(v)))
  }

  lemma RegisterWords(raw: U32, d: Data)
    ensures WordMeans(KAdd, raw, d) && WordMeans(KAddu, raw, d) && WordMeans(KSub, raw, d) && WordMeans(KSubu, raw, d)
  {
    hide AddSub32, OrTrap, Low32, Signed32, Wrap32, Wrap64, Sext32, ImmSigned, Fits32, Rs, Rt, Rd;
    AddMeaning(raw, d);
    SubMeaning(raw, d);
  }

  lemma ImmediateWords(raw: U32, d: Data)
    ensures WordMeans(KAddi, raw, d) && WordMeans(KAddiu, raw, d)
  {
    hide AddSub32, OrTrap, Low32, Signed32, Wrap32, Wrap64, Sext32, ImmSigned, Fits32, Rs, Rt, Rd;
    AddImmMeaning(raw, d);
  }

  lemma WordArithmetic(id: InstId, raw: U32, d: Data)
    requires IsAddSub32(id)
    ensures WordMeans(id, raw, d)
  {
    hide WordMeans;
    RegisterWords(raw, d);
    ImmediateWords(raw, d);
  }

  predicate DoubleMeans(id: InstId, raw: U32, d: Data) {
    var v := Exact(id, raw, d.gpr);
    AddSub64(id, raw, d) == OrTrap(IsTrapping(id) && !Fits64(v), d, Dest(id, raw), Wrap64(v)) && !IsAddSub32(id)
  }

  lemma RegisterDoubles(raw: U32, d: Data)
    ensures DoubleMeans(KDadd, raw, d) && DoubleMeans(KDaddu, raw, d)
    ensures DoubleMeans(KDsub, raw, d) && DoubleMeans(KDsubu, raw, d)
  {
    hide AddSub64, OrTrap, Signed64, Wrap64, ImmSigned, Fits64, Rs, Rt, Rd;
    DaddMeaning(raw, d);
    DsubMeaning(raw, d);
  }

  lemma ImmediateDoubles(raw: U32, d: Data)
    ensures DoubleMeans(KDaddi, raw, d) && DoubleMeans(KDaddiu, raw, d)
  {
    hide AddSub64, OrTrap, Signed64, Wrap64, ImmSigned, Fits64, Rs, Rt, Rd;
    DaddImmMeaning(raw, d);
  }

  lemma DoubleArithmetic(id: InstId, raw: U32, d: Data)
    requires IsAddSub64(id)
    ensures DoubleMeans(id, raw, d)
  {
    hide DoubleMeans;
    RegisterDoubles(raw, d);
    ImmediateDoubles(raw, d);
  }

  /** 0 or -1: the quotient that two's complement subtracts. */
  function Sign32(x: U32): int { if x < 0x8000_0000 then 0 else -1 }

  function Sign64(x: U64): int { if x < 0x8000_0000_0000_0000 then 0 else -1 }

  lemma SignedCongruent32(x: U32, y: U32)
    ensures Wrap32(x + y) == Wrap32(Signed32(x) + Signed32(y)) && Wrap32(x - y) == Wrap32(Signed32(x) - Signed32(y))
  {
    Wrap32Shift(x + y, Sign32(x) + Sign32(y));
    Wrap32Shift(x - y, Sign32(x) - Sign32(y));
    hide Wrap32;
  }

  lemma SignedCongruent64(x: U64, y: U64)
    ensures Wrap64(x + y) == Wrap64(Signed64(x) + Signed64(y)) && Wrap64(x - y) == Wrap64(Signed64(x) - Signed64(y))
  {
    Wrap64Shift(x + y, Sign64(x) + Sign64(y));
    Wrap64Shift(x - y, Sign64(x) - Sign64(y));
    hide Wrap64;
  }

  /**
   * ADD, ADDI, SUB and their doubleword forms write the exact signed result, or trap when it does not fit;
   * the unsigned forms never trap and wrap modulo the width. 32-bit results are sign-extended.
   */
  lemma ExactArithmetic(t: TlbView, strict: bool, raw: U32, d: Data)
    requires IsAddSub(Decode(raw))
    ensures var id := Decode(raw);
            var v := Exact(id, raw, d.gpr);
            Compute(t, strict, raw, d)
            == if IsTrapping(id) && !Fits(id, v) then Raise(Overflow, None)
               else Done(d.(gpr := SetReg(d.gpr, Dest(id, raw),
                                          if !IsTrapping(id) && IsAddSub32(id) then Sext32(Wrap32(v)) else Wrap64(v))))
  {
    hide Decode, Compute, Exact, Dest, SetReg, Wrap64, Wrap32, Sext32, AddSub32, AddSub64, IsTrapping, IsAddSub32;
    hide IsAddSub64;
    hide Fits32, Fits64;
    ComputeIs(t, strict, raw, d);
    if IsAddSub32(Decode(raw)) {
      WordArithmetic(Decode(raw), raw, d);
    } else {
      DoubleArithmetic(Decode(raw), raw, d);
    }
  }

  // ---------------------------------------------------------------- products and quotients

  predicate IsProduct(id: InstId) { id.KMult? || id.KMultu? || id.KDmult? || id.KDmultu? }

  predicate IsQuotient(id: InstId) { id.KDiv? || id.KDivu? || id.KDdiv? || id.KDdivu? }

  lemma ProductIsNotMemory(id: InstId)
    requires IsProduct(id)
    ensures !IsMemoryOp(id)
  {
    match id
    case KMult =>
    case KMultu =>
    case KDmult =>
    case KDmultu =>
  }

  lemma QuotientIsNotMemory(id: InstId)
    requires IsQuotient(id)
    ensures !IsMemoryOp(id)
  {
    match id
    case KDiv =>
    case KDivu =>
    case KDdiv =>
    case KDdivu =>
  }

  lemma ProductIsHiLo(id: InstId)
    requires IsProduct(id)
    ensures IsHiLoOp(id) && !IsCompare(id) && !IsAddSub32(id) && !IsAddSub64(id) && !IsShift32(id) && !IsShift64(id)
  {
  }

  lemma QuotientIsHiLo(id: InstId)
    requires IsQuotient(id)
    ensures IsHiLoOp(id) && !IsCompare(id) && !IsAddSub32(id) && !IsAddSub64(id) && !IsShift32(id) && !IsShift64(id)
  {
  }

  lemma HiLoIs(t: TlbView, strict: bool, raw: U32, d: Data)
    requires IsProduct(Decode(raw)) || IsQuotient(Decode(raw))
    ensures Compute(t, strict, raw, d) == HiLoOp(Decode(raw), raw, d)
  {
    if IsProduct(Decode(raw)) {
      ProductIsNotMemory(Decode(raw));
      ProductIsHiLo(Decode(raw));
    } else {
      QuotientIsNotMemory(Decode(raw));
      QuotientIsHiLo(Decode(raw));
    }
    hide IsProduct, IsQuotient, Decode, AddSub32, AddSub64, Unaligned, Load, Store, Logic, Compare, Shift32, Shift64;
    hide HiLoOp;
    hide IsAddSub32, IsAddSub64, IsLoad, IsStore, IsUnalignedLoad, IsUnalignedStore, IsCompare, IsShift32, IsShift64;
    hide IsHiLoOp;
  }

  predicate HoldsProduct(id: InstId, rs: U64, rt: U64, hi: U64, lo: U64) {
    if id.KMult? then Signed32(Low32(hi)) * 0x1_0000_0000 + Low32(lo) == Signed32(Low32(rs)) * Signed32(Low32(rt))
    else if id.KMultu? then Low32(hi) * 0x1_0000_0000 + Low32(lo) == Low32(rs) * Low32(rt)
    else if id.KDmult? then Signed64(hi) * 0x1_0000_0000_0000_0000 + lo == Signed64(rs) * Signed64(rt)
    else hi * 0x1_0000_0000_0000_0000 + lo == rs * rt
  }

  /** HI:LO, read at the instruction's width and signedness, is the exact product. */
  lemma ExactProduct(t: TlbView, strict: bool, raw: U32, d: Data) returns (hi: U64, lo: U64)
    requires IsProduct(Decode(raw))
    ensures Compute(t, strict, raw, d) == Done(d.(hi := hi, lo := lo))
    ensures HoldsProduct(Decode(raw), d.gpr[Rs(raw)], d.gpr[Rt(raw)], hi, lo)
  {
    hide Decode, Compute, Rs, Rt, Mult, Multu, Dmult, Dmultu, Low32, Signed32, Signed64;
    HiLoIs(t, strict, raw, d);
    var rs, rt, r := d.gpr[Rs(raw)], d.gpr[Rt(raw)], HiLoOp(Decode(raw), raw, d);
    hi, lo := r.data.hi, r.data.lo;
    MultIsExact(Low32(rs), Low32(rt));
    MultuIsExact(Low32(rs), Low32(rt));
    DmultIsExact(rs, rt);
    DmultuIsExact(rs, rt);
  }

  /** A zero divisor leaves the dividend in HI and all ones or, for a negative dividend, 1 in LO. */
  predicate NoQuotient(x: int, hi: U64, lo: U64) {
    Signed64(hi) == x && Signed64(lo) == if x < 0 then 1 else -1
  }

  predicate HoldsQuotient(id: InstId, rs: U64, rt: U64, hi: U64, lo: U64) {
    var x, y := Low32(rs), Low32(rt);
    if id.KDiv? then
      if y == 0 then NoQuotient(Signed32(x), hi, lo)
      else if Overflows32(x, y) then hi == 0 && Wrap32(Low32(lo) * y) == x
      else IsTruncated(Signed32(x), Signed32(y), Signed64(lo), Signed64(hi))
    else if id.KDivu? then
      if y == 0 then Low32(hi) == x && lo == 0xFFFF_FFFF_FFFF_FFFF
      else Low32(lo) * y + Low32(hi) == x && Low32(hi) < y
    else if id.KDdiv? then
      if rt == 0 then NoQuotient(Signed64(rs), hi, lo)
      else if Overflows64(rs, rt) then hi == 0 && Wrap64(lo * rt) == rs
      else IsTruncated(Signed64(rs), Signed64(rt), Signed64(lo), Signed64(hi))
    else if rt == 0 then hi == rs && lo == 0xFFFF_FFFF_FFFF_FFFF
    else lo * rt + hi == rs && hi < rt
  }

  predicate Overflows32(x: U32, y: U32) { x == 0x8000_0000 && y == 0xFFFF_FFFF }

  predicate Overflows64(x: U64, y: U64) { x == 0x8000_0000_0000_0000 && y == 0xFFFF_FFFF_FFFF_FFFF }

  lemma DivHolds(rs: U64, rt: U64)
    ensures var r := Div(Low32(rs), Low32(rt)); HoldsQuotient(KDiv, rs, rt, r.hi, r.lo)
  {
    var x, y := Low32(rs), Low32(rt);
    hide Low32, IsTruncated, Div, NoQuotient, Wrap32;
    if y == 0 {
      DivByZero32(x);
    } else if Overflows32(x, y) {
      DivOverflowWraps32();
    } else {
      DivIsExact(x, y);
    }
  }

  lemma DivByZero32(x: U32)
    ensures NoQuotient(Signed32(x), Div(x, 0).hi, Div(x, 0).lo)
    ensures Low32(Divu(x, 0).hi) == x && Divu(x, 0).lo == 0xFFFF_FFFF_FFFF_FFFF
  {
    SextRoundTrip(x);
    SignedSext(x);
    hide Sext32, Low32;
  }

  lemma SignedSext(x: U32)
    ensures Signed64(Sext32(x)) == Signed32(x)
  {
  }

  lemma DivuHolds(rs: U64, rt: U64)
    ensures var r := Divu(Low32(rs), Low32(rt)); HoldsQuotient(KDivu, rs, rt, r.hi, r.lo)
  {
    var x, y := Low32(rs), Low32(rt);
    hide Low32, Divu;
    if y == 0 { DivByZero32(x); } else { DivuIsExact(x, y); }
  }

  lemma DdivHolds(rs: U64, rt: U64)
    ensures var r := Ddiv(rs, rt); HoldsQuotient(KDdiv, rs, rt, r.hi, r.lo)
  {
    if rt != 0 {
      hide IsTruncated, Ddiv, NoQuotient, Signed64, Wrap64;
      if Overflows64(rs, rt) { DivOverflowWraps64(); } else { DdivIsExact(rs, rt); }
    }
  }

  lemma DdivuHolds(rs: U64, rt: U64)
    ensures var r := Ddivu(rs, rt); HoldsQuotient(KDdivu, rs, rt, r.hi, r.lo)
  {
    if rt != 0 {
      hide Ddivu;
      DdivuIsExact(rs, rt);
    }
  }

  /**
   * LO is the truncated quotient and HI the remainder; a zero divisor and the overflowing pair leave the
   * values of HoldsQuotient.
   */
  lemma ExactQuotient(t: TlbView, strict: bool, raw: U32, d: Data) returns (hi: U64, lo: U64)
    requires IsQuotient(Decode(raw))
    ensures Compute(t, strict, raw, d) == Done(d.(hi := hi, lo := lo))
    ensures HoldsQuotient(Decode(raw), d.gpr[Rs(raw)], d.gpr[Rt(raw)], hi, lo)
  {
    hide Decode, Compute, Rs, Rt, Div, Divu, Ddiv, Ddivu, Low32, HoldsQuotient;
    HiLoIs(t, strict, raw, d);
    var rs, rt, r := d.gpr[Rs(raw)], d.gpr[Rt(raw)], HiLoOp(Decode(raw), raw, d);
    hi, lo := r.data.hi, r.data.lo;
    DivHolds(rs, rt);
    DivuHolds(rs, rt);
    DdivHolds(rs, rt);
    DdivuHolds(rs, rt);
  }

  // ---------------------------------------------------------------- loads undo stores

  lemma {:induction false} PokeElsewhere(mem: Mem, p: nat, b: seq<U8>, q: nat)
    requires q < p || p + |b| <= q
    ensures Peek(PokeBytes(mem, p, b), q) == Peek(mem, q)
    decreases |b|
  {
    if b != [] { PokeElsewhere(mem[p := b[0]], p + 1, b[1..], q); }
  }

  lemma {:induction false} PeekPoked(mem: Mem, p: nat, b: seq<U8>)
    ensures PeekBytes(PokeBytes(mem, p, b), p, |b|) == b
    decreases |b|
  {
    hide Peek;
    if b != [] {
      var m := mem[p := b[0]];
      PeekPoked(m, p + 1, b[1..]);
      PokeElsewhere(m, p + 1, b[1..], p);
      assert Peek(m, p) == b[0] by { PeekPut(mem, p, b[0]); }
    }
  }

  lemma PeekPut(mem: Mem, p: nat, b: U8)
    ensures Peek(mem[p := b], p) == b
  {
  }

  lemma {:induction false} BytesMod(v: nat, n: nat)
    ensures Value(Bytes(v, n)) == v % Pow256(n)
  {
    hide Bytes, Value, Pow256;
    if n > 0 {
      BytesMod(v / 256, n - 1);
      BytesStep(v, n);
      ValueStep(Bytes(v, n));
      PowStep(n);
      DivMod(v, Pow256(n - 1));
    } else {
      NoBytes(v);
    }
  }

  /** A bus load at the address of a store gives the low bytes of what was stored, and other bytes stay. */
  lemma LoadAfterStore(t: TlbView, mem: Mem, a: U64, v: nat, n: nat)
    requires StoreN(t, mem, a, v, n).Some?
    ensures var m := StoreN(t, mem, a, v, n).value;
            && LoadN(t, m, a, n) == Some(v % Pow256(n))
            && forall q: nat :: (q < Translate(t, a).address || Translate(t, a).address + n <= q) ==>
                Peek(m, q) == Peek(mem, q)
  {
    hide Translate, Bytes, PokeBytes, PeekBytes, Peek, Value, Pow256;
    var p, b := Translate(t, a).address, Bytes(v, n);
    var m := PokeBytes(mem, p, b);
    PeekPoked(mem, p, b);
    BytesMod(v, n);
    forall q: nat | q < p || p + n <= q ensures Peek(m, q) == Peek(mem, q) {
      PokeElsewhere(mem, p, b, q);
    }
  }
}
