/**
 * What the encoded computing instructions do, each stated on its fields: arithmetic exactly, logic and shifts bit
 * by bit, comparisons, HI and LO (src/mips_base.cpp:1449-1745, 2209-2232, 2517-2732).
 */
module InstructionMeaning {
  import opened Words
  import opened Bits
  import opened Decoder
  import opened Encoding
  import opened Tlb
  import opened Arith
  import opened Handlers
  import opened AluMeaning

  /** The registers after a write: register 0 stays. */
  function Written(gpr: Regs, reg: RegIndex, v: U64): Regs {
    if reg == 0 then gpr else gpr[reg := v]
  }

  /** The instruction completes and writes v to reg. */
  predicate Gives(o: Outcome, d: Data, reg: RegIndex, v: U64) {
    o == Done(d.(gpr := Written(d.gpr, reg, v)))
  }

  // ---------------------------------------------------------------- addition and subtraction

  predicate AddsRegisters(id: InstId) {
    || id.KAdd? || id.KAddu? || id.KSub? || id.KSubu? || id.KDadd? || id.KDaddu? || id.KDsub? || id.KDsubu?
  }

  predicate Subtracts(id: InstId) { id.KSub? || id.KSubu? || id.KDsub? || id.KDsubu? }

  predicate AddsImmediate(id: InstId) { id.KAddi? || id.KAddiu? || id.KDaddi? || id.KDaddiu? }

  predicate IsWide(id: InstId) {
    id.KDadd? || id.KDaddu? || id.KDsub? || id.KDsubu? || id.KDaddi? || id.KDaddiu?
  }

  predicate Traps(id: InstId) { id.KAdd? || id.KSub? || id.KDadd? || id.KDsub? || id.KAddi? || id.KDaddi? }

  /** A register as a signed number of the instruction's width. */
  function SignedAt(wide: bool, v: U64): int { if wide then Signed64(v) else Signed32(Low32(v)) }

  predicate FitsIn(wide: bool, v: int) {
    if wide then -0x8000_0000_0000_0000 <= v < 0x8000_0000_0000_0000 else -0x8000_0000 <= v < 0x8000_0000
  }

  /** The exact sum v is written, at the width and sign-extended, or the trapping form raises Overflow. */
  predicate Sums(o: Outcome, d: Data, id: InstId, reg: RegIndex, v: int) {
    if Traps(id) && !FitsIn(IsWide(id), v) then o == Raise(Overflow, None)
    else Gives(o, d, reg, if IsWide(id) then Wrap64(v) else Sext32(Wrap32(v)))
  }

  lemma FittingSum(v: int)
    requires -0x8000_0000 <= v < 0x8000_0000
    ensures Sext32(Wrap32(v)) == Wrap64(v)
  {
    Wrap32Is(v, if v < 0 then -1 else 0, if v < 0 then v + 0x1_0000_0000 else v);
    SextIs(Wrap32(v));
    Wrap64Is(v, if v < 0 then -1 else 0, if v < 0 then v + 0x1_0000_0000_0000_0000 else v);
    hide Wrap32, Wrap64, Sext32;
  }

  lemma SumsIs(o: Outcome, d: Data, id: InstId, reg: RegIndex, v: int)
    requires IsAddSub(id) && Traps(id) == IsTrapping(id) && IsWide(id) == !IsAddSub32(id)
    requires o == if IsTrapping(id) && !Fits(id, v) then Raise(Overflow, None)
             else Done(d.(gpr := SetReg(d.gpr, reg, if !IsTrapping(id) && IsAddSub32(id) then Sext32(Wrap32(v))
                                                    else Wrap64(v))))
    ensures Sums(o, d, id, reg, v)
  {
    if -0x8000_0000 <= v < 0x8000_0000 { FittingSum(v); }
    hide Wrap32, Wrap64, Sext32, IsTrapping, IsAddSub32, Traps, IsWide;
  }

  lemma RegisterSumKind(id: InstId)
    requires AddsRegisters(id)
    ensures IsAddSub(id) && Traps(id) == IsTrapping(id) && IsWide(id) == !IsAddSub32(id) && !HasImmediate(id)
  {
  }

  lemma ImmediateSumKind(id: InstId)
    requires AddsImmediate(id)
    ensures IsAddSub(id) && Traps(id) == IsTrapping(id) && IsWide(id) == !IsAddSub32(id) && HasImmediate(id)
  {
  }

  /** The fields of an encoded instruction with two register operands. */
  lemma SpecialFields(i: Inst)
    requires Valid(i) && i.Special?
    ensures var raw := Encode(i);
            Decode(raw) == i.id && Rs(raw) == i.rs && Rt(raw) == i.rt && Rd(raw) == i.rd && Shamt(raw) == i.sa
  {
    RoundTrip(i);
    hide Encode, Decode, Valid, Rs, Rt, Rd, Shamt;
  }

  lemma ImmediateFields(i: Inst)
    requires Valid(i) && i.Immediate?
    ensures var raw := Encode(i);
            && Decode(raw) == i.id && Op(raw) == PrimaryCode(i.id)
            && Rs(raw) == i.rs && Rt(raw) == i.rt && Imm(raw) == i.imm
  {
    RoundTrip(i);
    hide Encode, Decode, Valid, Op, Rs, Rt, Imm, PrimaryCode;
  }

  lemma RegisterOperands(id: InstId, raw: U32, gpr: Regs)
    requires AddsRegisters(id)
    ensures var x, y := SignedAt(IsWide(id), gpr[Rs(raw)]), SignedAt(IsWide(id), gpr[Rt(raw)]);
            Exact(id, raw, gpr) == if Subtracts(id) then x - y else x + y
    ensures Dest(id, raw) == Rd(raw)
  {
    RegisterSumKind(id);
    hide Rs, Rt, Rd, Imm, Low32, Signed32, Signed64, AddsRegisters, IsWide, IsAddSub32, HasImmediate;
  }

  lemma ImmediateOperand(id: InstId, raw: U32, gpr: Regs)
    requires AddsImmediate(id)
    ensures Exact(id, raw, gpr) == SignedAt(IsWide(id), gpr[Rs(raw)]) + Signed16(Imm(raw))
    ensures Dest(id, raw) == Rt(raw)
  {
    ImmediateSumKind(id);
    hide Rs, Rt, Rd, Imm, Low32, Signed32, Signed64, AddsImmediate, IsWide, IsAddSub32, HasImmediate;
  }

  /** ADD, ADDU, SUB, SUBU and their doubleword forms. */
  lemma RegisterSum(t: TlbView, strict: bool, i: Inst, d: Data)
    requires Valid(i) && i.Special? && AddsRegisters(i.id)
    ensures var x, y := SignedAt(IsWide(i.id), d.gpr[i.rs]), SignedAt(IsWide(i.id), d.gpr[i.rt]);
            Sums(Compute(t, strict, Encode(i), d), d, i.id, i.rd, if Subtracts(i.id) then x - y else x + y)
  {
    hide *;
    RegisterSumKind(i.id);
    SpecialFields(i);
    RegisterOperands(i.id, Encode(i), d.gpr);
    SumOf(t, strict, Encode(i), d);
  }

  /** ADDI, ADDIU, DADDI and DADDIU. */
  lemma ImmediateSum(t: TlbView, strict: bool, i: Inst, d: Data)
    requires Valid(i) && i.Immediate? && AddsImmediate(i.id)
    ensures Sums(Compute(t, strict, Encode(i), d), d, i.id, i.rt,
                 SignedAt(IsWide(i.id), d.gpr[i.rs]) + Signed16(i.imm))
  {
    hide *;
    ImmediateSumKind(i.id);
    ImmediateFields(i);
    ImmediateOperand(i.id, Encode(i), d.gpr);
    SumOf(t, strict, Encode(i), d);
  }

  lemma SumOf(t: TlbView, strict: bool, raw: U32, d: Data)
    requires var id := Decode(raw); IsAddSub(id) && Traps(id) == IsTrapping(id) && IsWide(id) == !IsAddSub32(id)
    ensures Sums(Compute(t, strict, raw, d), d, Decode(raw), Dest(Decode(raw), raw), Exact(Decode(raw), raw, d.gpr))
  {
    ExactArithmetic(t, strict, raw, d);
    SumsIs(Compute(t, strict, raw, d), d, Decode(raw), Dest(Decode(raw), raw), Exact(Decode(raw), raw, d.gpr));
    hide Compute, Decode, Rs, Rt, Rd, IsAddSub, IsTrapping, Traps, HasImmediate, Exact, Dest;
    hide Sums, Fits, SetReg, Wrap64, Wrap32, Sext32, IsWide, IsAddSub32;
  }

  // ---------------------------------------------------------------- products, quotients, HI and LO

  /** HI:LO is the exact product of the two registers, at the width and signedness of the instruction. */
  lemma Product(t: TlbView, strict: bool, i: Inst, d: Data) returns (hi: U64, lo: U64)
    requires Valid(i) && i.Special? && IsProduct(i.id)
    ensures Compute(t, strict, Encode(i), d) == Done(d.(hi := hi, lo := lo))
    ensures HoldsProduct(i.id, d.gpr[i.rs], d.gpr[i.rt], hi, lo)
  {
    SpecialFields(i);
    hide *;
    hi, lo := ExactProduct(t, strict, Encode(i), d);
  }

  /** LO is the truncated quotient and HI the remainder, with the exceptions of HoldsQuotient. */
  lemma Quotient(t: TlbView, strict: bool, i: Inst, d: Data) returns (hi: U64, lo: U64)
    requires Valid(i) && i.Special? && IsQuotient(i.id)
    ensures Compute(t, strict, Encode(i), d) == Done(d.(hi := hi, lo := lo))
    ensures HoldsQuotient(i.id, d.gpr[i.rs], d.gpr[i.rt], hi, lo)
  {
    SpecialFields(i);
    hide *;
    hi, lo := ExactQuotient(t, strict, Encode(i), d);
  }

  predicate MovesHiLo(id: InstId) { id.KMfhi? || id.KMflo? || id.KMthi? || id.KMtlo? }

  lemma HiLoMoveKind(id: InstId)
    requires MovesHiLo(id)
    ensures !IsMemoryOp(id) && !IsAddSub32(id) && !IsAddSub64(id) && !IsCompare(id) && !IsShift32(id)
    ensures !IsShift64(id) && IsHiLoOp(id)
  {
  }

  lemma HiLoMoveIs(id: InstId, raw: U32, d: Data)
    requires MovesHiLo(id)
    ensures HiLoOp(id, raw, d) == if id.KMfhi? then ToRd(raw, d, d.hi) else if id.KMflo? then ToRd(raw, d, d.lo)
                                  else if id.KMthi? then Done(d.(hi := d.gpr[Rs(raw)]))
                                  else Done(d.(lo := d.gpr[Rs(raw)]))
  {
    hide Mult, Multu, Div, Divu, Dmult, Dmultu, Ddiv, Ddivu, Rs, Rt, Rd;
  }

  /** The four moves from and to HI and LO. */
  lemma HiLoMove(t: TlbView, strict: bool, i: Inst, d: Data)
    requires Valid(i) && i.Special? && MovesHiLo(i.id)
    ensures var o := Compute(t, strict, Encode(i), d);
            if i.id.KMfhi? then Gives(o, d, i.rd, d.hi)
            else if i.id.KMflo? then Gives(o, d, i.rd, d.lo)
            else o == Done(if i.id.KMthi? then d.(hi := d.gpr[i.rs]) else d.(lo := d.gpr[i.rs]))
  {
    SpecialFields(i);
    HiLoMoveKind(i.id);
    HiLoMoveIs(i.id, Encode(i), d);
    hide Encode, Decode, Rs, Rt, Rd, Shamt, Valid, IsHiLoOp, IsAddSub32, IsAddSub64, IsCompare, IsShift32, IsShift64;
    hide IsLoad, IsStore, IsUnalignedLoad, IsUnalignedStore, HiLoOp, AddSub32, AddSub64, Compare, Shift32, Shift64;
    hide MovesHiLo, Logic, Load, Store, Unaligned;
  }

  // ---------------------------------------------------------------- comparisons

  lemma CompareKind(id: InstId)
    requires IsCompare(id)
    ensures !IsMemoryOp(id) && !IsAddSub32(id) && !IsAddSub64(id)
  {
  }

  lemma CompareIs(id: InstId, raw: U32, d: Data)
    requires IsCompare(id)
    ensures var x, y := d.gpr[Rs(raw)], d.gpr[Rt(raw)];
            Compare(id, raw, d)
            == if id.KSlt? then ToRd(raw, d, Flag(Signed64(x) < Signed64(y)))
               else if id.KSltu? then ToRd(raw, d, Flag(x < y))
               else if id.KSlti? then ToRt(raw, d, Flag(Signed64(x) < ImmSigned(raw)))
               else ToRt(raw, d, Flag(x < Wrap64(ImmSigned(raw))))
  {
    hide Signed64, Wrap64, ImmSigned, Flag, Rs, Rt, Rd;
  }

  lemma ComputesCompare(t: TlbView, strict: bool, raw: U32, d: Data)
    requires IsCompare(Decode(raw))
    ensures Compute(t, strict, raw, d) == Compare(Decode(raw), raw, d)
  {
    CompareKind(Decode(raw));
    hide Decode, IsAddSub32, IsAddSub64, IsCompare, Compare, AddSub32, AddSub64, Shift32, Shift64, HiLoOp, Logic;
    hide IsLoad, IsStore, IsUnalignedLoad, IsUnalignedStore, Load, Store, Unaligned, IsShift32, IsShift64, IsHiLoOp;
  }

  /** The 64-bit word a 16-bit immediate stands for. */
  function Extended(imm: U16): U64 { if imm < 0x8000 then imm else imm + 0xFFFF_FFFF_FFFF_0000 }

  lemma ExtendedIs(imm: U16)
    ensures Wrap64(Signed16(imm)) == Extended(imm)
  {
    Wrap64Is(Signed16(imm), if imm < 0x8000 then 0 else -1, Extended(imm));
  }

  /** SLT and SLTU write 1 or 0 for the signed and the unsigned comparison of the registers. */
  lemma RegisterComparison(t: TlbView, strict: bool, i: Inst, d: Data)
    requires Valid(i) && i.Special? && (i.id.KSlt? || i.id.KSltu?)
    ensures var x, y := d.gpr[i.rs], d.gpr[i.rt];
            var holds := if i.id.KSlt? then Signed64(x) < Signed64(y) else x < y;
            Gives(Compute(t, strict, Encode(i), d), d, i.rd, if holds then 1 else 0)
  {
    SpecialFields(i);
    ComputesCompare(t, strict, Encode(i), d);
    CompareIs(i.id, Encode(i), d);
    hide Encode, Decode, Rs, Rt, Rd, Shamt, Valid, Compute, Compare, Signed64, Wrap64, ImmSigned;
  }

  /** SLTI and SLTIU compare with the sign-extended immediate, signed and unsigned. */
  lemma ImmediateComparison(t: TlbView, strict: bool, i: Inst, d: Data)
    requires Valid(i) && i.Immediate? && (i.id.KSlti? || i.id.KSltiu?)
    ensures var x := d.gpr[i.rs];
            var holds := if i.id.KSlti? then Signed64(x) < Signed16(i.imm) else x < Extended(i.imm);
            Gives(Compute(t, strict, Encode(i), d), d, i.rt, if holds then 1 else 0)
  {
    ImmediateFields(i);
    ExtendedIs(i.imm);
    ComputesCompare(t, strict, Encode(i), d);
    CompareIs(i.id, Encode(i), d);
    hide Encode, Decode, Rs, Rt, Rd, Imm, Valid, Compute, Compare, Signed64, Wrap64;
  }

  // ---------------------------------------------------------------- logic, bit by bit

  predicate IsLogic(id: InstId) {
    || id.KAnd? || id.KOr? || id.KXor? || id.KNor? || id.KAndi? || id.KOri? || id.KXori? || id.KLui?
  }

  predicate LogicBit(id: InstId, x: bool, y: bool) {
    if id.KAnd? || id.KAndi? then x && y
    else if id.KOr? || id.KOri? then x || y
    else if id.KXor? || id.KXori? then x != y
    else !x && !y
  }

  lemma LogicKind(id: InstId)
    requires IsLogic(id)
    ensures !IsMemoryOp(id)
  {
  }

  lemma LogicIsLast(id: InstId)
    requires IsLogic(id)
    ensures !IsAddSub32(id) && !IsAddSub64(id) && !IsCompare(id)
    ensures !IsShift32(id) && !IsShift64(id) && !IsHiLoOp(id)
  {
  }

  lemma ComputesLogic(t: TlbView, strict: bool, raw: U32, d: Data)
    requires IsLogic(Decode(raw))
    ensures Compute(t, strict, raw, d) == Logic(Decode(raw), raw, d)
  {
    LogicKind(Decode(raw));
    LogicIsLast(Decode(raw));
    hide Decode, IsAddSub32, IsAddSub64, IsCompare, Compare, AddSub32, AddSub64, Shift32, Shift64, HiLoOp, Logic;
    hide IsLoad, IsStore, IsUnalignedLoad, IsUnalignedStore, Load, Store, Unaligned, IsShift32, IsShift64, IsHiLoOp;
    hide IsLogic;
  }

  /** The result of a logic instruction on its two operands. */
  function Combined(id: InstId, x: U64, y: U64): U64 {
    if id.KAnd? || id.KAndi? then And(x, y)
    else if id.KOr? || id.KOri? then Or64(x, y)
    else if id.KXor? || id.KXori? then Xor64(x, y)
    else 0xFFFF_FFFF_FFFF_FFFF - Or64(x, y)
  }

  lemma LogicIs(id: InstId, raw: U32, d: Data)
    requires IsLogic(id)
    ensures var x := d.gpr[Rs(raw)];
            Logic(id, raw, d)
            == if id.KLui? then ToRt(raw, d, Sext32(Imm(raw) * 0x1_0000))
               else if id.KAndi? || id.KOri? || id.KXori? then ToRt(raw, d, Combined(id, x, Imm(raw)))
               else ToRd(raw, d, Combined(id, x, d.gpr[Rt(raw)]))
  {
    hide Rs, Rt, Rd, Imm, And, Or64, Xor64, Sext32;
  }

  lemma CombinedBit(id: InstId, x: U64, y: U64, k: nat)
    requires IsLogic(id) && !id.KLui? && k < 64
    ensures Bit(Combined(id, x, y), k) <==> LogicBit(id, Bit(x, k), Bit(y, k))
  {
    WordSizes();
    hide Bit, And, Or, Xor, Pow2;
    BitOfAnd(x, y, k);
    BitOfOr(x, y, k);
    BitOfXor(x, y, k);
    BitOfNot(Or64(x, y), 64, k);
  }

  lemma CombinedBits(id: InstId, x: U64, y: U64)
    requires IsLogic(id) && !id.KLui?
    ensures forall k: nat :: k < 64 ==> (Bit(Combined(id, x, y), k) <==> LogicBit(id, Bit(x, k), Bit(y, k)))
  {
    hide *;
    forall k: nat | k < 64 ensures Bit(Combined(id, x, y), k) <==> LogicBit(id, Bit(x, k), Bit(y, k)) {
      CombinedBit(id, x, y, k);
    }
  }

  /** AND, OR, XOR and NOR combine the registers bit by bit. */
  lemma RegisterLogic(t: TlbView, strict: bool, i: Inst, d: Data) returns (v: U64)
    requires Valid(i) && i.Special? && IsLogic(i.id)
    ensures Gives(Compute(t, strict, Encode(i), d), d, i.rd, v)
    ensures forall k: nat :: k < 64 ==> (Bit(v, k) <==> LogicBit(i.id, Bit(d.gpr[i.rs], k), Bit(d.gpr[i.rt], k)))
  {
    SpecialFields(i);
    SpecialLogic(i);
    v := Combined(i.id, d.gpr[i.rs], d.gpr[i.rt]);
    ComputesLogic(t, strict, Encode(i), d);
    LogicIs(i.id, Encode(i), d);
    CombinedBits(i.id, d.gpr[i.rs], d.gpr[i.rt]);
    hide Encode, Decode, Rs, Rt, Rd, Shamt, Imm, Valid, Compute, Logic, Combined, LogicBit, Bit, IsLogic;
  }

  lemma SpecialLogic(i: Inst)
    requires Valid(i) && i.Special?
    ensures !i.id.KAndi? && !i.id.KOri? && !i.id.KXori? && !i.id.KLui?
  {
  }

  /** ANDI, ORI and XORI combine with the zero-extended immediate. */
  lemma ImmediateLogic(t: TlbView, strict: bool, i: Inst, d: Data) returns (v: U64)
    requires Valid(i) && i.Immediate? && (i.id.KAndi? || i.id.KOri? || i.id.KXori?)
    ensures Gives(Compute(t, strict, Encode(i), d), d, i.rt, v)
    ensures forall k: nat :: k < 64 ==> (Bit(v, k) <==> LogicBit(i.id, Bit(d.gpr[i.rs], k), Bit(i.imm, k)))
  {
    ImmediateFields(i);
    v := Combined(i.id, d.gpr[i.rs], i.imm);
    ComputesLogic(t, strict, Encode(i), d);
    LogicIs(i.id, Encode(i), d);
    CombinedBits(i.id, d.gpr[i.rs], i.imm);
    hide Encode, Decode, Rs, Rt, Rd, Imm, Valid, Compute, Logic, Combined, LogicBit, Bit;
  }

  /** LUI writes the signed immediate times 2^16. */
  lemma LoadUpper(t: TlbView, strict: bool, i: Inst, d: Data)
    requires Valid(i) && i.Immediate? && i.id.KLui?
    ensures Gives(Compute(t, strict, Encode(i), d), d, i.rt, Wrap64(Signed16(i.imm) * 0x1_0000))
  {
    ImmediateFields(i);
    ComputesLogic(t, strict, Encode(i), d);
    LogicIs(i.id, Encode(i), d);
    SextIsWrap(i.imm * 0x1_0000, Signed16(i.imm) * 0x1_0000);
    hide Encode, Decode, Rs, Rt, Rd, Imm, Valid, Compute, Logic, Wrap64, Sext32;
  }

  // ---------------------------------------------------------------- shifts, bit by bit

  predicate IsLeftShift(id: InstId) {
    id.KSll? || id.KSllv? || id.KDsll? || id.KDsllv? || id.KDsll32?
  }

  predicate IsSignedShift(id: InstId) {
    id.KSra? || id.KSrav? || id.KDsra? || id.KDsrav? || id.KDsra32?
  }

  /** 32 for the word forms, 64 for the doubleword forms. */
  function ShiftWidth(id: InstId): nat { if ShiftCode(id) != NO_CODE then 32 else 64 }

  predicate IsVariableShift(id: InstId) {
    id.KSllv? || id.KSrlv? || id.KSrav? || id.KDsllv? || id.KDsrlv? || id.KDsrav?
  }

  /** The amount: the low bits of the register, or the field, and 32 more for the forms that end in 32. */
  function Amount(id: InstId, x: U64, sa: RegIndex): nat {
    if IsVariableShift(id) then x % ShiftWidth(id)
    else if id.KDsll32? || id.KDsrl32? || id.KDsra32? then sa + 32
    else sa
  }

  /** Bit k of y shifted by n in a word of w bits. */
  predicate ShiftedBit(id: InstId, w: nat, y: nat, n: nat, k: nat)
    requires n < w
  {
    if IsLeftShift(id) then k >= n && Bit(y, k - n)
    else if k + n < w then Bit(y, k + n)
    else IsSignedShift(id) && Bit(y, w - 1)
  }

  /** A left shift within a word of w bits. */
  lemma LeftBits(y: nat, n: nat, w: nat, k: nat)
    ensures Bit(Low(y * Pow2(n), w), k) <==> k < w && k >= n && Bit(y, k - n)
  {
    BitOfLow(y * Pow2(n), w, k);
    BitOfParts(y, 0, n, k);
    NoBit(k);
    hide Bit, Low, Pow2;
  }

  /** A right shift of a word of w bits. */
  lemma RightBits(y: nat, n: nat, w: nat, k: nat)
    requires y < Pow2(w)
    ensures Bit(High(y, n), k) <==> k + n < w && Bit(y, k + n)
  {
    BitOfHigh(y, n, k);
    LowOfSmall(y, w);
    BitOfLow(y, w, k + n);
    hide Bit, Low, High, Pow2;
  }

  /** The quotient of y - pq, which is negative, rounded down. */
  lemma NegativeQuotient(y: nat, p: nat, q: nat)
    requires p > 0 && y < p * q
    ensures (y - p * q) / p == y / p - q && 0 <= y / p < q
  {
    NaturalDivision(y, p);
    Spread(p, y / p, q);
    assert (y / p - q) * p == y / p * p - p * q;
    FloorIs(y - p * q, p, y / p - q, y % p);
  }

  lemma FloorIs(v: int, m: nat, q: int, r: nat)
    requires m > 0 && v == q * m + r && r < m
    ensures v / m == q
  {
    var a, b := v / m, v % m;
    assert v == a * m + b && 0 <= b < m;
    assert (a - q) * m == a * m - q * m == r - b;
    assert (q - a) * m == q * m - a * m == b - r;
    if a > q { ProductGrows(m, a - q); }
    if q > a { ProductGrows(m, q - a); }
  }

  /** An arithmetic right shift of a word of w bits, written to a register. */
  lemma SignedBits(y: nat, n: nat, w: nat, k: nat)
    requires n < w <= 64 && y < Pow2(w) && k < 64
    ensures var z := if y < Pow2(w - 1) then y else y - Pow2(w);
            Bit(Wrap64(ShiftRightSigned(z, n)), k) <==> if k + n < w then Bit(y, k + n) else Bit(y, w - 1)
  {
    if y < Pow2(w - 1) { PositiveBits(y, n, w, k); } else { NegativeBits(y, n, w, k); }
    hide Bit, Pow2, Wrap64, ShiftRightSigned;
  }

  lemma PositiveBits(y: nat, n: nat, w: nat, k: nat)
    requires n < w <= 64 && y < Pow2(w - 1) && k < 64
    ensures Bit(Wrap64(ShiftRightSigned(y, n)), k) <==> if k + n < w then Bit(y, k + n) else Bit(y, w - 1)
  {
    Pow2Grows(w - 1, w);
    Pow2Grows(w, 64);
    WordSizes();
    TopBit(y, w - 1);
    RightBits(y, n, w, k);
    NaturalDivision(y, Pow2(n));
    assert High(y, n) == ShiftRightSigned(y, n);
    hide Bit, Pow2, Low, High, ShiftRightSigned;
    Wrap64Is(High(y, n), 0, High(y, n));
  }

  lemma NegativeShift(y: nat, n: nat, w: nat)
    requires n < w && y < Pow2(w)
    ensures High(y, n) < Pow2(w - n) && ShiftRightSigned(y - Pow2(w), n) == High(y, n) - Pow2(w - n)
  {
    PowAdd(n, w - n);
    var p, q := Pow2(n), Pow2(w - n);
    hide Pow2;
    NegativeQuotient(y, p, q);
  }

  lemma OnesWord(h: nat, q: nat, e: nat)
    requires h < q && e > 0 && q * e == 0x1_0000_0000_0000_0000
    ensures Wrap64(h - q) == (e - 1) * q + h
  {
    assert (e - 1) * q == q * e - q;
    ProductGrows(q, e);
    Wrap64Is(h - q, -1, (e - 1) * q + h);
  }

  /** Minus 2^m, modulo 2^64, sets the bits from m on. */
  lemma OnesAbove(h: nat, m: nat, k: nat)
    requires m <= 64 && h < Pow2(m) && k < 64
    ensures Bit(Wrap64(h - Pow2(m)), k) <==> k >= m || Bit(h, k)
  {
    hide *;
    PowAdd(m, 64 - m);
    WordSizes();
    var q, e := Pow2(m), Pow2(64 - m);
    OnesWord(h, q, e);
    BitOfParts(e - 1, h, m, k);
    if k >= m { BitOfOnes(64 - m, k - m); }
  }

  lemma NegativeBits(y: nat, n: nat, w: nat, k: nat)
    requires n < w <= 64 && Pow2(w - 1) <= y < Pow2(w) && k < 64
    ensures Bit(Wrap64(ShiftRightSigned(y - Pow2(w), n)), k)
            <==> if k + n < w then Bit(y, k + n) else Bit(y, w - 1)
  {
    hide *;
    TopBit(y, w - 1);
    RightBits(y, n, w, k);
    NegativeShift(y, n, w);
    OnesAbove(High(y, n), w - n, k);
  }

  // Each shift instruction on its operand and amount.

  function Shifted(id: InstId, y: U64, n: nat): U64 {
    var w := Low32(y);
    if id.KSll? || id.KSllv? then Sext32(Wrap32(w * Pow2(n)))
    else if id.KSrl? || id.KSrlv? then Sext32(Wrap32(w / Pow2(n)))
    else if id.KSra? || id.KSrav? then Wrap64(ShiftRightSigned(Signed32(w), n))
    else if id.KDsll? || id.KDsllv? || id.KDsll32? then Wrap64(y * Pow2(n))
    else if id.KDsrl? || id.KDsrlv? || id.KDsrl32? then Wrap64(y / Pow2(n))
    else Wrap64(ShiftRightSigned(Signed64(y), n))
  }

  lemma LowMod(x: U64)
    ensures Low32(x) % 32 == x % 32
  {
  }

  lemma Shift32Is(id: InstId, raw: U32, d: Data)
    requires IsShift32(id)
    ensures Shift32(id, raw, d)
            == ToRd(raw, d, Shifted(id, d.gpr[Rt(raw)], Amount(id, d.gpr[Rs(raw)], Shamt(raw))))
  {
    ShiftCodes(id);
    hide ShiftCode, WideShiftCode;
    LowMod(d.gpr[Rs(raw)]);
    hide Rs, Rt, Rd, Shamt, Low32, Signed32, Signed64, Wrap32, Wrap64, Sext32, Pow2, ShiftRightSigned;
  }

  lemma VariableShift64Is(id: InstId, raw: U32, d: Data)
    requires id.KDsllv? || id.KDsrlv? || id.KDsrav?
    ensures Shift64(id, raw, d)
            == ToRd(raw, d, Shifted(id, d.gpr[Rt(raw)], Amount(id, d.gpr[Rs(raw)], Shamt(raw))))
  {
    ShiftCodes(id);
    hide ShiftCode, WideShiftCode;
    hide Rs, Rt, Rd, Shamt, Low32, Signed32, Signed64, Wrap32, Wrap64, Sext32, Pow2, ShiftRightSigned;
  }

  lemma FixedShift64Is(id: InstId, raw: U32, d: Data)
    requires IsShift64(id) && !id.KDsllv? && !id.KDsrlv? && !id.KDsrav?
    ensures Shift64(id, raw, d)
            == ToRd(raw, d, Shifted(id, d.gpr[Rt(raw)], Amount(id, d.gpr[Rs(raw)], Shamt(raw))))
  {
    ShiftCodes(id);
    hide ShiftCode, WideShiftCode;
    hide Rs, Rt, Rd, Shamt, Low32, Signed32, Signed64, Wrap32, Wrap64, Sext32, Pow2, ShiftRightSigned;
  }

  lemma Shift64Is(id: InstId, raw: U32, d: Data)
    requires IsShift64(id)
    ensures Shift64(id, raw, d)
            == ToRd(raw, d, Shifted(id, d.gpr[Rt(raw)], Amount(id, d.gpr[Rs(raw)], Shamt(raw))))
  {
    hide *;
    if id.KDsllv? || id.KDsrlv? || id.KDsrav? { VariableShift64Is(id, raw, d); } else { FixedShift64Is(id, raw, d); }
  }

  lemma WordResult(v: U32, k: nat)
    requires k < 64
    ensures Bit(Sext32(v), k) <==> Bit(v, if k < 32 then k else 31)
  {
    BitOfSext(v, k);
  }

  lemma BitOfLow32(y: U64, k: nat)
    ensures Bit(Low32(y), k) <==> k < 32 && Bit(y, k)
  {
    LowIsWrap(y);
    BitOfLow(y, 32, k);
    hide Bit, Low;
  }

  /** The words are below their powers of two, and signed as SignedBits has it. */
  lemma SignedIs(y: U64)
    ensures var w := Low32(y);
            w < Pow2(32) && Signed32(w) == if w < Pow2(31) then w else w - Pow2(32)
    ensures y < Pow2(64) && Signed64(y) == if y < Pow2(63) then y else y - Pow2(64)
  {
    WordSizes();
    assert Pow2(32) == 2 * Pow2(31) && Pow2(64) == 2 * Pow2(63);
    hide Pow2, Low32;
  }

  predicate IsShift(id: InstId) { ShiftCode(id) != NO_CODE || WideShiftCode(id) != NO_CODE }

  lemma ShiftCodes(id: InstId)
    ensures ShiftCode(id) != NO_CODE <==> IsShift32(id)
    ensures WideShiftCode(id) != NO_CODE <==> IsShift64(id)
  {
  }

  /** The result's bit k, with bit 31 repeated above it by the word forms. */
  predicate ShowsShift(id: InstId, v: U64, y: U64, n: nat, k: nat)
    requires n < ShiftWidth(id)
  {
    var w := ShiftWidth(id);
    Bit(v, k) <==> ShiftedBit(id, w, y, n, if k < w then k else w - 1)
  }

  lemma WordLeft(y: U64, n: nat, k: nat)
    requires n < 32 && k < 64
    ensures var j := if k < 32 then k else 31;
            Bit(Sext32(Wrap32(Low32(y) * Pow2(n))), k) <==> j >= n && Bit(y, j - n)
  {
    hide *;
    var j := if k < 32 then k else 31;
    LowIsWrap(Low32(y) * Pow2(n));
    WordResult(Wrap32(Low32(y) * Pow2(n)), k);
    LeftBits(Low32(y), n, 32, j);
    if j >= n { BitOfLow32(y, j - n); }
  }

  lemma WordRight(y: U64, n: nat, k: nat)
    requires n < 32 && k < 64
    ensures var j := if k < 32 then k else 31;
            Bit(Sext32(Wrap32(Low32(y) / Pow2(n))), k) <==> j + n < 32 && Bit(y, j + n)
  {
    var j, w := if k < 32 then k else 31, Low32(y);
    NaturalDivision(w, Pow2(n));
    Wrap32Is(w / Pow2(n), 0, w / Pow2(n));
    WordResult(Wrap32(w / Pow2(n)), k);
    WordSizes();
    RightBits(w, n, 32, j);
    BitOfLow32(y, j + n);
    hide Bit, Sext32, Wrap32, Low32, Pow2;
  }

  lemma WordSigned(y: U64, n: nat, k: nat)
    requires n < 32 && k < 64
    ensures var j := if k < 32 then k else 31;
            Bit(Wrap64(ShiftRightSigned(Signed32(Low32(y)), n)), k) <==> Bit(y, if j + n < 32 then j + n else 31)
  {
    hide *;
    SignedIs(y);
    SignedBits(Low32(y), n, 32, k);
    BitOfLow32(y, k + n);
    BitOfLow32(y, 31);
  }

  lemma WordShift(id: InstId, y: U64, n: nat, k: nat)
    requires IsShift32(id) && n < 32 && n < ShiftWidth(id) && k < 64
    ensures ShowsShift(id, Shifted(id, y, n), y, n, k)
  {
    hide Bit, Pow2, Low32, Wrap32, Sext32, Wrap64, Signed32, Signed64, ShiftRightSigned, ShiftCode, WideShiftCode;
    ShiftCodes(id);
    WordLeft(y, n, k);
    WordRight(y, n, k);
    WordSigned(y, n, k);
  }

  lemma DoubleLeft(y: U64, n: nat, k: nat)
    requires n < 64 && k < 64
    ensures Bit(Wrap64(y * Pow2(n)), k) <==> k >= n && Bit(y, k - n)
  {
    hide *;
    LowIsWrap(y * Pow2(n));
    LeftBits(y, n, 64, k);
  }

  lemma DoubleRight(y: U64, n: nat, k: nat)
    requires n < 64 && k < 64
    ensures Bit(Wrap64(y / Pow2(n)), k) <==> k + n < 64 && Bit(y, k + n)
  {
    NaturalDivision(y, Pow2(n));
    WordSizes();
    hide Bit, Wrap64, Pow2;
    Wrap64Is(y / Pow2(n), 0, y / Pow2(n));
    RightBits(y, n, 64, k);
  }

  lemma DoubleSigned(y: U64, n: nat, k: nat)
    requires n < 64 && k < 64
    ensures Bit(Wrap64(ShiftRightSigned(Signed64(y), n)), k) <==> Bit(y, if k + n < 64 then k + n else 63)
  {
    hide *;
    SignedIs(y);
    SignedBits(y, n, 64, k);
  }

  lemma DoubleShift(id: InstId, y: U64, n: nat, k: nat)
    requires IsShift64(id) && n < 64 && n < ShiftWidth(id) && k < 64
    ensures ShowsShift(id, Shifted(id, y, n), y, n, k)
  {
    hide Bit, Pow2, Low32, Wrap32, Sext32, Wrap64, Signed32, Signed64, ShiftRightSigned;
    DoubleLeft(y, n, k);
    DoubleRight(y, n, k);
    DoubleSigned(y, n, k);
    DoubleIsNoWord(id);
    ShiftCodes(id);
    hide ShiftCode, WideShiftCode;
  }

  lemma DoubleIsNoWord(id: InstId)
    requires IsShift64(id)
    ensures !IsShift32(id)
  {
  }

  lemma AmountFits(id: InstId, x: U64, sa: RegIndex)
    requires IsShift(id)
    ensures Amount(id, x, sa) < ShiftWidth(id)
  {
    ShiftCodes(id);
    hide ShiftCode, WideShiftCode;
  }

  lemma ShiftShows(id: InstId, y: U64, n: nat)
    requires IsShift(id) && n < ShiftWidth(id)
    ensures forall k: nat :: k < 64 ==> ShowsShift(id, Shifted(id, y, n), y, n, k)
  {
    hide Shifted, ShowsShift, IsShift32, IsShift64, ShiftCode, WideShiftCode;
    ShiftCodes(id);
    forall k: nat | k < 64 ensures ShowsShift(id, Shifted(id, y, n), y, n, k) {
      if IsShift32(id) { WordShift(id, y, n, k); } else { DoubleShift(id, y, n, k); }
    }
  }

  lemma Shift32Kind(id: InstId)
    requires IsShift32(id)
    ensures !IsAddSub32(id) && !IsAddSub64(id) && !IsCompare(id)
  {
  }

  lemma Shift64Kind(id: InstId)
    requires IsShift64(id)
    ensures !IsAddSub32(id) && !IsAddSub64(id) && !IsCompare(id)
  {
  }

  lemma Shift32IsNotMemory(id: InstId)
    requires IsShift32(id)
    ensures !IsMemoryOp(id)
  {
  }

  lemma Shift64IsNotMemory(id: InstId)
    requires IsShift64(id)
    ensures !IsMemoryOp(id)
  {
  }

  lemma ComputesShift(t: TlbView, strict: bool, raw: U32, d: Data)
    requires IsShift(Decode(raw))
    ensures var id := Decode(raw);
            Compute(t, strict, raw, d)
            == ToRd(raw, d, Shifted(id, d.gpr[Rt(raw)], Amount(id, d.gpr[Rs(raw)], Shamt(raw))))
  {
    var id := Decode(raw);
    ShiftCodes(id);
    if IsShift32(id) {
      Shift32Kind(id);
      Shift32IsNotMemory(id);
      Shift32Is(id, raw, d);
    } else {
      Shift64Kind(id);
      Shift64IsNotMemory(id);
      Shift64Is(id, raw, d);
    }
    hide Decode, IsAddSub32, IsAddSub64, IsCompare, Compare, AddSub32, AddSub64, Shift32, Shift64, HiLoOp, Logic;
    hide IsLoad, IsStore, IsUnalignedLoad, IsUnalignedStore, Load, Store, Unaligned, IsShift32, IsShift64, IsHiLoOp;
    hide Shifted, Amount, ToRd, ShiftCode, WideShiftCode;
  }

  /** Every bit of what a shift writes is the bit of rt that the direction, the width and the amount select. */
  lemma Shift(t: TlbView, strict: bool, i: Inst, d: Data) returns (v: U64)
    requires Valid(i) && i.Special? && IsShift(i.id)
    ensures Gives(Compute(t, strict, Encode(i), d), d, i.rd, v)
    ensures var n := Amount(i.id, d.gpr[i.rs], i.sa);
            n < ShiftWidth(i.id) && forall k: nat :: k < 64 ==> ShowsShift(i.id, v, d.gpr[i.rt], n, k)
  {
    hide *;
    SpecialFields(i);
    ComputesShift(t, strict, Encode(i), d);
    var n := Amount(i.id, d.gpr[i.rs], i.sa);
    AmountFits(i.id, d.gpr[i.rs], i.sa);
    v := Shifted(i.id, d.gpr[i.rt], n);
    ShiftShows(i.id, d.gpr[i.rt], n);
    ToRdGives(Encode(i), d, v);
  }

  lemma ToRdGives(raw: U32, d: Data, v: U64)
    ensures Gives(ToRd(raw, d, v), d, Rd(raw), v)
  {
  }

  // ---------------------------------------------------------------- instructions without a handler

  predicate HasNoHandler(id: InstId) { id.KUnknown? || id.KLl? || id.KLld? || id.KSc? || id.KScd? }

  lemma NoHandlerKind(id: InstId)
    requires HasNoHandler(id)
    ensures !IsAddSub32(id) && !IsAddSub64(id) && !IsCompare(id) && !IsShift32(id) && !IsShift64(id)
    ensures !IsHiLoOp(id) && !IsMemoryOp(id)
  {
  }

  lemma NoHandlerLogic(id: InstId, raw: U32, d: Data)
    requires HasNoHandler(id)
    ensures Logic(id, raw, d) == Fatal
  {
    hide Rs, Rt, Rd, Imm, And, Or64, Xor64, Sext32;
  }

  /** Unknown words, LL, LLD, SC and SCD end the run. */
  lemma NoHandler(t: TlbView, strict: bool, raw: U32, d: Data)
    requires Decode(raw).KUnknown? || Op(raw) in {48, 52, 56, 60}
    ensures Compute(t, strict, raw, d) == Fatal
  {
    OtherIs(raw);
    hide Decode, Op;
    NoHandlerKind(Decode(raw));
    NoHandlerLogic(Decode(raw), raw, d);
    hide IsAddSub32, IsAddSub64, IsCompare, Compare, AddSub32, AddSub64, Shift32, Shift64, HiLoOp, Logic;
    hide IsLoad, IsStore, IsUnalignedLoad, IsUnalignedStore, Load, Store, Unaligned, IsShift32, IsShift64, IsHiLoOp;
    hide HasNoHandler;
  }
}
