/**
 * The instruction handlers that only compute on registers, HI/LO and memory (src/mips_base.cpp:1448-2940):
 * integer ALU, shifts, multiply and divide, loads and stores of the 64-bit, big-endian configuration.
 */
module Handlers {
  import opened Words
  import opened Decoder
  import opened Tlb
  import opened Arith
  import opened Memory

  type Regs = s: seq<U64> | |s| == 32 witness seq(32, i => 0)

  datatype Data = Data(gpr: Regs, hi: U64, lo: U64, mem: Mem)

  datatype Cause = Interrupt | AddressLoad | AddressStore | Syscall | Breakpoint | CopUnusable | Overflow

  function CauseCode(c: Cause): int {
    match c
    case Interrupt => 0
    case AddressLoad => 4
    case AddressStore => 5
    case Syscall => 8
    case Breakpoint => 9
    case CopUnusable => 11
    case Overflow => 12
  }

  /** A handler completes, raises an exception (with a bad address), or ends in PANIC. */
  datatype Outcome = Done(data: Data) | Raise(cause: Cause, bad: Option<U64>) | Fatal

  /** Register 0 is never written. */
  function SetReg(gpr: Regs, i: RegIndex, v: U64): Regs {
    if i == 0 then gpr else gpr[i := v]
  }

  function ImmSigned(raw: U32): int { Signed16(Imm(raw)) }

  /** base + sign-extended offset. */
  function Address(raw: U32, gpr: Regs): U64 {
    Wrap64(gpr[Rs(raw)] + ImmSigned(raw))
  }

  function ToRd(raw: U32, d: Data, v: U64): Outcome {
    Done(d.(gpr := SetReg(d.gpr, Rd(raw), v)))
  }

  function ToRt(raw: U32, d: Data, v: U64): Outcome {
    Done(d.(gpr := SetReg(d.gpr, Rt(raw), v)))
  }

  function ToHiLo(d: Data, r: HiLo): Outcome {
    Done(d.(hi := r.hi, lo := r.lo))
  }

  function Flag(b: bool): U64 { if b then 1 else 0 }

  function ShiftRightSigned(x: int, k: nat): int { x / Pow2(k) }

  /** A trapping or wrapping add or subtract: overflow raises an exception and writes nothing. */
  function OrTrap(trap: bool, d: Data, dst: RegIndex, v: U64): Outcome {
    if trap then Raise(Overflow, None) else Done(d.(gpr := SetReg(d.gpr, dst, v)))
  }

  function AddSub32(id: InstId, raw: U32, d: Data): Outcome {
    var rs, rt := Low32(d.gpr[Rs(raw)]), Low32(d.gpr[Rt(raw)]);
    var imm := Wrap32(ImmSigned(raw));
    match id
    case KAdd => OrTrap(OverflowAdd32(Wrap32(rs + rt), rs, rt), d, Rd(raw), Sext32(Wrap32(rs + rt)))
    case KAddu => ToRd(raw, d, Sext32(Wrap32(rs + rt)))
    case KAddi => OrTrap(OverflowAdd32(Wrap32(rs + imm), rs, imm), d, Rt(raw), Sext32(Wrap32(rs + imm)))
    case KAddiu => ToRt(raw, d, Sext32(Wrap32(rs + imm)))
    case KSub => OrTrap(OverflowSub32(Wrap32(rs - rt), rs, rt), d, Rd(raw), Sext32(Wrap32(rs - rt)))
    case KSubu => ToRd(raw, d, Sext32(Wrap32(rs - rt)))
    case _ => Fatal
  }

  function AddSub64(id: InstId, raw: U32, d: Data): Outcome {
    var rs, rt := d.gpr[Rs(raw)], d.gpr[Rt(raw)];
    var imm := Wrap64(ImmSigned(raw));
    match id
    case KDadd => OrTrap(OverflowAdd64(Wrap64(rs + rt), rs, rt), d, Rd(raw), Wrap64(rs + rt))
    case KDaddu => ToRd(raw, d, Wrap64(rs + rt))
    case KDaddi => OrTrap(OverflowAdd64(Wrap64(rs + imm), rs, imm), d, Rt(raw), Wrap64(rs + imm))
    case KDaddiu => ToRt(raw, d, Wrap64(rs + imm))
    case KDsub => OrTrap(OverflowSub64(Wrap64(rs - rt), rs, rt), d, Rd(raw), Wrap64(rs - rt))
    case KDsubu => ToRd(raw, d, Wrap64(rs - rt))
    case _ => Fatal
  }

  function Logic(id: InstId, raw: U32, d: Data): Outcome {
    var rs, rt := d.gpr[Rs(raw)], d.gpr[Rt(raw)];
    match id
    case KAnd => ToRd(raw, d, And(rs, rt))
    case KAndi => ToRt(raw, d, And(rs, Imm(raw)))
    case KOr => ToRd(raw, d, Or64(rs, rt))
    case KOri => ToRt(raw, d, Or64(rs, Imm(raw)))
    case KXor => ToRd(raw, d, Xor64(rs, rt))
    case KXori => ToRt(raw, d, Xor64(rs, Imm(raw)))
    case KNor => ToRd(raw, d, 0xFFFF_FFFF_FFFF_FFFF - Or64(rs, rt))
    case KLui => ToRt(raw, d, Sext32(Imm(raw) * 0x1_0000))
    case _ => Fatal
  }

  function Compare(id: InstId, raw: U32, d: Data): Outcome {
    var rs, rt := d.gpr[Rs(raw)], d.gpr[Rt(raw)];
    match id
    case KSlt => ToRd(raw, d, Flag(Signed64(rs) < Signed64(rt)))
    case KSltu => ToRd(raw, d, Flag(rs < rt))
    case KSlti => ToRt(raw, d, Flag(Signed64(rs) < ImmSigned(raw)))
    case KSltiu => ToRt(raw, d, Flag(rs < Wrap64(ImmSigned(raw))))
    case _ => Fatal
  }

  function Shift32(id: InstId, raw: U32, d: Data): Outcome {
    var rs, rt := Low32(d.gpr[Rs(raw)]), Low32(d.gpr[Rt(raw)]);
    match id
    case KSll => ToRd(raw, d, Sext32(Wrap32(rt * Pow2(Shamt(raw)))))
    case KSllv => ToRd(raw, d, Sext32(Wrap32(rt * Pow2(rs % 32))))
    case KSrl => ToRd(raw, d, Sext32(Wrap32(rt / Pow2(Shamt(raw)))))
    case KSrlv => ToRd(raw, d, Sext32(Wrap32(rt / Pow2(rs % 32))))
    case KSra => ToRd(raw, d, Wrap64(ShiftRightSigned(Signed32(rt), Shamt(raw))))
    case KSrav => ToRd(raw, d, Wrap64(ShiftRightSigned(Signed32(rt), rs % 32)))
    case _ => Fatal
  }

  function Shift64(id: InstId, raw: U32, d: Data): Outcome {
    var rs, rt := d.gpr[Rs(raw)], d.gpr[Rt(raw)];
    match id
    case KDsll => ToRd(raw, d, Wrap64(rt * Pow2(Shamt(raw))))
    case KDsll32 => ToRd(raw, d, Wrap64(rt * Pow2(Shamt(raw) + 32)))
    case KDsllv => ToRd(raw, d, Wrap64(rt * Pow2(rs % 64)))
    case KDsrl => ToRd(raw, d, Wrap64(rt / Pow2(Shamt(raw))))
    case KDsrl32 => ToRd(raw, d, Wrap64(rt / Pow2(Shamt(raw) + 32)))
    case KDsrlv => ToRd(raw, d, Wrap64(rt / Pow2(rs % 64)))
    case KDsra => ToRd(raw, d, Wrap64(ShiftRightSigned(Signed64(rt), Shamt(raw))))
    case KDsra32 => ToRd(raw, d, Wrap64(ShiftRightSigned(Signed64(rt), Shamt(raw) + 32)))
    case KDsrav => ToRd(raw, d, Wrap64(ShiftRightSigned(Signed64(rt), rs % 64)))
    case _ => Fatal
  }

  /** Multiplication, division and the moves from and to HI and LO. */
  function HiLoOp(id: InstId, raw: U32, d: Data): Outcome {
    var rs, rt := d.gpr[Rs(raw)], d.gpr[Rt(raw)];
    match id
    case KMult => ToHiLo(d, Mult(Low32(rs), Low32(rt)))
    case KMultu => ToHiLo(d, Multu(Low32(rs), Low32(rt)))
    case KDiv => ToHiLo(d, Div(Low32(rs), Low32(rt)))
    case KDivu => ToHiLo(d, Divu(Low32(rs), Low32(rt)))
    case KDmult => ToHiLo(d, Dmult(rs, rt))
    case KDmultu => ToHiLo(d, Dmultu(rs, rt))
    case KDdiv => ToHiLo(d, Ddiv(rs, rt))
    case KDdivu => ToHiLo(d, Ddivu(rs, rt))
    case KMfhi => ToRd(raw, d, d.hi)
    case KMflo => ToRd(raw, d, d.lo)
    case KMthi => Done(d.(hi := rs))
    case KMtlo => Done(d.(lo := rs))
    case _ => Fatal
  }

  /** Alignment is checked first; a TLB miss panics. */
  function LoadWord(t: TlbView, strict: bool, raw: U32, d: Data, n: nat): (r: (Outcome, nat))
    requires n > 0
    ensures r.0.Done? ==> r.1 < Pow256(n)
  {
    var a := Address(raw, d.gpr);
    if strict && a % n != 0 then (Raise(AddressLoad, Some(a)), 0)
    else
      match LoadN(t, d.mem, a, n)
      case None => (Fatal, 0)
      case Some(v) => (Done(d), v)
  }

  function Load(t: TlbView, strict: bool, id: InstId, raw: U32, d: Data): Outcome {
    match id
    case KLb => var (o, v) := LoadWord(t, false, raw, d, 1); if o.Done? then ToRt(raw, d, Wrap64(Signed8(v))) else o
    case KLbu => var (o, v) := LoadWord(t, false, raw, d, 1); if o.Done? then ToRt(raw, d, v) else o
    case KLh => var (o, v) := LoadWord(t, strict, raw, d, 2); if o.Done? then ToRt(raw, d, Wrap64(Signed16(v))) else o
    case KLhu => var (o, v) := LoadWord(t, strict, raw, d, 2); if o.Done? then ToRt(raw, d, v) else o
    case KLw => var (o, v) := LoadWord(t, strict, raw, d, 4); if o.Done? then ToRt(raw, d, Sext32(v)) else o
    case KLwu => var (o, v) := LoadWord(t, strict, raw, d, 4); if o.Done? then ToRt(raw, d, v) else o
    case KLd => var (o, v) := LoadWord(t, strict, raw, d, 8); if o.Done? then ToRt(raw, d, v) else o
    case _ => Fatal
  }

  function StoreWord(t: TlbView, strict: bool, raw: U32, d: Data, n: nat): Outcome
    requires n > 0
  {
    var a := Address(raw, d.gpr);
    if strict && a % n != 0 then Raise(AddressStore, Some(a))
    else
      match StoreN(t, d.mem, a, d.gpr[Rt(raw)], n)
      case None => Fatal
      case Some(m) => Done(d.(mem := m))
  }

  function Store(t: TlbView, strict: bool, id: InstId, raw: U32, d: Data): Outcome {
    match id
    case KSb => StoreWord(t, false, raw, d, 1)
    case KSh => StoreWord(t, strict, raw, d, 2)
    case KSw => StoreWord(t, strict, raw, d, 4)
    case KSd => StoreWord(t, strict, raw, d, 8)
    case _ => Fatal
  }

  function FromLoad(raw: U32, d: Data, r: Option<nat>, w: nat): Outcome
    requires r.Some? ==> r.value < Pow256(w)
    requires w == 4 || w == 8
  {
    match r
    case None => Fatal
    case Some(v) => ToRt(raw, d, if w == 4 then Sext32(v) else v)
  }

  function FromStore(d: Data, r: Option<Mem>): Outcome {
    match r
    case None => Fatal
    case Some(m) => Done(d.(mem := m))
  }

  predicate IsUnalignedLoad(id: InstId) {
    id.KLwl? || id.KLwr? || id.KLdl? || id.KLdr?
  }

  predicate IsUnalignedStore(id: InstId) {
    id.KSwl? || id.KSwr? || id.KSdl? || id.KSdr?
  }

  /** 4 for the word forms, 8 for the doubleword forms. */
  function Width(id: InstId): nat {
    if id.KLwl? || id.KLwr? || id.KSwl? || id.KSwr? then 4 else 8
  }

  function Operand(id: InstId, v: U64): U64 {
    if Width(id) == 4 then Low32(v) else v
  }

  /** LWL, LWR, LDL and LDR: the register operand with the loaded bytes merged in. */
  function Merged(t: TlbView, id: InstId, mem: Mem, a: U64, v: U64): (r: Option<nat>)
    requires IsUnalignedLoad(id)
    ensures r.Some? ==> r.value < Pow256(Width(id))
  {
    if id.KLwl? || id.KLdl? then LoadLeft(t, mem, a, Operand(id, v), Width(id), 0)
    else LoadRight(t, mem, a, Operand(id, v), Width(id), 0)
  }

  /** SWL, SWR, SDL and SDR: the memory with the operand's bytes written. */
  function Scattered(t: TlbView, id: InstId, mem: Mem, a: U64, v: U64): Option<Mem>
    requires IsUnalignedStore(id)
  {
    if id.KSwl? || id.KSdl? then StoreLeft(t, mem, a, Operand(id, v), Width(id), 0)
    else StoreRight(t, mem, a, Operand(id, v), Width(id), 0)
  }

  function Unaligned(t: TlbView, id: InstId, raw: U32, d: Data): Outcome
    requires IsUnalignedLoad(id) || IsUnalignedStore(id)
  {
    var a, v := Address(raw, d.gpr), d.gpr[Rt(raw)];
    if IsUnalignedLoad(id) then FromLoad(raw, d, Merged(t, id, d.mem, a, v), Width(id))
    else FromStore(d, Scattered(t, id, d.mem, a, v))
  }

  predicate IsLoad(id: InstId) {
    id.KLb? || id.KLbu? || id.KLh? || id.KLhu? || id.KLw? || id.KLwu? || id.KLd?
  }

  predicate IsStore(id: InstId) {
    id.KSb? || id.KSh? || id.KSw? || id.KSd?
  }

  predicate IsAddSub32(id: InstId) {
    id.KAdd? || id.KAddi? || id.KSub? || id.KAddu? || id.KAddiu? || id.KSubu?
  }

  predicate IsAddSub64(id: InstId) {
    id.KDadd? || id.KDaddi? || id.KDsub? || id.KDaddu? || id.KDaddiu? || id.KDsubu?
  }

  predicate IsCompare(id: InstId) {
    id.KSlt? || id.KSltu? || id.KSlti? || id.KSltiu?
  }

  predicate IsShift32(id: InstId) {
    id.KSll? || id.KSllv? || id.KSrl? || id.KSrlv? || id.KSra? || id.KSrav?
  }

  predicate IsShift64(id: InstId) {
    || id.KDsll? || id.KDsll32? || id.KDsllv? || id.KDsrl? || id.KDsrl32? || id.KDsrlv?
    || id.KDsra? || id.KDsra32? || id.KDsrav?
  }

  predicate IsHiLoOp(id: InstId) {
    || id.KMult? || id.KMultu? || id.KDiv? || id.KDivu? || id.KDmult? || id.KDmultu? || id.KDdiv?
    || id.KDdivu? || id.KMfhi? || id.KMflo? || id.KMthi? || id.KMtlo?
  }

  /** LL, SC and unknown opcodes end in PANIC. */
  function Alu(id: InstId, raw: U32, d: Data): Outcome {
    if IsAddSub32(id) then AddSub32(id, raw, d)
    else if IsAddSub64(id) then AddSub64(id, raw, d)
    else if IsCompare(id) then Compare(id, raw, d)
    else if IsShift32(id) then Shift32(id, raw, d)
    else if IsShift64(id) then Shift64(id, raw, d)
    else if IsHiLoOp(id) then HiLoOp(id, raw, d)
    else Logic(id, raw, d)
  }

  /** The handler table for everything that neither branches nor touches a coprocessor. */
  function Compute(t: TlbView, strict: bool, raw: U32, d: Data): Outcome {
    var id := Decode(raw);
    if IsUnalignedLoad(id) || IsUnalignedStore(id) then Unaligned(t, id, raw, d)
    else if IsLoad(id) then Load(t, strict, id, raw, d)
    else if IsStore(id) then Store(t, strict, id, raw, d)
    else Alu(id, raw, d)
  }
}
