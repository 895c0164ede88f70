/**
 * The instruction formats as numbers, and the decoder's law: decoding gives back the identifier and the fields
 * of every encoded instruction, and the unknown words are exactly those that no instruction encodes to.
 */
module Encoding {
  import opened Words
  import opened Decoder

  /** An instruction with its free fields; `rest` and `hint` are bits the decoder does not look at. */
  datatype Inst =
    | Special(id: InstId, rs: RegIndex, rt: RegIndex, rd: RegIndex, sa: RegIndex)
    | RegImm(id: InstId, rs: RegIndex, hint: int, imm: U16)
    | Target(id: InstId, target: int)
    | Immediate(id: InstId, rs: RegIndex, rt: RegIndex, imm: U16)
    | CopMove(id: InstId, cop: int, rt: RegIndex, rd: RegIndex, rest: int)
    | CopBranch(id: InstId, cop: int, imm: U16)
    | CopCommand(cop: int, code: RegIndex, rest: int)
    | CopMemory(id: InstId, cop: int, rs: RegIndex, rt: RegIndex, imm: U16)

  const NO_CODE := -1

  // ---------------------------------------------------------------- the function field of opcode 0

  function ShiftCode(id: InstId): (code: int)
    ensures NO_CODE <= code < 64
  {
    if id.KSll? then 0 else if id.KSrl? then 2 else if id.KSra? then 3
    else if id.KSllv? then 4 else if id.KSrlv? then 6 else if id.KSrav? then 7
    else NO_CODE
  }

  function WideShiftCode(id: InstId): (code: int)
    ensures NO_CODE <= code < 64
  {
    if id.KDsllv? then 20 else if id.KDsrlv? then 22 else if id.KDsrav? then 23
    else if id.KDsll? then 56 else if id.KDsrl? then 58 else if id.KDsra? then 59
    else if id.KDsll32? then 60 else if id.KDsrl32? then 62 else if id.KDsra32? then 63
    else NO_CODE
  }

  function ControlCode(id: InstId): (code: int)
    ensures NO_CODE <= code < 64
  {
    if id.KNop? then 0 else if id.KJr? then 8 else if id.KJalr? then 9
    else if id.KSyscall? then 12 else if id.KBreak? then 13 else if id.KSync? then 15
    else NO_CODE
  }

  function HiLoCode(id: InstId): (code: int)
    ensures NO_CODE <= code < 64
  {
    if id.KMfhi? then 16 else if id.KMthi? then 17 else if id.KMflo? then 18 else if id.KMtlo? then 19
    else if id.KMult? then 24 else if id.KMultu? then 25 else if id.KDiv? then 26 else if id.KDivu? then 27
    else if id.KDmult? then 28 else if id.KDmultu? then 29 else if id.KDdiv? then 30 else if id.KDdivu? then 31
    else NO_CODE
  }

  function ArithmeticCode(id: InstId): (code: int)
    ensures NO_CODE <= code < 64
  {
    if id.KAdd? then 32 else if id.KAddu? then 33 else if id.KSub? then 34 else if id.KSubu? then 35
    else if id.KSlt? then 42 else if id.KSltu? then 43
    else if id.KDadd? then 44 else if id.KDaddu? then 45 else if id.KDsub? then 46 else if id.KDsubu? then 47
    else NO_CODE
  }

  function LogicCode(id: InstId): (code: int)
    ensures NO_CODE <= code < 64
  {
    if id.KAnd? then 36 else if id.KOr? then 37 else if id.KXor? then 38 else if id.KNor? then 39
    else NO_CODE
  }

  /** The function field, from the group of the instruction. */
  function SpecialCode(id: InstId): (code: int)
    ensures NO_CODE <= code < 64
  {
    if ShiftCode(id) != NO_CODE then ShiftCode(id)
    else if WideShiftCode(id) != NO_CODE then WideShiftCode(id)
    else if ControlCode(id) != NO_CODE then ControlCode(id)
    else if HiLoCode(id) != NO_CODE then HiLoCode(id)
    else if ArithmeticCode(id) != NO_CODE then ArithmeticCode(id)
    else LogicCode(id)
  }

  // ---------------------------------------------------------------- the opcode field

  function BranchCode(id: InstId): (code: int)
    ensures NO_CODE <= code < 64
  {
    if id.KBeq? then 4 else if id.KBne? then 5 else if id.KBlez? then 6 else if id.KBgtz? then 7
    else if id.KBeql? then 20 else if id.KBnel? then 21 else if id.KBlezl? then 22 else if id.KBgtzl? then 23
    else NO_CODE
  }

  function ImmediateCode(id: InstId): (code: int)
    ensures NO_CODE <= code < 64
  {
    if id.KAddi? then 8 else if id.KAddiu? then 9 else if id.KSlti? then 10 else if id.KSltiu? then 11
    else if id.KAndi? then 12 else if id.KOri? then 13 else if id.KXori? then 14 else if id.KLui? then 15
    else if id.KDaddi? then 24 else if id.KDaddiu? then 25
    else NO_CODE
  }

  function LoadCode(id: InstId): (code: int)
    ensures NO_CODE <= code < 64
  {
    if id.KLb? then 32 else if id.KLh? then 33 else if id.KLw? then 35 else if id.KLbu? then 36
    else if id.KLhu? then 37 else if id.KLwu? then 39 else if id.KLd? then 55
    else NO_CODE
  }

  function StoreCode(id: InstId): (code: int)
    ensures NO_CODE <= code < 64
  {
    if id.KSb? then 40 else if id.KSh? then 41 else if id.KSw? then 43 else if id.KSd? then 63
    else NO_CODE
  }

  function UnalignedCode(id: InstId): (code: int)
    ensures NO_CODE <= code < 64
  {
    if id.KLdl? then 26 else if id.KLdr? then 27 else if id.KLwl? then 34 else if id.KLwr? then 38
    else if id.KSwl? then 42 else if id.KSdl? then 44 else if id.KSdr? then 45 else if id.KSwr? then 46
    else NO_CODE
  }

  function OtherCode(id: InstId): (code: int)
    ensures NO_CODE <= code < 64
  {
    if id.KCache? then 47 else if id.KLl? then 48 else if id.KLld? then 52 else if id.KSc? then 56
    else if id.KScd? then 60
    else NO_CODE
  }

  /** The opcode of an instruction that has one of its own. */
  function PrimaryCode(id: InstId): (code: int)
    ensures NO_CODE <= code < 64
  {
    if BranchCode(id) != NO_CODE then BranchCode(id)
    else if ImmediateCode(id) != NO_CODE then ImmediateCode(id)
    else if LoadCode(id) != NO_CODE then LoadCode(id)
    else if StoreCode(id) != NO_CODE then StoreCode(id)
    else if UnalignedCode(id) != NO_CODE then UnalignedCode(id)
    else OtherCode(id)
  }

  /** The rt field of opcode 1, bits 18 and 19 apart. */
  function RegImmCode(id: InstId): int {
    if id.KBltz? then 0 else if id.KBgez? then 1 else if id.KBltzl? then 2 else if id.KBgezl? then 3
    else if id.KBltzal? then 16 else if id.KBgezal? then 17 else if id.KBltzall? then 18 else if id.KBgezall? then 19
    else NO_CODE
  }

  function TargetCode(id: InstId): int {
    if id.KJ? then 2 else if id.KJal? then 3 else NO_CODE
  }

  /** The rs field of a move of a coprocessor. */
  function MoveCode(id: InstId): int {
    if id.KMfc? then 0 else if id.KDmfc? then 1 else if id.KCfc? then 2
    else if id.KMtc? then 4 else if id.KDmtc? then 5 else if id.KCtc? then 6
    else NO_CODE
  }

  /** The rt field of a coprocessor branch. */
  function CopBranchCode(id: InstId): int {
    if id.KBcf? then 0 else if id.KBct? then 1 else if id.KBcfl? then 2 else if id.KBctl? then 3
    else NO_CODE
  }

  /** The opcode of a coprocessor load or store, less the coprocessor's number. */
  function CopMemoryCode(id: InstId): int {
    if id.KLwc? then 48 else if id.KLdc? then 52 else if id.KSwc? then 56 else if id.KSdc? then 60
    else NO_CODE
  }

  // ---------------------------------------------------------------- the encoder

  /** The fields an instruction may have. */
  predicate Valid(i: Inst) {
    match i
    case Special(id, _, _, rd, sa) =>
      && SpecialCode(id) != NO_CODE
      && (id.KNop? || id.KSync? ==> rd == 0 && sa == 0) && (id.KSll? ==> rd != 0 || sa != 0)
    case RegImm(id, _, hint, _) => RegImmCode(id) != NO_CODE && 0 <= hint < 4
    case Target(id, target) => TargetCode(id) != NO_CODE && 0 <= target < 0x400_0000
    case Immediate(id, _, _, _) => PrimaryCode(id) != NO_CODE
    case CopMove(id, cop, _, _, rest) => MoveCode(id) != NO_CODE && 0 <= cop < 4 && 0 <= rest < 0x800
    case CopBranch(id, cop, _) => CopBranchCode(id) != NO_CODE && 0 <= cop < 4
    case CopCommand(cop, code, rest) =>
      0 <= cop < 4 && (code == 3 || code == 7 || code > 8) && 0 <= rest < 0x20_0000
    case CopMemory(id, cop, _, _, _) => CopMemoryCode(id) != NO_CODE && 1 <= cop < 3
  }

  function Pack(op: int, rs: int, rt: int, low: int): int {
    op * 0x400_0000 + rs * 0x20_0000 + rt * 0x1_0000 + low
  }

  /** The word of an instruction. */
  function Encode(i: Inst): (raw: U32)
    requires Valid(i)
  {
    match i
    case Special(id, rs, rt, rd, sa) => Pack(0, rs, rt, rd * 0x800 + sa * 0x40 + SpecialCode(id))
    case RegImm(id, rs, hint, imm) => Pack(1, rs, RegImmCode(id) + 4 * hint, imm)
    case Target(id, target) => TargetCode(id) * 0x400_0000 + target
    case Immediate(id, rs, rt, imm) => Pack(PrimaryCode(id), rs, rt, imm)
    case CopMove(id, cop, rt, rd, rest) => Pack(16 + cop, MoveCode(id), rt, rd * 0x800 + rest)
    case CopBranch(id, cop, imm) => Pack(16 + cop, 8, CopBranchCode(id), imm)
    case CopCommand(cop, code, rest) => (16 + cop) * 0x400_0000 + code * 0x20_0000 + rest
    case CopMemory(id, cop, rs, rt, imm) => Pack(CopMemoryCode(id) + cop, rs, rt, imm)
  }

  function IdOf(i: Inst): InstId {
    if i.CopCommand? then KCop else i.id
  }

  // ---------------------------------------------------------------- fields of a packed word

  lemma Split32(q: int, r: int)
    requires 0 <= r < 32
    ensures (q * 32 + r) / 32 == q && (q * 32 + r) % 32 == r
  {
  }

  lemma Split16(q: int, r: int)
    requires 0 <= r < 16
    ensures (q * 16 + r) / 16 == q
  {
  }

  lemma Split40(q: int, r: int)
    requires 0 <= r < 0x40
    ensures (q * 0x40 + r) / 0x40 == q && (q * 0x40 + r) % 0x40 == r
  {
  }

  lemma Split800(q: int, r: int)
    requires 0 <= r < 0x800
    ensures (q * 0x800 + r) / 0x800 == q && (q * 0x800 + r) % 0x800 == r
  {
  }

  lemma SplitHalf(q: int, r: int)
    requires 0 <= r < 0x1_0000
    ensures (q * 0x1_0000 + r) / 0x1_0000 == q && (q * 0x1_0000 + r) % 0x1_0000 == r
  {
  }

  lemma SplitRs(q: int, r: int)
    requires 0 <= r < 0x20_0000
    ensures (q * 0x20_0000 + r) / 0x20_0000 == q && (q * 0x20_0000 + r) % 0x20_0000 == r
  {
  }

  lemma SplitOp(q: int, r: int)
    requires 0 <= r < 0x400_0000
    ensures (q * 0x400_0000 + r) / 0x400_0000 == q && (q * 0x400_0000 + r) % 0x400_0000 == r
  {
  }

  lemma Packed(op: int, rs: int, rt: int, low: int)
    requires 0 <= op < 64 && 0 <= rs < 32 && 0 <= rt < 32 && 0 <= low < 0x1_0000
    ensures var raw := Pack(op, rs, rt, low);
            0 <= raw < 0x1_0000_0000 && Op(raw) == op && Rs(raw) == rs && Rt(raw) == rt && Imm(raw) == low
  {
    SplitHalf(op * 0x400 + rs * 32 + rt, low);
    Split32(op * 32 + rs, rt);
    SplitRs(op * 32 + rs, rt * 0x1_0000 + low);
    Split32(op, rs);
    SplitOp(op, rs * 0x20_0000 + rt * 0x1_0000 + low);
  }

  lemma Parts(x: nat, m: nat)
    requires m > 0
    ensures x == m * (x / m) + x % m
  {
  }

  lemma Unpacked(raw: U32)
    ensures raw == Pack(Op(raw), Rs(raw), Rt(raw), Imm(raw))
    ensures 0 <= Op(raw) < 64 && 0 <= Imm(raw) < 0x1_0000
    ensures raw % 0x20_0000 == Rt(raw) * 0x1_0000 + Imm(raw)
  {
    var q := raw / 0x1_0000;
    Parts(raw, 0x1_0000);
    Parts(q, 32);
    var h := q / 32;
    SplitRs(h, Rt(raw) * 0x1_0000 + Imm(raw));
    Parts(h, 32);
    SplitOp(h / 32, Rs(raw) * 0x20_0000 + Rt(raw) * 0x1_0000 + Imm(raw));
  }

  /** The fields of the low half. */
  lemma LowPacked(raw: U32, rd: RegIndex, rest: int)
    requires 0 <= rest < 0x800 && Imm(raw) == rd * 0x800 + rest
    ensures Rd(raw) == rd && Shamt(raw) == rest / 0x40 && Funct(raw) == rest % 0x40 && raw % 0x800 == rest
  {
    var q := raw / 0x1_0000;
    Parts(raw, 0x1_0000);
    Split800(q * 32 + rd, rest);
    Split32(q, rd);
    Parts(rest, 0x40);
    Split40(q * 0x400 + rd * 32 + rest / 0x40, rest % 0x40);
    Split32(q * 32 + rd, rest / 0x40);
  }

  lemma LowUnpacked(raw: U32)
    ensures Imm(raw) == Rd(raw) * 0x800 + raw % 0x800 && raw % 0x800 == Shamt(raw) * 0x40 + Funct(raw)
  {
    var low := Imm(raw);
    Parts(low, 0x800);
    Parts(low % 0x800, 0x40);
    LowPacked(raw, low / 0x800, low % 0x800);
  }

  lemma CopIdIs(raw: U32)
    ensures CopId(raw) == Op(raw) % 4
  {
  }

  /** The three bits that the decoder tests at opcode 1, as bits of the rt field. */
  lemma RtBits(raw: U32)
    ensures raw / 0x1_0000 % 2 == Rt(raw) % 2 && raw / 0x2_0000 % 2 == Rt(raw) / 2 % 2
    ensures raw / 0x10_0000 % 2 == Rt(raw) / 16
  {
    var q := raw / 0x1_0000;
    Parts(raw, 0x1_0000);
    HalfOf(raw, q);
    SixteenthOf(raw, q);
    Parts(q, 32);
    LowBits(q / 32, Rt(raw));
  }

  lemma HalfOf(x: nat, q: nat)
    requires q == x / 0x1_0000
    ensures x / 0x2_0000 == q / 2
  {
  }

  lemma SixteenthOf(x: nat, q: nat)
    requires q == x / 0x1_0000
    ensures x / 0x10_0000 == q / 16
  {
  }

  lemma LowBits(h: nat, r: nat)
    requires r < 32
    ensures var q := 32 * h + r; q % 2 == r % 2 && q / 2 % 2 == r / 2 % 2 && q / 16 % 2 == r / 16
  {
    Halves(16 * h, r);
    Halves(8 * h, r / 2);
    Parts(r, 16);
    Split16(2 * h + r / 16, r % 16);
    Halves(h, r / 16);
  }

  // ---------------------------------------------------------------- decoding a code

  // One group at a time: the identifier of every code, and from it that the group's codes decode.

  /** Opcode 0 leaves the choice to the function field. */
  lemma DecodesSpecial(raw: U32)
    requires Op(raw) == 0
    ensures Decode(raw) == DecodeTypeR(raw)
  {
    hide Op, DecodeTypeR, DecodeCop, DecodeCondBranch;
  }

  /** The two words of opcode 0 that have no destination. */
  predicate HasNoTarget(raw: U32) { Rd(raw) == 0 && Shamt(raw) == 0 }

  lemma ShiftIs(raw: U32)
    requires Op(raw) == 0
    ensures Funct(raw) == 0 && !HasNoTarget(raw) ==> Decode(raw).KSll?
    ensures Funct(raw) == 2 ==> Decode(raw).KSrl?
    ensures Funct(raw) == 3 ==> Decode(raw).KSra?
    ensures Funct(raw) == 4 ==> Decode(raw).KSllv?
    ensures Funct(raw) == 6 ==> Decode(raw).KSrlv?
    ensures Funct(raw) == 7 ==> Decode(raw).KSrav?
  {
    DecodesSpecial(raw);
    hide Op, Rd, Shamt, Funct, Decode;
  }

  lemma ShiftRoundTrip(id: InstId, raw: U32)
    requires Op(raw) == 0 && Funct(raw) == ShiftCode(id) && !(id.KSll? && HasNoTarget(raw))
    ensures Decode(raw) == id
  {
    hide Op, HasNoTarget, Funct, Decode;
    ShiftIs(raw);
  }

  lemma WideShiftIs(raw: U32)
    requires Op(raw) == 0
    ensures Funct(raw) == 20 ==> Decode(raw).KDsllv?
    ensures Funct(raw) == 22 ==> Decode(raw).KDsrlv?
    ensures Funct(raw) == 23 ==> Decode(raw).KDsrav?
    ensures Funct(raw) == 56 ==> Decode(raw).KDsll?
    ensures Funct(raw) == 58 ==> Decode(raw).KDsrl?
    ensures Funct(raw) == 59 ==> Decode(raw).KDsra?
    ensures Funct(raw) == 60 ==> Decode(raw).KDsll32?
    ensures Funct(raw) == 62 ==> Decode(raw).KDsrl32?
    ensures Funct(raw) == 63 ==> Decode(raw).KDsra32?
  {
    DecodesSpecial(raw);
    hide Op, Rd, Shamt, Funct, Decode;
  }

  lemma WideShiftRoundTrip(id: InstId, raw: U32)
    requires Op(raw) == 0 && Funct(raw) == WideShiftCode(id)
    ensures Decode(raw) == id
  {
    hide Op, HasNoTarget, Funct, Decode;
    WideShiftIs(raw);
  }

  lemma ControlIs(raw: U32)
    requires Op(raw) == 0
    ensures Funct(raw) == 0 && HasNoTarget(raw) ==> Decode(raw).KNop?
    ensures Funct(raw) == 8 ==> Decode(raw).KJr?
    ensures Funct(raw) == 9 ==> Decode(raw).KJalr?
    ensures Funct(raw) == 12 ==> Decode(raw).KSyscall?
    ensures Funct(raw) == 13 ==> Decode(raw).KBreak?
    ensures Funct(raw) == 15 && HasNoTarget(raw) ==> Decode(raw).KSync?
  {
    DecodesSpecial(raw);
    hide Op, Rd, Shamt, Funct, Decode;
  }

  lemma ControlRoundTrip(id: InstId, raw: U32)
    requires Op(raw) == 0 && Funct(raw) == ControlCode(id) && (id.KNop? || id.KSync? ==> HasNoTarget(raw))
    ensures Decode(raw) == id
  {
    hide Op, HasNoTarget, Funct, Decode;
    ControlIs(raw);
  }

  lemma HiLoIs(raw: U32)
    requires Op(raw) == 0
    ensures Funct(raw) == 16 ==> Decode(raw).KMfhi?
    ensures Funct(raw) == 17 ==> Decode(raw).KMthi?
    ensures Funct(raw) == 18 ==> Decode(raw).KMflo?
    ensures Funct(raw) == 19 ==> Decode(raw).KMtlo?
    ensures Funct(raw) == 24 ==> Decode(raw).KMult?
    ensures Funct(raw) == 25 ==> Decode(raw).KMultu?
    ensures Funct(raw) == 26 ==> Decode(raw).KDiv?
    ensures Funct(raw) == 27 ==> Decode(raw).KDivu?
    ensures Funct(raw) == 28 ==> Decode(raw).KDmult?
    ensures Funct(raw) == 29 ==> Decode(raw).KDmultu?
    ensures Funct(raw) == 30 ==> Decode(raw).KDdiv?
    ensures Funct(raw) == 31 ==> Decode(raw).KDdivu?
  {
    DecodesSpecial(raw);
    hide Op, Rd, Shamt, Funct, Decode;
  }

  lemma HiLoRoundTrip(id: InstId, raw: U32)
    requires Op(raw) == 0 && Funct(raw) == HiLoCode(id)
    ensures Decode(raw) == id
  {
    hide Op, HasNoTarget, Funct, Decode;
    HiLoIs(raw);
  }

  lemma ArithmeticIs(raw: U32)
    requires Op(raw) == 0
    ensures Funct(raw) == 32 ==> Decode(raw).KAdd?
    ensures Funct(raw) == 33 ==> Decode(raw).KAddu?
    ensures Funct(raw) == 34 ==> Decode(raw).KSub?
    ensures Funct(raw) == 35 ==> Decode(raw).KSubu?
    ensures Funct(raw) == 42 ==> Decode(raw).KSlt?
    ensures Funct(raw) == 43 ==> Decode(raw).KSltu?
    ensures Funct(raw) == 44 ==> Decode(raw).KDadd?
    ensures Funct(raw) == 45 ==> Decode(raw).KDaddu?
    ensures Funct(raw) == 46 ==> Decode(raw).KDsub?
    ensures Funct(raw) == 47 ==> Decode(raw).KDsubu?
  {
    DecodesSpecial(raw);
    hide Op, Rd, Shamt, Funct, Decode;
  }

  lemma ArithmeticRoundTrip(id: InstId, raw: U32)
    requires Op(raw) == 0 && Funct(raw) == ArithmeticCode(id)
    ensures Decode(raw) == id
  {
    hide Op, HasNoTarget, Funct, Decode;
    ArithmeticIs(raw);
  }

  lemma LogicIs(raw: U32)
    requires Op(raw) == 0
    ensures Funct(raw) == 36 ==> Decode(raw).KAnd?
    ensures Funct(raw) == 37 ==> Decode(raw).KOr?
    ensures Funct(raw) == 38 ==> Decode(raw).KXor?
    ensures Funct(raw) == 39 ==> Decode(raw).KNor?
  {
    DecodesSpecial(raw);
    hide Op, Rd, Shamt, Funct, Decode;
  }

  lemma LogicRoundTrip(id: InstId, raw: U32)
    requires Op(raw) == 0 && Funct(raw) == LogicCode(id)
    ensures Decode(raw) == id
  {
    hide Op, HasNoTarget, Funct, Decode;
    LogicIs(raw);
  }

  lemma SpecialRoundTrip(id: InstId, raw: U32)
    requires Op(raw) == 0 && Funct(raw) == SpecialCode(id)
    requires (id.KNop? || id.KSync? ==> HasNoTarget(raw)) && !(id.KSll? && HasNoTarget(raw))
    ensures Decode(raw) == id
  {
    hide Op, HasNoTarget, Decode, ShiftCode, WideShiftCode, ControlCode, HiLoCode, ArithmeticCode, LogicCode;
    if ShiftCode(id) != NO_CODE {
      ShiftRoundTrip(id, raw);
    } else if WideShiftCode(id) != NO_CODE {
      WideShiftRoundTrip(id, raw);
    } else if ControlCode(id) != NO_CODE {
      ControlRoundTrip(id, raw);
    } else if HiLoCode(id) != NO_CODE {
      HiLoRoundTrip(id, raw);
    } else if ArithmeticCode(id) != NO_CODE {
      ArithmeticRoundTrip(id, raw);
    } else {
      LogicRoundTrip(id, raw);
    }
  }

  lemma BranchIs(raw: U32)
    ensures Op(raw) == 4 ==> Decode(raw).KBeq?
    ensures Op(raw) == 5 ==> Decode(raw).KBne?
    ensures Op(raw) == 6 ==> Decode(raw).KBlez?
    ensures Op(raw) == 7 ==> Decode(raw).KBgtz?
    ensures Op(raw) == 20 ==> Decode(raw).KBeql?
    ensures Op(raw) == 21 ==> Decode(raw).KBnel?
    ensures Op(raw) == 22 ==> Decode(raw).KBlezl?
    ensures Op(raw) == 23 ==> Decode(raw).KBgtzl?
  {
    hide Op, DecodeTypeR, DecodeCop, DecodeCondBranch;
  }

  lemma BranchRoundTrip(id: InstId, raw: U32)
    requires Op(raw) == BranchCode(id)
    ensures Decode(raw) == id
  {
    hide Op, Decode;
    BranchIs(raw);
  }

  lemma ImmediateIs(raw: U32)
    ensures Op(raw) == 8 ==> Decode(raw).KAddi?
    ensures Op(raw) == 9 ==> Decode(raw).KAddiu?
    ensures Op(raw) == 10 ==> Decode(raw).KSlti?
    ensures Op(raw) == 11 ==> Decode(raw).KSltiu?
    ensures Op(raw) == 12 ==> Decode(raw).KAndi?
    ensures Op(raw) == 13 ==> Decode(raw).KOri?
    ensures Op(raw) == 14 ==> Decode(raw).KXori?
    ensures Op(raw) == 15 ==> Decode(raw).KLui?
    ensures Op(raw) == 24 ==> Decode(raw).KDaddi?
    ensures Op(raw) == 25 ==> Decode(raw).KDaddiu?
  {
    hide Op, DecodeTypeR, DecodeCop, DecodeCondBranch;
  }

  lemma ImmediateRoundTrip(id: InstId, raw: U32)
    requires Op(raw) == ImmediateCode(id)
    ensures Decode(raw) == id
  {
    hide Op, Decode;
    ImmediateIs(raw);
  }

  lemma LoadIs(raw: U32)
    ensures Op(raw) == 32 ==> Decode(raw).KLb?
    ensures Op(raw) == 33 ==> Decode(raw).KLh?
    ensures Op(raw) == 35 ==> Decode(raw).KLw?
    ensures Op(raw) == 36 ==> Decode(raw).KLbu?
    ensures Op(raw) == 37 ==> Decode(raw).KLhu?
    ensures Op(raw) == 39 ==> Decode(raw).KLwu?
    ensures Op(raw) == 55 ==> Decode(raw).KLd?
  {
    hide Op, DecodeTypeR, DecodeCop, DecodeCondBranch;
  }

  lemma LoadRoundTrip(id: InstId, raw: U32)
    requires Op(raw) == LoadCode(id)
    ensures Decode(raw) == id
  {
    hide Op, Decode;
    LoadIs(raw);
  }

  lemma StoreIs(raw: U32)
    ensures Op(raw) == 40 ==> Decode(raw).KSb?
    ensures Op(raw) == 41 ==> Decode(raw).KSh?
    ensures Op(raw) == 43 ==> Decode(raw).KSw?
    ensures Op(raw) == 63 ==> Decode(raw).KSd?
  {
    hide Op, DecodeTypeR, DecodeCop, DecodeCondBranch;
  }

  lemma StoreRoundTrip(id: InstId, raw: U32)
    requires Op(raw) == StoreCode(id)
    ensures Decode(raw) == id
  {
    hide Op, Decode;
    StoreIs(raw);
  }

  lemma UnalignedIs(raw: U32)
    ensures Op(raw) == 26 ==> Decode(raw).KLdl?
    ensures Op(raw) == 27 ==> Decode(raw).KLdr?
    ensures Op(raw) == 34 ==> Decode(raw).KLwl?
    ensures Op(raw) == 38 ==> Decode(raw).KLwr?
    ensures Op(raw) == 42 ==> Decode(raw).KSwl?
    ensures Op(raw) == 44 ==> Decode(raw).KSdl?
    ensures Op(raw) == 45 ==> Decode(raw).KSdr?
    ensures Op(raw) == 46 ==> Decode(raw).KSwr?
  {
    hide Op, DecodeTypeR, DecodeCop, DecodeCondBranch;
  }

  lemma UnalignedRoundTrip(id: InstId, raw: U32)
    requires Op(raw) == UnalignedCode(id)
    ensures Decode(raw) == id
  {
    hide Op, Decode;
    UnalignedIs(raw);
  }

  lemma OtherIs(raw: U32)
    ensures Op(raw) == 47 ==> Decode(raw).KCache?
    ensures Op(raw) == 48 ==> Decode(raw).KLl?
    ensures Op(raw) == 52 ==> Decode(raw).KLld?
    ensures Op(raw) == 56 ==> Decode(raw).KSc?
    ensures Op(raw) == 60 ==> Decode(raw).KScd?
  {
    hide Op, DecodeTypeR, DecodeCop, DecodeCondBranch;
  }

  lemma OtherRoundTrip(id: InstId, raw: U32)
    requires Op(raw) == OtherCode(id)
    ensures Decode(raw) == id
  {
    hide Op, Decode;
    OtherIs(raw);
  }

  lemma PrimaryRoundTrip(id: InstId, raw: U32)
    requires Op(raw) == PrimaryCode(id)
    ensures Decode(raw) == id
  {
    hide Op, Decode, BranchCode, ImmediateCode, LoadCode, StoreCode, UnalignedCode, OtherCode;
    if BranchCode(id) != NO_CODE {
      BranchRoundTrip(id, raw);
    } else if ImmediateCode(id) != NO_CODE {
      ImmediateRoundTrip(id, raw);
    } else if LoadCode(id) != NO_CODE {
      LoadRoundTrip(id, raw);
    } else if StoreCode(id) != NO_CODE {
      StoreRoundTrip(id, raw);
    } else if UnalignedCode(id) != NO_CODE {
      UnalignedRoundTrip(id, raw);
    } else {
      OtherRoundTrip(id, raw);
    }
  }

  /** Bits 16, 17 and 20 select among the branches of opcode 1. */
  lemma RegImmIs(raw: U32)
    requires Op(raw) == 1
    ensures var low, high := Rt(raw) % 4, Rt(raw) / 16;
            && (high == 0 && low == 0 ==> Decode(raw).KBltz?) && (high == 0 && low == 1 ==> Decode(raw).KBgez?)
            && (high == 0 && low == 2 ==> Decode(raw).KBltzl?) && (high == 0 && low == 3 ==> Decode(raw).KBgezl?)
            && (high == 1 && low == 0 ==> Decode(raw).KBltzal?) && (high == 1 && low == 1 ==> Decode(raw).KBgezal?)
            && (high == 1 && low == 2 ==> Decode(raw).KBltzall?) && (high == 1 && low == 3 ==> Decode(raw).KBgezall?)
  {
    RtBits(raw);
    hide Op, Rt, DecodeCop, DecodeTypeR;
  }

  lemma RegImmField(low: int, high: int, hint: int)
    requires 0 <= low < 4 && 0 <= high < 2 && 0 <= hint < 4
    ensures var rt := 16 * high + low + 4 * hint; rt % 4 == low && rt / 16 == high && rt / 4 % 4 == hint
  {
  }

  lemma RegImmRoundTrip(id: InstId, hint: int, raw: U32)
    requires RegImmCode(id) != NO_CODE && 0 <= hint < 4 && Op(raw) == 1 && Rt(raw) == RegImmCode(id) + 4 * hint
    ensures Decode(raw) == id
  {
    hide Op, Rt, Decode;
    RegImmIs(raw);
    RegImmField(RegImmCode(id) % 4, RegImmCode(id) / 16, hint);
  }

  lemma DecodesCop(raw: U32)
    requires 16 <= Op(raw) < 20
    ensures Decode(raw) == DecodeCop(raw)
  {
    hide Op, DecodeTypeR, DecodeCop, DecodeCondBranch;
  }

  lemma CopRoundTrip(id: InstId, raw: U32)
    requires 16 <= Op(raw) < 20
    ensures Rs(raw) == MoveCode(id) ==> Decode(raw) == id
    ensures Rs(raw) == 8 && Rt(raw) == CopBranchCode(id) ==> Decode(raw) == id
    ensures Rs(raw) == 3 || Rs(raw) == 7 || Rs(raw) > 8 ==> Decode(raw) == KCop
  {
    DecodesCop(raw);
    hide Op, Rs, Rt, Decode;
  }

  /** The opcodes of coprocessor loads and stores. */
  lemma CopMemoryIs(raw: U32)
    ensures Op(raw) == 49 || Op(raw) == 50 ==> Decode(raw).KLwc?
    ensures Op(raw) == 53 || Op(raw) == 54 ==> Decode(raw).KLdc?
    ensures Op(raw) == 57 || Op(raw) == 58 ==> Decode(raw).KSwc?
    ensures Op(raw) == 61 || Op(raw) == 62 ==> Decode(raw).KSdc?
  {
    hide Op, DecodeCop, DecodeTypeR, DecodeCondBranch;
  }

  lemma CopMemoryRoundTrip(id: InstId, cop: int, raw: U32)
    requires CopMemoryCode(id) != NO_CODE && 1 <= cop < 3 && Op(raw) == CopMemoryCode(id) + cop
    ensures Decode(raw) == id
  {
    hide Op, Decode;
    CopMemoryIs(raw);
  }

  lemma TargetRoundTrip(id: InstId, raw: U32)
    requires Op(raw) == TargetCode(id)
    ensures Decode(raw) == id
  {
    hide Op, DecodeCop, DecodeTypeR, DecodeCondBranch;
  }

  // ---------------------------------------------------------------- decoding what was encoded

  /** The fields of the word, each where its format has it. */
  predicate HasFields(i: Inst, raw: U32) {
    match i
    case Special(_, rs, rt, rd, sa) => Rs(raw) == rs && Rt(raw) == rt && Rd(raw) == rd && Shamt(raw) == sa
    case RegImm(_, rs, hint, imm) => Rs(raw) == rs && Rt(raw) / 4 % 4 == hint && Imm(raw) == imm
    case Target(_, target) => raw % 0x400_0000 == target
    case Immediate(_, rs, rt, imm) => Rs(raw) == rs && Rt(raw) == rt && Imm(raw) == imm
    case CopMove(_, cop, rt, rd, rest) =>
      CopId(raw) == cop && Rt(raw) == rt && Rd(raw) == rd && raw % 0x800 == rest
    case CopBranch(_, cop, imm) => CopId(raw) == cop && Imm(raw) == imm
    case CopCommand(cop, code, rest) => CopId(raw) == cop && Rs(raw) == code && raw % 0x20_0000 == rest
    case CopMemory(_, cop, rs, rt, imm) =>
      CopId(raw) == cop && Rs(raw) == rs && Rt(raw) == rt && Imm(raw) == imm
  }

  /** The opcode of each format. */
  function OpOf(i: Inst): int {
    match i
    case Special(_, _, _, _, _) => 0
    case RegImm(_, _, _, _) => 1
    case Target(id, _) => TargetCode(id)
    case Immediate(id, _, _, _) => PrimaryCode(id)
    case CopMove(_, cop, _, _, _) => 16 + cop
    case CopBranch(_, cop, _) => 16 + cop
    case CopCommand(cop, _, _) => 16 + cop
    case CopMemory(id, cop, _, _, _) => CopMemoryCode(id) + cop
  }

  predicate Decodes(i: Inst, raw: U32) {
    Decode(raw) == IdOf(i) && HasFields(i, raw) && Op(raw) == OpOf(i)
  }

  lemma SpecialEncoded(i: Inst)
    requires i.Special? && Valid(i)
    ensures Decodes(i, Encode(i)) && Funct(Encode(i)) == SpecialCode(i.id)
  {
    hide Decode, Op, Rs, Rt, Rd, Shamt, Funct, Imm, Pack, SpecialCode;
    var rest := i.sa * 0x40 + SpecialCode(i.id);
    Split40(i.sa, SpecialCode(i.id));
    Packed(0, i.rs, i.rt, i.rd * 0x800 + rest);
    LowPacked(Encode(i), i.rd, rest);
    SpecialRoundTrip(i.id, Encode(i));
  }

  lemma RegImmEncoded(i: Inst)
    requires i.RegImm? && Valid(i)
    ensures Decodes(i, Encode(i)) && Rt(Encode(i)) == RegImmCode(i.id) + 4 * i.hint
  {
    hide Decode, Op, Rs, Rt, Imm, Pack;
    Packed(1, i.rs, RegImmCode(i.id) + 4 * i.hint, i.imm);
    RegImmRoundTrip(i.id, i.hint, Encode(i));
  }

  lemma TargetEncoded(i: Inst)
    requires i.Target? && Valid(i)
    ensures Decodes(i, Encode(i))
  {
    SplitOp(TargetCode(i.id), i.target);
    TargetRoundTrip(i.id, Encode(i));
    hide Decode;
  }

  lemma ImmediateEncoded(i: Inst)
    requires i.Immediate? && Valid(i)
    ensures Decodes(i, Encode(i))
  {
    hide Decode, Op, Rs, Rt, Imm, Pack, PrimaryCode;
    Packed(PrimaryCode(i.id), i.rs, i.rt, i.imm);
    PrimaryRoundTrip(i.id, Encode(i));
  }

  lemma CopMoveEncoded(i: Inst)
    requires i.CopMove? && Valid(i)
    ensures Decodes(i, Encode(i))
  {
    hide Decode, Op, Rs, Rt, Rd, Shamt, Funct, Imm, CopId, Pack;
    CopIdIs(Encode(i));
    Packed(16 + i.cop, MoveCode(i.id), i.rt, i.rd * 0x800 + i.rest);
    LowPacked(Encode(i), i.rd, i.rest);
    CopRoundTrip(i.id, Encode(i));
  }

  lemma CopBranchEncoded(i: Inst)
    requires i.CopBranch? && Valid(i)
    ensures Decodes(i, Encode(i)) && Rt(Encode(i)) == CopBranchCode(i.id)
  {
    hide Decode, Op, Rs, Rt, Imm, CopId, Pack;
    CopIdIs(Encode(i));
    Packed(16 + i.cop, 8, CopBranchCode(i.id), i.imm);
    CopRoundTrip(i.id, Encode(i));
  }

  lemma CopCommandEncoded(i: Inst)
    requires i.CopCommand? && Valid(i)
    ensures Decodes(i, Encode(i))
  {
    hide Decode, CopId;
    CopIdIs(Encode(i));
    SplitOp(16 + i.cop, i.code * 0x20_0000 + i.rest);
    SplitRs((16 + i.cop) * 32 + i.code, i.rest);
    Split32(16 + i.cop, i.code);
    CopRoundTrip(KCop, Encode(i));
  }

  lemma CopMemoryEncoded(i: Inst)
    requires i.CopMemory? && Valid(i)
    ensures Decodes(i, Encode(i))
  {
    hide Decode, Op, Rs, Rt, Imm, CopId, Pack;
    CopIdIs(Encode(i));
    Packed(CopMemoryCode(i.id) + i.cop, i.rs, i.rt, i.imm);
    CopMemoryRoundTrip(i.id, i.cop, Encode(i));
  }

  /** Decoding an encoded instruction gives back its identifier and its fields. */
  lemma RoundTrip(i: Inst)
    requires Valid(i)
    ensures Decode(Encode(i)) == IdOf(i) && HasFields(i, Encode(i)) && Op(Encode(i)) == OpOf(i)
  {
    hide Decode, Encode, Valid, HasFields;
    match i
    case Special(_, _, _, _, _) => SpecialEncoded(i);
    case RegImm(_, _, _, _) => RegImmEncoded(i);
    case Target(_, _) => TargetEncoded(i);
    case Immediate(_, _, _, _) => ImmediateEncoded(i);
    case CopMove(_, _, _, _, _) => CopMoveEncoded(i);
    case CopBranch(_, _, _) => CopBranchEncoded(i);
    case CopCommand(_, _, _) => CopCommandEncoded(i);
    case CopMemory(_, _, _, _, _) => CopMemoryEncoded(i);
  }

  // ---------------------------------------------------------------- every known word is encoded

  predicate IsCopMemoryOp(op: int) { op >= 48 && (op % 4 == 1 || op % 4 == 2) }

  predicate IsMoveField(rs: int) { rs == 0 || rs == 1 || rs == 2 || rs == 4 || rs == 5 || rs == 6 }

  /** The instruction of a word, by its opcode. */
  function Parse(raw: U32): Inst {
    var op, id := Op(raw), Decode(raw);
    if op == 0 then Special(id, Rs(raw), Rt(raw), Rd(raw), Shamt(raw))
    else if op == 1 then RegImm(id, Rs(raw), Rt(raw) / 4 % 4, Imm(raw))
    else if op == 2 || op == 3 then Target(id, raw % 0x400_0000)
    else if 16 <= op < 20 then
      if Rs(raw) == 8 then CopBranch(id, op - 16, Imm(raw))
      else if IsMoveField(Rs(raw)) then CopMove(id, op - 16, Rt(raw), Rd(raw), raw % 0x800)
      else CopCommand(op - 16, Rs(raw), raw % 0x20_0000)
    else if IsCopMemoryOp(op) then CopMemory(id, op % 4, Rs(raw), Rt(raw), Imm(raw))
    else Immediate(id, Rs(raw), Rt(raw), Imm(raw))
  }

  lemma ShiftWord(raw: U32)
    requires Op(raw) == 0 && Funct(raw) in {0, 2, 3, 4, 6, 7} && !(Funct(raw) == 0 && HasNoTarget(raw))
    ensures ShiftCode(Decode(raw)) == Funct(raw)
  {
    hide Op, HasNoTarget, Funct, Decode;
    ShiftIs(raw);
  }

  lemma WideShiftWord(raw: U32)
    requires Op(raw) == 0 && Funct(raw) in {20, 22, 23, 56, 58, 59, 60, 62, 63}
    ensures WideShiftCode(Decode(raw)) == Funct(raw)
  {
    hide Op, HasNoTarget, Funct, Decode;
    WideShiftIs(raw);
  }

  lemma ControlWord(raw: U32)
    requires Op(raw) == 0 && Funct(raw) in {0, 8, 9, 12, 13, 15}
    requires Funct(raw) == 0 || Funct(raw) == 15 ==> HasNoTarget(raw)
    ensures ControlCode(Decode(raw)) == Funct(raw)
  {
    hide Op, HasNoTarget, Funct, Decode;
    ControlIs(raw);
  }

  lemma HiLoWord(raw: U32)
    requires Op(raw) == 0 && (16 <= Funct(raw) < 20 || 24 <= Funct(raw) < 32)
    ensures HiLoCode(Decode(raw)) == Funct(raw)
  {
    hide Op, HasNoTarget, Funct, Decode;
    HiLoIs(raw);
  }

  lemma ArithmeticWord(raw: U32)
    requires Op(raw) == 0 && (32 <= Funct(raw) < 36 || 42 <= Funct(raw) < 48)
    ensures ArithmeticCode(Decode(raw)) == Funct(raw)
  {
    hide Op, HasNoTarget, Funct, Decode;
    ArithmeticIs(raw);
  }

  lemma LogicWord(raw: U32)
    requires Op(raw) == 0 && 36 <= Funct(raw) < 40
    ensures LogicCode(Decode(raw)) == Funct(raw)
  {
    hide Op, HasNoTarget, Funct, Decode;
    LogicIs(raw);
  }

  /** The function codes that nothing has. */
  lemma NoSpecialWord(raw: U32)
    requires Op(raw) == 0
    requires || Funct(raw) in {1, 5, 10, 11, 14, 21, 40, 41, 57, 61} || 48 <= Funct(raw) < 56
             || (Funct(raw) == 15 && !HasNoTarget(raw))
    ensures Decode(raw).KUnknown?
  {
    DecodesSpecial(raw);
    hide Op, Rd, Shamt, Funct, Decode;
  }

  /** The groups have no identifier in common. */
  lemma WideIsNoShift(id: InstId)
    requires WideShiftCode(id) != NO_CODE
    ensures ShiftCode(id) == NO_CODE && !id.KNop? && !id.KSync?
  {
  }

  lemma ControlIsNoShift(id: InstId)
    requires ControlCode(id) != NO_CODE
    ensures ShiftCode(id) == NO_CODE && WideShiftCode(id) == NO_CODE
  {
  }

  lemma HiLoIsNoShift(id: InstId)
    requires HiLoCode(id) != NO_CODE
    ensures ShiftCode(id) == NO_CODE && WideShiftCode(id) == NO_CODE
  {
  }

  lemma HiLoIsNoControl(id: InstId)
    requires HiLoCode(id) != NO_CODE
    ensures ControlCode(id) == NO_CODE
  {
  }

  lemma ArithmeticIsNoShift(id: InstId)
    requires ArithmeticCode(id) != NO_CODE
    ensures ShiftCode(id) == NO_CODE && WideShiftCode(id) == NO_CODE
  {
  }

  lemma ArithmeticIsNoControl(id: InstId)
    requires ArithmeticCode(id) != NO_CODE
    ensures ControlCode(id) == NO_CODE
  {
  }

  lemma ArithmeticIsNoHiLo(id: InstId)
    requires ArithmeticCode(id) != NO_CODE
    ensures HiLoCode(id) == NO_CODE
  {
  }

  lemma LogicIsNoShift(id: InstId)
    requires LogicCode(id) != NO_CODE
    ensures ShiftCode(id) == NO_CODE && WideShiftCode(id) == NO_CODE && ControlCode(id) == NO_CODE
    ensures HiLoCode(id) == NO_CODE && ArithmeticCode(id) == NO_CODE
  {
  }

  lemma ControlIds(id: InstId)
    ensures id.KNop? || id.KSync? ==> ControlCode(id) == 0 || ControlCode(id) == 15
    ensures id.KSll? ==> ShiftCode(id) == 0
    ensures ControlCode(id) == 0 || ControlCode(id) == 15 ==> id.KNop? || id.KSync?
  {
  }

  lemma SpecialWord(raw: U32)
    requires Op(raw) == 0 && !Decode(raw).KUnknown?
    ensures SpecialCode(Decode(raw)) == Funct(raw)
    ensures Decode(raw).KNop? || Decode(raw).KSync? ==> HasNoTarget(raw)
    ensures !(Decode(raw).KSll? && HasNoTarget(raw))
  {
    hide Op, HasNoTarget, Decode, ShiftCode, WideShiftCode, ControlCode, HiLoCode, ArithmeticCode, LogicCode, Funct;
    var f, id := Funct(raw), Decode(raw);
    ControlIds(id);
    if f in {1, 5, 10, 11, 14, 21, 40, 41, 57, 61} || 48 <= f < 56 || (f == 15 && !HasNoTarget(raw)) {
      NoSpecialWord(raw);
    } else if f in {0, 2, 3, 4, 6, 7} && !(f == 0 && HasNoTarget(raw)) {
      ShiftWord(raw);
      ShiftIsNoControl(id);
    } else if f in {20, 22, 23, 56, 58, 59, 60, 62, 63} {
      WideShiftWord(raw);
      WideIsNoShift(id);
    } else if f in {0, 8, 9, 12, 13, 15} {
      ControlWord(raw);
      ControlIsNoShift(id);
    } else if 16 <= f < 20 || 24 <= f < 32 {
      HiLoWord(raw);
      HiLoIsNoShift(id);
      HiLoIsNoControl(id);
    } else if 32 <= f < 36 || 42 <= f < 48 {
      ArithmeticWord(raw);
      ArithmeticIsNoShift(id);
      ArithmeticIsNoControl(id);
      ArithmeticIsNoHiLo(id);
    } else {
      LogicWord(raw);
      LogicIsNoShift(id);
    }
  }

  lemma ShiftIsNoControl(id: InstId)
    requires ShiftCode(id) != NO_CODE
    ensures ControlCode(id) == NO_CODE
  {
  }

  lemma RegImmWord(raw: U32)
    requires Op(raw) == 1
    ensures RegImmCode(Decode(raw)) != NO_CODE && Rt(raw) == RegImmCode(Decode(raw)) + 4 * (Rt(raw) / 4 % 4)
  {
    hide Op, Rt, Decode;
    RegImmIs(raw);
    var rt := Rt(raw);
    RegImmField(rt % 4, rt / 16, rt / 4 % 4);
  }

  lemma CopWord(raw: U32)
    requires 16 <= Op(raw) < 20 && !Decode(raw).KUnknown?
    ensures var id, rs := Decode(raw), Rs(raw);
            if rs == 8 then CopBranchCode(id) == Rt(raw)
            else if IsMoveField(rs) then MoveCode(id) == rs
            else id.KCop?
  {
    DecodesCop(raw);
    hide Op, Rs, Rt, Decode;
  }

  lemma CopMemoryWord(raw: U32)
    requires IsCopMemoryOp(Op(raw))
    ensures CopMemoryCode(Decode(raw)) != NO_CODE && CopMemoryCode(Decode(raw)) + Op(raw) % 4 == Op(raw)
  {
    hide Op, Decode;
    CopMemoryIs(raw);
  }

  lemma BranchWord(raw: U32)
    requires 4 <= Op(raw) < 8 || 20 <= Op(raw) < 24
    ensures BranchCode(Decode(raw)) == Op(raw)
  {
    hide Op, Decode;
    BranchIs(raw);
  }

  lemma ImmediateWord(raw: U32)
    requires 8 <= Op(raw) < 16 || 24 <= Op(raw) < 26
    ensures ImmediateCode(Decode(raw)) == Op(raw)
  {
    hide Op, Decode;
    ImmediateIs(raw);
  }

  lemma LoadOpcode(raw: U32)
    requires Op(raw) in {32, 33, 35, 36, 37, 39, 55}
    ensures LoadCode(Decode(raw)) == Op(raw)
  {
    hide Op, Decode;
    LoadIs(raw);
  }

  lemma StoreOpcode(raw: U32)
    requires Op(raw) in {40, 41, 43, 63}
    ensures StoreCode(Decode(raw)) == Op(raw)
  {
    hide Op, Decode;
    StoreIs(raw);
  }

  lemma UnalignedWord(raw: U32)
    requires Op(raw) in {26, 27, 34, 38, 42, 44, 45, 46}
    ensures UnalignedCode(Decode(raw)) == Op(raw)
  {
    hide Op, Decode;
    UnalignedIs(raw);
  }

  lemma OtherWord(raw: U32)
    requires Op(raw) in {47, 48, 52, 56, 60}
    ensures OtherCode(Decode(raw)) == Op(raw)
  {
    hide Op, Decode;
    OtherIs(raw);
  }

  lemma NoPrimaryWord(raw: U32)
    requires 28 <= Op(raw) < 32 || Op(raw) == 51 || Op(raw) == 59
    ensures Decode(raw).KUnknown?
  {
    hide Op, DecodeCop, DecodeTypeR, DecodeCondBranch;
  }

  lemma ImmediateIsNoBranch(id: InstId)
    requires ImmediateCode(id) != NO_CODE
    ensures BranchCode(id) == NO_CODE
  {
  }

  lemma LoadIsNoBranch(id: InstId)
    requires LoadCode(id) != NO_CODE
    ensures BranchCode(id) == NO_CODE && ImmediateCode(id) == NO_CODE
  {
  }

  lemma StoreIsNoBranch(id: InstId)
    requires StoreCode(id) != NO_CODE
    ensures BranchCode(id) == NO_CODE && ImmediateCode(id) == NO_CODE && LoadCode(id) == NO_CODE
  {
  }

  lemma UnalignedIsNoBranch(id: InstId)
    requires UnalignedCode(id) != NO_CODE
    ensures BranchCode(id) == NO_CODE && ImmediateCode(id) == NO_CODE && LoadCode(id) == NO_CODE
    ensures StoreCode(id) == NO_CODE
  {
  }

  lemma OtherIsNoBranch(id: InstId)
    requires OtherCode(id) != NO_CODE
    ensures BranchCode(id) == NO_CODE && ImmediateCode(id) == NO_CODE && LoadCode(id) == NO_CODE
    ensures StoreCode(id) == NO_CODE && UnalignedCode(id) == NO_CODE
  {
  }

  lemma PrimaryWord(raw: U32)
    requires 4 <= Op(raw) && !(16 <= Op(raw) < 20) && !IsCopMemoryOp(Op(raw)) && !Decode(raw).KUnknown?
    ensures PrimaryCode(Decode(raw)) == Op(raw)
  {
    hide Op, Decode, BranchCode, ImmediateCode, LoadCode, StoreCode, UnalignedCode, OtherCode;
    var op, id := Op(raw), Decode(raw);
    if 28 <= op < 32 || op == 51 || op == 59 {
      NoPrimaryWord(raw);
    } else if 4 <= op < 8 || 20 <= op < 24 {
      BranchWord(raw);
    } else if 8 <= op < 16 || 24 <= op < 26 {
      ImmediateWord(raw);
      ImmediateIsNoBranch(id);
    } else if op in {32, 33, 35, 36, 37, 39, 55} {
      LoadOpcode(raw);
      LoadIsNoBranch(id);
    } else if op in {40, 41, 43, 63} {
      StoreOpcode(raw);
      StoreIsNoBranch(id);
    } else if op in {26, 27, 34, 38, 42, 44, 45, 46} {
      UnalignedWord(raw);
      UnalignedIsNoBranch(id);
    } else {
      OtherWord(raw);
      OtherIsNoBranch(id);
    }
  }

  lemma TargetWord(raw: U32)
    requires Op(raw) == 2 || Op(raw) == 3
    ensures TargetCode(Decode(raw)) == Op(raw)
  {
    hide Op, DecodeCop, DecodeTypeR, DecodeCondBranch;
  }

  /** Every word with a known identifier is the encoding of its instruction. */
  lemma ParseEncodes(raw: U32)
    requires !Decode(raw).KUnknown?
    ensures Valid(Parse(raw)) && Encode(Parse(raw)) == raw
  {
    Unpacked(raw);
    LowUnpacked(raw);
    Parts(raw, 0x400_0000);
    OpIs(raw);
    hide Decode, Op, Rs, Rt, Rd, Shamt, Funct, Imm, CopId, SpecialCode, PrimaryCode, MoveCode, CopBranchCode;
    hide RegImmCode, CopMemoryCode, TargetCode;
    var op := Op(raw);
    if op == 0 {
      SpecialWord(raw);
    } else if op == 1 {
      RegImmWord(raw);
    } else if op < 4 {
      TargetWord(raw);
    } else if 16 <= op < 20 {
      CopWord(raw);
    } else if IsCopMemoryOp(op) {
      CopMemoryWord(raw);
    } else {
      PrimaryWord(raw);
    }
  }

  lemma OpIs(raw: U32)
    ensures Op(raw) == raw / 0x400_0000
  {
  }

  /** CACHE is opcode 47, and nothing else is. */
  lemma CacheWord(raw: U32)
    ensures Decode(raw).KCache? <==> Op(raw) == 47
  {
    if Op(raw) == 47 { OtherWord(raw); }
    if Decode(raw).KCache? {
      ParseEncodes(raw);
      RoundTrip(Parse(raw));
      CacheCode(Parse(raw));
    }
    hide Op, Decode, Encode, Parse, Valid, OpOf, IdOf, HasFields;
  }

  lemma CacheCode(i: Inst)
    requires Valid(i) && IdOf(i).KCache?
    ensures OpOf(i) == 47
  {
  }

  lemma NoneIsUnknown(i: Inst)
    requires Valid(i)
    ensures !IdOf(i).KUnknown?
  {
  }

  ghost predicate Encodes(i: Inst, raw: U32) {
    Valid(i) && Encode(i) == raw
  }

  /** The unknown words are exactly those that no instruction encodes to. */
  lemma UnknownWords(raw: U32)
    ensures Decode(raw).KUnknown? <==> forall i: Inst :: !Encodes(i, raw)
  {
    hide Decode, Encode, Valid, Parse, IdOf;
    if !Decode(raw).KUnknown? {
      ParseEncodes(raw);
      assert Encodes(Parse(raw), raw);
    }
    forall i: Inst | Encodes(i, raw) ensures !Decode(raw).KUnknown? {
      RoundTrip(i);
      NoneIsUnknown(i);
    }
  }

  // ---------------------------------------------------------------- which words transfer control

  /** The word is a branch or jump, and has a delay slot. */
  predicate Transfers(raw: U32) {
    IsInstBranch(raw) && DoesInstHaveDelaySlot(raw)
  }

  /** The word neither ends a block nor has a delay slot. */
  predicate IsStraight(raw: U32) {
    !IsInstBranch(raw) && !DoesInstHaveDelaySlot(raw)
  }

  /** SYSCALL and BREAK end a block without a slot. */
  predicate IsTrapWord(raw: U32) {
    IsInstBranch(raw) && !DoesInstHaveDelaySlot(raw)
  }

  lemma ShiftsAreStraight(raw: U32)
    requires ShiftCode(Decode(raw)) != NO_CODE || WideShiftCode(Decode(raw)) != NO_CODE
    ensures IsStraight(raw)
  {
    hide Decode;
  }

  lemma ControlIsSplit(raw: U32)
    requires ControlCode(Decode(raw)) != NO_CODE
    ensures Transfers(raw) <==> ControlCode(Decode(raw)) == 8 || ControlCode(Decode(raw)) == 9
    ensures IsTrapWord(raw) <==> ControlCode(Decode(raw)) == 12 || ControlCode(Decode(raw)) == 13
    ensures Transfers(raw) || IsTrapWord(raw) || IsStraight(raw)
  {
    hide Decode;
  }

  lemma HiLoIsStraight(raw: U32)
    requires HiLoCode(Decode(raw)) != NO_CODE || LogicCode(Decode(raw)) != NO_CODE
    ensures IsStraight(raw)
  {
    hide Decode;
  }

  lemma ArithmeticIsStraight(raw: U32)
    requires ArithmeticCode(Decode(raw)) != NO_CODE || Decode(raw).KUnknown?
    ensures IsStraight(raw)
  {
    hide Decode;
  }

  lemma ImmediatesAreStraight(raw: U32)
    requires ImmediateCode(Decode(raw)) != NO_CODE || OtherCode(Decode(raw)) != NO_CODE
    ensures IsStraight(raw)
  {
    hide Decode;
  }

  lemma MemoryIsStraight(raw: U32)
    requires || LoadCode(Decode(raw)) != NO_CODE || StoreCode(Decode(raw)) != NO_CODE
             || UnalignedCode(Decode(raw)) != NO_CODE || CopMemoryCode(Decode(raw)) != NO_CODE
    ensures IsStraight(raw)
  {
    hide Decode;
  }

  lemma BranchesTransfer(raw: U32)
    requires || BranchCode(Decode(raw)) != NO_CODE || RegImmCode(Decode(raw)) != NO_CODE
             || TargetCode(Decode(raw)) != NO_CODE || CopBranchCode(Decode(raw)) != NO_CODE
    ensures Transfers(raw)
  {
    hide Decode;
  }

  lemma MovesAreStraight(raw: U32)
    requires MoveCode(Decode(raw)) != NO_CODE || Decode(raw).KCop?
    ensures IsStraight(raw)
  {
    hide Decode;
  }

  /** A branch or jump by its fields: the numbers of the MIPS III opcode map. */
  predicate TransferFields(op: int, rs: int, rt: int, funct: int) {
    || (op == 0 && (funct == 8 || funct == 9))
    || 1 <= op < 8 || 20 <= op < 24
    || (16 <= op < 20 && rs == 8 && rt < 4)
  }

  lemma SpecialTransfers(raw: U32)
    requires Op(raw) == 0
    ensures Transfers(raw) <==> Funct(raw) == 8 || Funct(raw) == 9
    ensures IsTrapWord(raw) <==> Funct(raw) == 12 || Funct(raw) == 13
    ensures Transfers(raw) || IsTrapWord(raw) || IsStraight(raw)
  {
    hide Op, HasNoTarget, Decode, ShiftCode, WideShiftCode, ControlCode, HiLoCode, ArithmeticCode, LogicCode, Funct;
    hide IsInstBranch, DoesInstHaveDelaySlot;
    var f := Funct(raw);
    if f in {1, 5, 10, 11, 14, 21, 40, 41, 57, 61} || 48 <= f < 56 || (f == 15 && !HasNoTarget(raw)) {
      NoSpecialWord(raw);
      ArithmeticIsStraight(raw);
    } else if f in {0, 2, 3, 4, 6, 7} && !(f == 0 && HasNoTarget(raw)) {
      ShiftWord(raw);
      ShiftsAreStraight(raw);
    } else if f in {20, 22, 23, 56, 58, 59, 60, 62, 63} {
      WideShiftWord(raw);
      ShiftsAreStraight(raw);
    } else if f in {0, 8, 9, 12, 13, 15} {
      ControlWord(raw);
      ControlIsSplit(raw);
    } else if 16 <= f < 20 || 24 <= f < 32 {
      HiLoWord(raw);
      HiLoIsStraight(raw);
    } else if 32 <= f < 36 || 42 <= f < 48 {
      ArithmeticWord(raw);
      ArithmeticIsStraight(raw);
    } else {
      LogicWord(raw);
      HiLoIsStraight(raw);
    }
  }

  lemma PrimaryTransfers(raw: U32)
    requires Op(raw) != 0 && !(16 <= Op(raw) < 20)
    ensures 1 <= Op(raw) < 8 || 20 <= Op(raw) < 24 ==> Transfers(raw)
    ensures !(1 <= Op(raw) < 8 || 20 <= Op(raw) < 24) ==> IsStraight(raw)
  {
    hide Op, Decode, BranchCode, ImmediateCode, LoadCode, StoreCode, UnalignedCode, OtherCode, RegImmCode, TargetCode;
    hide CopMemoryCode, IsInstBranch, DoesInstHaveDelaySlot;
    var op := Op(raw);
    if op == 1 {
      RegImmWord(raw);
      BranchesTransfer(raw);
    } else if op < 4 {
      TargetWord(raw);
      BranchesTransfer(raw);
    } else if 4 <= op < 8 || 20 <= op < 24 {
      BranchWord(raw);
      BranchesTransfer(raw);
    } else if 28 <= op < 32 || op == 51 || op == 59 {
      NoPrimaryWord(raw);
      ArithmeticIsStraight(raw);
    } else if IsCopMemoryOp(op) {
      CopMemoryWord(raw);
      MemoryIsStraight(raw);
    } else if 8 <= op < 16 || 24 <= op < 26 {
      ImmediateWord(raw);
      ImmediatesAreStraight(raw);
    } else if op in {32, 33, 35, 36, 37, 39, 55} {
      LoadOpcode(raw);
      MemoryIsStraight(raw);
    } else if op in {40, 41, 43, 63} {
      StoreOpcode(raw);
      MemoryIsStraight(raw);
    } else if op in {26, 27, 34, 38, 42, 44, 45, 46} {
      UnalignedWord(raw);
      MemoryIsStraight(raw);
    } else {
      OtherWord(raw);
      ImmediatesAreStraight(raw);
    }
  }

  lemma CopTransfers(raw: U32)
    requires 16 <= Op(raw) < 20
    ensures Transfers(raw) <==> Rs(raw) == 8 && Rt(raw) < 4
    ensures Transfers(raw) || IsStraight(raw)
  {
    hide Op, Rs, Rt, Decode, MoveCode, CopBranchCode, IsInstBranch, DoesInstHaveDelaySlot;
    UnknownBranch(raw);
    if Decode(raw).KUnknown? {
      ArithmeticIsStraight(raw);
    } else {
      CopWord(raw);
      if Rs(raw) == 8 {
        CopBranchBounds(Decode(raw));
        BranchesTransfer(raw);
      } else {
        MovesAreStraight(raw);
      }
    }
  }

  lemma CopBranchBounds(id: InstId)
    ensures NO_CODE <= CopBranchCode(id) < 4
  {
  }

  lemma UnknownBranch(raw: U32)
    requires 16 <= Op(raw) < 20
    ensures Decode(raw).KUnknown? ==> Rs(raw) == 8 && Rt(raw) >= 4
  {
    DecodesCop(raw);
    hide Op, Rs, Rt, Decode;
  }

  /** The words with a delay slot, and the words that end a block, by their fields. */
  lemma BranchWords(raw: U32)
    ensures DoesInstHaveDelaySlot(raw) <==> TransferFields(Op(raw), Rs(raw), Rt(raw), Funct(raw))
    ensures IsInstBranch(raw)
            <==> DoesInstHaveDelaySlot(raw) || (Op(raw) == 0 && (Funct(raw) == 12 || Funct(raw) == 13))
  {
    hide Op, Rs, Rt, Funct, IsInstBranch, DoesInstHaveDelaySlot;
    if Op(raw) == 0 {
      SpecialTransfers(raw);
    } else if 16 <= Op(raw) < 20 {
      CopTransfers(raw);
    } else {
      PrimaryTransfers(raw);
    }
  }
}
