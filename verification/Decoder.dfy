/** Instruction decoding (src/mips_decode.cpp). MIPS III instructions are always allowed there. */
module Decoder {
  import opened Words

  datatype InstId =
    | KAdd | KAddu | KAddi | KAddiu | KAnd | KAndi | KDiv | KDivu | KMult | KMultu | KNor | KOr |
      KOri | KSll | KSllv | KSra | KSrav | KSrl | KSrlv | KSub | KSubu | KXor | KXori | KLui | KSlt
      | KSltu | KSlti | KSltiu | KBeq | KBne | KBgtz | KBlez | KBgez | KBgezal | KBltz | KBltzal |
      KJ | KJal | KJr | KJalr | KSyscall | KBreak | KLb | KLbu | KLh | KLhu | KLw | KLwl | KLwr |
      KLwc | KSb | KSh | KSw | KSwl | KSwr | KSwc | KMfhi | KMflo | KMthi | KMtlo | KCop | KMfc |
      KCfc | KMtc | KCtc | KNop | KBcf | KBcfl | KBct | KBctl | KBeql | KBnel | KBgezl | KBgezall |
      KBgtzl | KBlezl | KBltzl | KBltzall | KCache | KDadd | KDaddu | KDaddi | KDaddiu | KDsub |
      KDsubu | KDmult | KDmultu | KDdiv | KDdivu | KDsll | KDsll32 | KDsllv | KDsra | KDsra32 |
      KDsrav | KDsrl | KDsrl32 | KDsrlv | KDmfc | KDmtc | KLd | KLdc | KLdl | KLdr | KLwu | KLl |
      KLld | KSd | KSdc | KSdl | KSdr | KSc | KScd | KSync | KUnknown

  function Op(raw: U32): (r: int)
    ensures 0 <= r < 64
  {
    raw / 0x400_0000
  }

  function Rs(raw: U32): RegIndex { raw / 0x20_0000 % 32 }

  function Rt(raw: U32): RegIndex { raw / 0x1_0000 % 32 }

  function Rd(raw: U32): RegIndex { raw / 0x800 % 32 }

  function Shamt(raw: U32): RegIndex { raw / 64 % 32 }

  function Funct(raw: U32): (r: int)
    ensures 0 <= r < 64
  {
    raw % 64
  }

  function Imm(raw: U32): U16 { raw % 0x1_0000 }

  function CopId(raw: U32): (r: int)
    ensures 0 <= r < 4
  {
    raw / 0x400_0000 % 4
  }

  function DecodeCondBranch(raw: U32): InstId {
    var isBgez := raw / 0x1_0000 % 2 == 1;
    var isLikely := raw / 0x2_0000 % 2 == 1;
    var isLinked := raw / 0x10_0000 % 2 == 1;
    if isBgez then
      if isLikely then (if isLinked then KBgezall else KBgezl) else if isLinked then KBgezal else KBgez
    else
      if isLikely then (if isLinked then KBltzall else KBltzl) else if isLinked then KBltzal else KBltz
  }

  function DecodeTypeR(raw: U32): InstId {
    if Funct(raw) == 0 && Op(raw) == 0 && Shamt(raw) == 0 && Rd(raw) == 0 then KNop
    else if Funct(raw) == 0xF && Op(raw) == 0 && Shamt(raw) == 0 && Rd(raw) == 0 then KSync
    else
      match Funct(raw)
      case 0 => KSll
      case 2 => KSrl
      case 3 => KSra
      case 4 => KSllv
      case 6 => KSrlv
      case 7 => KSrav
      case 8 => KJr
      case 9 => KJalr
      case 12 => KSyscall
      case 13 => KBreak
      case 16 => KMfhi
      case 17 => KMthi
      case 18 => KMflo
      case 19 => KMtlo
      case 20 => KDsllv
      case 22 => KDsrlv
      case 23 => KDsrav
      case 24 => KMult
      case 25 => KMultu
      case 26 => KDiv
      case 27 => KDivu
      case 28 => KDmult
      case 29 => KDmultu
      case 30 => KDdiv
      case 31 => KDdivu
      case 32 => KAdd
      case 33 => KAddu
      case 34 => KSub
      case 35 => KSubu
      case 36 => KAnd
      case 37 => KOr
      case 38 => KXor
      case 39 => KNor
      case 42 => KSlt
      case 43 => KSltu
      case 44 => KDadd
      case 45 => KDaddu
      case 46 => KDsub
      case 47 => KDsubu
      case 56 => KDsll
      case 58 => KDsrl
      case 59 => KDsra
      case 60 => KDsll32
      case 62 => KDsrl32
      case 63 => KDsra32
      case _ => KUnknown
  }

  /** The eleven top bits select the coprocessor operation; the op field is 16..19 here. */
  function DecodeCop(raw: U32): InstId {
    match Rs(raw)
    case 8 =>
      (match Rt(raw)
       case 0 => KBcf
       case 1 => KBct
       case 2 => KBcfl
       case 3 => KBctl
       case _ => KUnknown)
    case 0 => KMfc
    case 1 => KDmfc
    case 2 => KCfc
    case 4 => KMtc
    case 5 => KDmtc
    case 6 => KCtc
    case _ => KCop
  }

  function Decode(raw: U32): InstId {
    match Op(raw)
    case 0 => DecodeTypeR(raw)
    case 1 => DecodeCondBranch(raw)
    case 16 => DecodeCop(raw)
    case 17 => DecodeCop(raw)
    case 18 => DecodeCop(raw)
    case 19 => DecodeCop(raw)
    case 2 => KJ
    case 3 => KJal
    case 4 => KBeq
    case 5 => KBne
    case 6 => KBlez
    case 7 => KBgtz
    case 8 => KAddi
    case 9 => KAddiu
    case 10 => KSlti
    case 11 => KSltiu
    case 12 => KAndi
    case 13 => KOri
    case 14 => KXori
    case 15 => KLui
    case 20 => KBeql
    case 21 => KBnel
    case 22 => KBlezl
    case 23 => KBgtzl
    case 24 => KDaddi
    case 25 => KDaddiu
    case 26 => KLdl
    case 27 => KLdr
    case 32 => KLb
    case 33 => KLh
    case 34 => KLwl
    case 35 => KLw
    case 36 => KLbu
    case 37 => KLhu
    case 38 => KLwr
    case 39 => KLwu
    case 40 => KSb
    case 41 => KSh
    case 42 => KSwl
    case 43 => KSw
    case 44 => KSdl
    case 45 => KSdr
    case 46 => KSwr
    case 47 => KCache
    case 48 => KLl
    case 49 => KLwc
    case 50 => KLwc
    case 51 => KUnknown
    case 52 => KLld
    case 53 => KLdc
    case 54 => KLdc
    case 55 => KLd
    case 56 => KSc
    case 57 => KSwc
    case 58 => KSwc
    case 59 => KUnknown
    case 60 => KScd
    case 61 => KSdc
    case 62 => KSdc
    case 63 => KSd
    case _ => KUnknown
  }

  /** An instruction that ends a block: a branch, a jump, or a trap. */
  predicate IsInstBranch(raw: U32) {
    match Decode(raw)
    case KBeq | KBne | KBgtz | KBlez | KBgez | KBgezal | KBltz | KBltzal | KJ | KJal | KJr
       | KJalr | KBcf | KBcfl | KBct | KBctl | KBeql | KBnel | KBgezl | KBgezall | KBgtzl
       | KBlezl | KBltzl | KBltzall | KSyscall | KBreak => true
    case _ => false
  }

  predicate DoesInstHaveDelaySlot(raw: U32) {
    HasDelaySlot(Decode(raw))
  }

  predicate HasDelaySlot(id: InstId) {
    match id
    case KBeq | KBne | KBgtz | KBlez | KBgez | KBgezal | KBltz | KBltzal | KJ | KJal | KJr
       | KJalr | KBcf | KBcfl | KBct | KBctl | KBeql | KBnel | KBgezl | KBgezall | KBgtzl
       | KBlezl | KBltzl | KBltzall => true
    case _ => false
  }

  lemma DecodedNop()
    ensures Decode(0).KNop?
  {
  }
}
