/**
 * Coprocessor 0 (src/mips_cop0.cpp): status, cause and exception registers, and the Count/Compare timer.
 *
 * `now` is the CPU timestamp divided by two, the rate at which Count runs. Timestamps are unbounded
 * here; Count and Compare wrap at 32 bits. The TLB registers live in the TLB and Random is not modelled.
 */
module Cop0 {
  import opened Words

  datatype Cop0Regs = Cop0Regs(
    context: U64, wired: U32, badVAddr: U64, compare: U32, sr: U32, cause: U32, epc: U64, errorEpc: U64,
    countStart: nat, lastCheck: nat, suppress: bool)

  const RESET_REGS := Cop0Regs(0, 0, 0, 0, 0x3400_0000, 0xB000_007C,
                               0xFFFF_FFFF_FFFF_FFFF, 0xFFFF_FFFF_FFFF_FFFF, 0, 0, false)

  // Status register bits.

  predicate Ie(sr: U32) { sr % 2 == 1 }

  predicate Exl(sr: U32) { sr / 2 % 2 == 1 }

  predicate Erl(sr: U32) { sr / 4 % 2 == 1 }

  function SetExl(sr: U32): U32 { if Exl(sr) then sr else sr + 2 }

  function ClearExl(sr: U32): U32 { if Exl(sr) then sr - 2 else sr }

  function ClearErl(sr: U32): U32 { if Erl(sr) then sr - 4 else sr }

  /** The two software interrupt bits, cause & 0x300, which only software changes. */
  function SoftwareBits(cause: U32): int { cause / 0x100 % 4 }

  predicate IsTlbRegister(idx: int) {
    idx == 0 || idx == 1 || idx == 2 || idx == 3 || idx == 5 || idx == 10
  }

  // ---------------------------------------------------------------- the timer

  function CountAt(c: Cop0Regs, now: int): U32 { Wrap32(now - c.countStart) }

  /** compare is in (start, end], modulo 2^32: the branch that is compiled in. */
  predicate Crossed(start: U32, end: U32, compare: U32) {
    Wrap32(compare - start - 1) <= Wrap32(end - start - 1)
  }

  function CheckCompare(c: Cop0Regs, now: nat): (r: (Cop0Regs, bool)) {
    if c.suppress then (c.(suppress := false, lastCheck := now), false)
    else if c.lastCheck > now then (c.(lastCheck := now), false)
    else if c.lastCheck == now then (c, false)
    else (c.(lastCheck := now), Crossed(CountAt(c, c.lastCheck), CountAt(c, now), c.compare))
  }

  function WriteCount(c: Cop0Regs, value: U32, now: nat): Cop0Regs {
    if now < value then c.(countStart := now) else c.(countStart := now - value, suppress := true)
  }

  function ReadCount(c: Cop0Regs, now: nat): (Cop0Regs, U32) {
    if now < c.countStart then (c.(countStart := now), 0) else (c, CountAt(c, now))
  }

  // ---------------------------------------------------------------- register file

  /** mfc0/dmfc0 of a register other than the TLB's; a 32-bit read truncates. */
  function Read(c: Cop0Regs, idx: int, now: nat): (Cop0Regs, U64)
    requires !IsTlbRegister(idx)
  {
    match idx
    case 4 => (c, c.context)
    case 6 => (c, c.wired)
    case 8 => (c, c.badVAddr)
    case 9 => ReadCount(c, now)
    case 11 => (c, c.compare)
    case 12 => (c, c.sr)
    case 13 => (c, c.cause)
    case 14 => (c, c.epc)
    case 15 => (c, 2)
    case 30 => (c, c.errorEpc)
    case _ => (c, 0)
  }

  /** mtc0 (is32) or dmtc0 of a register other than the TLB's. */
  function Write(c: Cop0Regs, idx: int, value: U64, is32: bool, now: nat): Cop0Regs
    requires !IsTlbRegister(idx)
  {
    match idx
    case 4 => c.(context := if is32 then value - value % 16 else value)
    case 6 => c.(wired := Low32(value))
    case 8 => c.(badVAddr := value)
    case 9 => WriteCount(c, Low32(value), now)
    case 11 => c.(compare := Low32(value), suppress := true)
    case 12 => c.(sr := Low32(value))
    case 13 => c.(cause := c.cause - SoftwareBits(c.cause) * 0x100 + value / 0x100 % 4 * 0x100)
    case 14 => c.(epc := value)
    case 30 => c.(errorEpc := value)
    case _ => c
  }

  /** ERET: where execution resumes and the registers afterwards. */
  function Eret(c: Cop0Regs): (Cop0Regs, U64) {
    if Erl(c.sr) then (c.(sr := ClearErl(c.sr)), c.errorEpc)
    else (c.(sr := ClearExl(c.sr)), c.epc)
  }

  /** RFE: pops the three mode pairs of the status register. */
  function Rfe(c: Cop0Regs): Cop0Regs {
    c.(sr := c.sr - c.sr % 16 + c.sr / 4 % 16)
  }

  // ---------------------------------------------------------------- the object

  class MipsCop0 {
    var context: U64
    var wired: U32
    var badVAddr: U64
    var compare: U32
    var sr: U32
    var cause: U32
    var epc: U64
    var errorEpc: U64
    var countStart: nat
    var lastCheck: nat
    var suppress: bool

    ghost function Regs(): Cop0Regs
      reads this
    {
      Cop0Regs(context, wired, badVAddr, compare, sr, cause, epc, errorEpc, countStart, lastCheck, suppress)
    }

    constructor ()
      ensures Regs() == RESET_REGS
    {
      context, wired, badVAddr, compare := 0, 0, 0, 0;
      sr, cause := 0x3400_0000, 0xB000_007C;
      epc, errorEpc := 0xFFFF_FFFF_FFFF_FFFF, 0xFFFF_FFFF_FFFF_FFFF;
      countStart, lastCheck, suppress := 0, 0, false;
    }

    method Reset()
      modifies this
      ensures Regs() == RESET_REGS
    {
      context, wired, badVAddr, compare := 0, 0, 0, 0;
      sr, cause := 0x3400_0000, 0xB000_007C;
      epc, errorEpc := 0xFFFF_FFFF_FFFF_FFFF, 0xFFFF_FFFF_FFFF_FFFF;
      countStart, lastCheck, suppress := 0, 0, false;
    }

    method CheckCompareInterrupt(timestamp: nat) returns (crossed: bool)
      modifies this
      ensures (Regs(), crossed) == CheckCompare(old(Regs()), timestamp / 2)
    {
      var now := timestamp / 2;
      if suppress {
        suppress := false;
        lastCheck := now;
        return false;
      }
      if lastCheck > now {
        lastCheck := now;
        return false;
      }
      var delta := now - lastCheck;
      if delta == 0 {
        return false;
      }
      var start: int := Wrap32(lastCheck - countStart);
      var end: int := Wrap32(now - countStart);
      crossed := Wrap32(compare - start - 1) <= Wrap32(end - start - 1);
      lastCheck := now;
    }

    method SetCount(value: U32, timestamp: nat)
      modifies this
      ensures Regs() == WriteCount(old(Regs()), value, timestamp / 2)
    {
      var now := timestamp / 2;
      if now < value {
        countStart := now;
        return;
      }
      countStart := now - value;
      suppress := true;
    }

    method GetCount(timestamp: nat) returns (count: U32)
      modifies this
      ensures (Regs(), count) == ReadCount(old(Regs()), timestamp / 2)
    {
      var now := timestamp / 2;
      if now < countStart {
        countStart := now;
        return 0;
      }
      count := Wrap32(now - countStart);
    }

    method ReadRegister(idx: int, timestamp: nat) returns (value: U64)
      requires !IsTlbRegister(idx)
      modifies this
      ensures (Regs(), value) == Read(old(Regs()), idx, timestamp / 2)
    {
      match idx
      case 4 => value := context;
      case 6 => value := wired;
      case 8 => value := badVAddr;
      case 9 => value := GetCount(timestamp);
      case 11 => value := compare;
      case 12 => value := sr;
      case 13 => value := cause;
      case 14 => value := epc;
      case 15 => value := 2;
      case 30 => value := errorEpc;
      case _ => value := 0;
    }

    /** `clearsCompare` asks the CPU to drop its latched timer interrupt. */
    method WriteRegister(idx: int, value: U64, is32: bool, timestamp: nat) returns (clearsCompare: bool)
      requires !IsTlbRegister(idx)
      modifies this
      ensures Regs() == Write(old(Regs()), idx, value, is32, timestamp / 2)
      ensures clearsCompare <==> idx == 11
    {
      clearsCompare := idx == 11;
      match idx
      case 4 => context := if is32 then value - value % 16 else value;
      case 6 => wired := Low32(value);
      case 8 => badVAddr := value;
      case 9 => SetCount(Low32(value), timestamp);
      case 11 => compare, suppress := Low32(value), true;
      case 12 => sr := Low32(value);
      case 13 => cause := cause - SoftwareBits(cause) * 0x100 + value / 0x100 % 4 * 0x100;
      case 14 => epc := value;
      case 30 => errorEpc := value;
      case _ =>
    }

    method PopMode()
      modifies this`sr
      ensures Regs() == Rfe(old(Regs()))
    {
      sr := sr - sr % 16 + sr / 4 % 16;
    }

    method ReturnFromException() returns (target: U64)
      modifies this
      ensures (Regs(), target) == Eret(old(Regs()))
    {
      if Erl(sr) {
        sr := ClearErl(sr);
        target := errorEpc;
      } else {
        sr := ClearExl(sr);
        target := epc;
      }
    }
  }
}
