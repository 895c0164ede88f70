/**
 * Coprocessor 0 as a program sees it: what a move reads, what a move to a register leaves for later moves, what
 * Count reads after it was written, and where ERET goes (src/mips_cop0.cpp:100-505).
 */
module Cop0Meaning {
  import opened Words
  import opened Bits
  import opened Decoder
  import opened Encoding
  import opened Cop0
  import opened Handlers
  import opened Machine
  import opened ExceptionMeaning
  import opened StepMeaning

  // ---------------------------------------------------------------- moves

  /** The 64 bits that a doubleword move from register idx gives at instant `now`. */
  function Visible(c: Cop0Regs, idx: int, now: nat): U64
    requires !IsTlbRegister(idx)
  {
    Read(c, idx, now).1
  }

  /** What a move of v to register idx leaves there: 32-bit moves clear the upper half. */
  function Kept(c: Cop0Regs, idx: int, v: U64, is32: bool): U64 {
    var w: U64 := if is32 then v % 0x1_0000_0000 else v;
    if idx == 4 then (if is32 then w / 16 * 16 else w)
    else if idx == 6 || idx == 11 || idx == 12 then v % 0x1_0000_0000
    else if idx == 8 || idx == 14 || idx == 30 then w
    else if idx == 13 then c.cause / 0x400 * 0x400 + v / 0x100 % 4 * 0x100 + c.cause % 0x100
    else if idx == 15 then 2
    else 0
  }

  lemma ContextParts(w: U64)
    ensures w - w % 16 == w / 16 * 16
  {
    NaturalDivision(w, 16);
  }

  lemma CauseParts(c: U32, x: int)
    requires 0 <= x < 4
    ensures c - SoftwareBits(c) * 0x100 + x * 0x100 == c / 0x400 * 0x400 + x * 0x100 + c % 0x100
  {
    NaturalDivision(c, 0x100);
    NaturalDivision(c / 0x100, 4);
    DivDiv(c, 0x100, 4);
  }

  lemma LowSoftBits(v: U64)
    ensures v % 0x1_0000_0000 / 0x100 % 4 == v / 0x100 % 4
  {
    var q, r := v / 0x1_0000_0000, v % 0x1_0000_0000;
    NaturalDivision(v, 0x1_0000_0000);
    NaturalDivision(r, 0x100);
    QuotientIs(v, 0x100, q * 0x100_0000 + r / 0x100, r % 0x100);
    NaturalDivision(r / 0x100, 4);
    QuotientIs(q * 0x100_0000 + r / 0x100, 4, q * 0x40_0000 + r / 0x100 / 4, r / 0x100 % 4);
  }

  /** A written register reads back what it kept, at any time; Count apart, which runs on. */
  lemma WrittenReads(c: Cop0Regs, idx: int, v: U64, is32: bool, now: nat, later: nat)
    requires !IsTlbRegister(idx) && idx != 9
    ensures var w: U64 := if is32 then Low32(v) else v;
            Visible(Write(c, idx, w, is32, now), idx, later) == Kept(c, idx, v, is32)
  {
    var w: U64 := if is32 then Low32(v) else v;
    ContextParts(w);
    CauseParts(c.cause, v / 0x100 % 4);
    LowSoftBits(v);
    LowOfLow(v);
    hide SoftwareBits;
  }

  /** ... and every other register what it read before. */
  lemma OthersRead(c: Cop0Regs, idx: int, w: U64, is32: bool, now: nat, other: int, later: nat)
    requires !IsTlbRegister(idx) && !IsTlbRegister(other) && other != idx
    ensures Visible(Write(c, idx, w, is32, now), other, later) == Visible(c, other, later)
  {
    hide SoftwareBits, Low32, Wrap32;
  }

  /**
   * A read of Count after a write: the written value plus the instants that have passed, unless the value exceeds
   * the instant of the write, when Count restarts from zero.
   */
  lemma CountAfterWrite(c: Cop0Regs, v: U32, now: nat, later: nat)
    requires now <= later
    ensures Visible(WriteCount(c, v, now), 9, later)
            == if v <= now then Wrap32(v + (later - now)) else Wrap32(later - now)
  {
    hide Wrap32;
  }

  lemma ResetUnits(sr: U32)
    requires sr == 0x3400_0000
    ensures Usable(sr, 1) && !Usable(sr, 2) && !Usable(sr, 3)
  {
    UnitBits();
    hide Bit, Pow2;
    BitAt(sr, 29, 0x2000_0000);
    BitAt(sr, 30, 0x4000_0000);
    BitAt(sr, 31, 0x8000_0000);
  }

  lemma ResetCause(c: U32)
    requires c == 0xB000_007C
    ensures CauseIs(c, true, 3, false, false, 0, 31)
  {
  }

  /**
   * After Reset interrupts are off and masked, no exception is in progress or requested, coprocessor 1 is usable
   * and 2 and 3 are not, and Count shows the instant.
   */
  lemma AfterReset(now: nat)
    ensures !Enabled(RESET_REGS.sr) && RESET_REGS.sr % 0x100 == 0 && RESET_REGS.sr / 0x100 % 0x100 == 0
    ensures Usable(RESET_REGS.sr, 1) && !Usable(RESET_REGS.sr, 2) && !Usable(RESET_REGS.sr, 3)
    ensures CauseIs(RESET_REGS.cause, true, 3, false, false, 0, 31)
    ensures Visible(RESET_REGS, 9, now) == Wrap32(now) && Visible(RESET_REGS, 11, now) == 0
  {
    hide Usable, CauseIs, Wrap32;
    ResetUnits(RESET_REGS.sr);
    ResetCause(RESET_REGS.cause);
  }

  // ---------------------------------------------------------------- the move instructions

  lemma MoveKind(raw: U32)
    requires Op(raw) == 16
    ensures (Rs(raw) == 0 ==> Decode(raw).KMfc?) && (Rs(raw) == 1 ==> Decode(raw).KDmfc?)
    ensures (Rs(raw) == 4 ==> Decode(raw).KMtc?) && (Rs(raw) == 5 ==> Decode(raw).KDmtc?)
    ensures Rs(raw) == 3 || Rs(raw) == 7 || Rs(raw) > 8 ==> Decode(raw).KCop?
    ensures CopId(raw) == 0
  {
    DecodesCop(raw);
    CopIdIs(raw);
    hide Decode, Op, Rs, Rt, CopId;
  }

  lemma CopExec(env: Env, s: Cpu, raw: U32)
    requires IsCopInst(Decode(raw)) && CopId(raw) == 0
    ensures Exec(env, s, raw)
            == if Decode(raw).KCop? then s.(core := ExecCommand(s.core, raw)) else ExecMove(s, Decode(raw), raw)
  {
    CopIsOther(Decode(raw));
    CopIsNoNop(Decode(raw));
    hide Decode, CopId, ExecCommand, ExecMove, IsCopInst, IsCondBranch, HasDelaySlot, IsNoOp;
  }

  lemma CopIsNoNop(id: InstId)
    requires IsCopInst(id)
    ensures !IsNoOp(id)
  {
  }

  /** The value a move from coprocessor 0 writes: dmfc0 all 64 bits, mfc0 the low word with its sign. */
  function Moved(c: Cop0Regs, raw: U32, now: nat): U64
    requires !IsTlbRegister(Rd(raw))
  {
    if Rs(raw) == 1 then Visible(c, Rd(raw), now) else Sext32(Low32(Visible(c, Rd(raw), now)))
  }

  lemma MoveFromIs(env: Env, s: Cpu, raw: U32)
    requires Op(raw) == 16 && (Rs(raw) == 0 || Rs(raw) == 1) && !IsTlbRegister(Rd(raw))
    ensures var r := Exec(env, s, raw);
            && r.core == s.core.(cop0 := Read(s.core.cop0, Rd(raw), s.core.total / 2).0)
            && r.data == s.data.(gpr := SetReg(s.data.gpr, Rt(raw), Moved(s.core.cop0, raw, s.core.total / 2)))
  {
    MoveKind(raw);
    CopExec(env, s, raw);
    hide Exec, Decode, Op, Rs, Rt, Rd, CopId, Read, SetReg, Low32, Sext32, ExecCommand;
  }

  lemma ReadKeeps(c: Cop0Regs, idx: int, now: nat)
    requires !IsTlbRegister(idx)
    ensures idx != 9 ==> Read(c, idx, now).0 == c
  {
  }

  /** mfc0 and dmfc0: the register named by rt gets the value, and nothing else but a Count base changes. */
  lemma StepMovesFrom(env: Env, s: Cpu, raw: U32)
    requires At(env, s, raw) && Op(raw) == 16 && (Rs(raw) == 0 || Rs(raw) == 1) && !IsTlbRegister(Rd(raw))
    ensures var r := Step(env, s);
            && r.core.status == Running && r.core.pc == Following(s.core) && !r.core.hasBd
            && (Rd(raw) != 9 ==> r.core.cop0 == s.core.cop0)
            && r.data.gpr == (if Rt(raw) == 0 then s.data.gpr
                              else s.data.gpr[Rt(raw) := Moved(s.core.cop0, raw, s.core.total / 2)])
            && r.data == s.data.(gpr := r.data.gpr)
  {
    StepIs(env, s, raw);
    PreparedFor(s.core);
    PreparedTime(s.core);
    var p := s.(core := Prepare(s.core));
    MoveFromIs(env, p, raw);
    ReadKeeps(s.core.cop0, Rd(raw), s.core.total / 2);
    Retired(Exec(env, p, raw).core, env.config.cpi);
    hide Step, Exec, Prepare, Retire, FetchWord, Op, Rs, Rt, Rd, Moved, Read, IsTlbRegister;
  }

  lemma PreparedTime(s: Core)
    ensures Prepare(s).total == s.total
  {
  }

  lemma MoveToIs(env: Env, s: Cpu, raw: U32)
    requires Op(raw) == 16 && (Rs(raw) == 4 || Rs(raw) == 5) && !IsTlbRegister(Rd(raw))
    ensures var v := s.data.gpr[Rt(raw)];
            Exec(env, s, raw)
            == s.(core := s.core.(cop0 := Write(s.core.cop0, Rd(raw), if Rs(raw) == 4 then Low32(v) else v,
                                                Rs(raw) == 4, s.core.total / 2),
                                  compareIntr := s.core.compareIntr && Rd(raw) != 11))
  {
    MoveKind(raw);
    CopExec(env, s, raw);
    hide Exec, Decode, Op, Rs, Rt, Rd, CopId, Write, Low32, ExecCommand;
  }

  /** What later moves see after a move to coprocessor 0. */
  ghost predicate LeavesRegister(c: Cop0Regs, c': Cop0Regs, idx: int, v: U64, is32: bool, now: nat)
    requires !IsTlbRegister(idx)
  {
    && (idx != 9 ==> forall later: nat :: Visible(c', idx, later) == Kept(c, idx, v, is32))
    && (idx == 9 ==> forall later: nat :: now <= later ==>
          Visible(c', 9, later) == if v % 0x1_0000_0000 <= now then Wrap32(v % 0x1_0000_0000 + (later - now))
                                   else Wrap32(later - now))
    && forall other: int, later: nat :: !IsTlbRegister(other) && other != idx ==>
         Visible(c', other, later) == Visible(c, other, later)
  }

  lemma WriteLeaves(c: Cop0Regs, idx: int, v: U64, is32: bool, now: nat)
    requires !IsTlbRegister(idx)
    ensures LeavesRegister(c, Write(c, idx, if is32 then Low32(v) else v, is32, now), idx, v, is32, now)
  {
    hide Visible, Kept, Write, Wrap32, IsTlbRegister;
    var w: U64 := if is32 then Low32(v) else v;
    var c' := Write(c, idx, w, is32, now);
    if idx != 9 {
      forall later: nat ensures Visible(c', idx, later) == Kept(c, idx, v, is32) {
        WrittenReads(c, idx, v, is32, now, later);
      }
    } else {
      CountWriteIs(c, v, is32, now);
      forall later: nat | now <= later
        ensures Visible(c', 9, later) == if v % 0x1_0000_0000 <= now then Wrap32(v % 0x1_0000_0000 + (later - now))
                                         else Wrap32(later - now)
      {
        CountAfterWrite(c, Low32(v), now, later);
      }
    }
    forall other: int, later: nat | !IsTlbRegister(other) && other != idx
      ensures Visible(c', other, later) == Visible(c, other, later)
    {
      OthersRead(c, idx, w, is32, now, other, later);
    }
  }

  lemma CountWriteIs(c: Cop0Regs, v: U64, is32: bool, now: nat)
    ensures Write(c, 9, if is32 then Low32(v) else v, is32, now) == WriteCount(c, Low32(v), now)
  {
    LowOfLow(v);
    hide Low32, WriteCount;
  }

  /** mtc0 and dmtc0: later moves read the register back; a write of Compare drops the latched timer interrupt. */
  lemma StepMovesTo(env: Env, s: Cpu, raw: U32)
    requires At(env, s, raw) && Op(raw) == 16 && (Rs(raw) == 4 || Rs(raw) == 5) && !IsTlbRegister(Rd(raw))
    ensures var r := Step(env, s);
            && r.core.status == Running && r.core.pc == Following(s.core) && !r.core.hasBd && r.data == s.data
            && LeavesRegister(s.core.cop0, r.core.cop0, Rd(raw), s.data.gpr[Rt(raw)], Rs(raw) == 4, s.core.total / 2)
            && r.core.compareIntr == (s.core.compareIntr && Rd(raw) != 11)
  {
    StepIs(env, s, raw);
    PreparedFor(s.core);
    PreparedTime(s.core);
    var p := s.(core := Prepare(s.core));
    MoveToIs(env, p, raw);
    WriteLeaves(s.core.cop0, Rd(raw), s.data.gpr[Rt(raw)], Rs(raw) == 4, s.core.total / 2);
    Retired(Exec(env, p, raw).core, env.config.cpi);
    hide Step, Exec, Prepare, Retire, FetchWord, Op, Rs, Rt, Rd, Write, LeavesRegister, IsTlbRegister, Low32;
  }

  /** Where a handler finds what an exception recorded, by register number. */
  lemma HandlerReads(s: Core, r: Core, code: int, ce: int, epc: U64, bd: bool, now: nat)
    requires Vectored(s, r, code, ce, epc, bd) && s.cop0.sr / 2 % 2 == 0
    ensures Visible(r.cop0, 14, now) == epc && Visible(r.cop0, 8, now) == r.cop0.badVAddr
    ensures Visible(r.cop0, 12, now) == s.cop0.sr + 2
    ensures Visible(r.cop0, 13, now) == r.cop0.cause
            && CauseIs(r.cop0.cause, bd, ce, s.compareIntr, s.irq, s.cop0.cause / 0x100 % 4, code)
    ensures Visible(r.cop0, 11, now) == Visible(s.cop0, 11, now) == s.cop0.compare
  {
    hide CauseIs;
  }

  // ---------------------------------------------------------------- ERET

  lemma EretIs(env: Env, s: Cpu, raw: U32)
    requires Op(raw) == 16 && (Rs(raw) == 3 || Rs(raw) == 7 || Rs(raw) > 8) && Funct(raw) == 0x18
    ensures var (c, target) := Eret(s.core.cop0);
            Exec(env, s, raw) == s.(core := s.core.(cop0 := c, pc := target, nextPc := target, llbit := false))
  {
    MoveKind(raw);
    CopExec(env, s, raw);
    FunctIs(raw);
    hide Exec, Decode, Op, Rs, CopId, Eret, Funct, ExecMove;
  }

  lemma FunctIs(raw: U32)
    ensures Funct(raw) == raw % 64
  {
  }

  /** ERET: ErrorEPC and ERL while ERL is set, EPC and EXL otherwise; the linked load is dropped. */
  lemma StepReturns(env: Env, s: Cpu, raw: U32)
    requires At(env, s, raw) && Op(raw) == 16 && (Rs(raw) == 3 || Rs(raw) == 7 || Rs(raw) > 8) && Funct(raw) == 0x18
    ensures var r, c := Step(env, s), s.core.cop0;
            && r.core.status == Running && !r.core.hasBd && !r.core.llbit && r.data == s.data
            && r.core.cop0 == c.(sr := r.core.cop0.sr)
            && (if c.sr / 4 % 2 == 1 then r.core.pc == c.errorEpc && r.core.cop0.sr == c.sr - 4
                else r.core.pc == c.epc && r.core.cop0.sr == c.sr - (if c.sr / 2 % 2 == 1 then 2 else 0))
  {
    StepIs(env, s, raw);
    PreparedFor(s.core);
    var p := s.(core := Prepare(s.core));
    EretIs(env, p, raw);
    Retired(Exec(env, p, raw).core, env.config.cpi);
    hide Step, Exec, Prepare, Retire, FetchWord, Op, Rs, Funct;
  }

  // ---------------------------------------------------------------- the other commands and the control moves

  lemma CommandIs(env: Env, s: Cpu, raw: U32)
    requires Op(raw) == 16 && (Rs(raw) == 3 || Rs(raw) == 7 || Rs(raw) > 8)
    ensures var f := Funct(raw);
            Exec(env, s, raw)
            == if f == 0x10 then s.(core := s.core.(cop0 := Rfe(s.core.cop0)))
               else if f == 0x18 || f == 1 || f == 2 || f == 6 || f == 8 then Exec(env, s, raw)
               else s
  {
    MoveKind(raw);
    CopExec(env, s, raw);
    FunctIs(raw);
    hide Exec, Decode, Op, Rs, CopId, Eret, Funct, ExecMove, Rfe;
  }

  lemma PoppedMode(c: Cop0Regs)
    ensures Rfe(c).sr / 16 == c.sr / 16 && Rfe(c).sr % 16 == c.sr / 4 % 16 && Rfe(c) == c.(sr := Rfe(c).sr)
  {
    NaturalDivision(c.sr, 16);
    QuotientIs(Rfe(c).sr, 16, c.sr / 16, c.sr / 4 % 16);
  }

  /** RFE pops the mode bits: bits 2 to 5 of Status move to bits 0 to 3, and bits 4 and up stay. */
  lemma StepPopsMode(env: Env, s: Cpu, raw: U32)
    requires At(env, s, raw) && Op(raw) == 16 && (Rs(raw) == 3 || Rs(raw) == 7 || Rs(raw) > 8) && Funct(raw) == 0x10
    ensures var r, c := Step(env, s), s.core.cop0;
            && r.core.status == Running && r.core.pc == Following(s.core) && !r.core.hasBd && r.data == s.data
            && r.core.cop0 == c.(sr := r.core.cop0.sr)
            && r.core.cop0.sr / 16 == c.sr / 16 && r.core.cop0.sr % 16 == c.sr / 4 % 16
  {
    StepIs(env, s, raw);
    PreparedFor(s.core);
    var p := s.(core := Prepare(s.core));
    CommandIs(env, p, raw);
    PoppedMode(s.core.cop0);
    Retired(Exec(env, p, raw).core, env.config.cpi);
    hide Step, Exec, Prepare, Retire, FetchWord, Op, Rs, Funct, Rfe;
  }

  /** Commands that are not TLBR, TLBWI, TLBWR, TLBP, RFE or ERET do nothing. */
  lemma StepIgnoresCommand(env: Env, s: Cpu, raw: U32)
    requires At(env, s, raw) && Op(raw) == 16 && (Rs(raw) == 3 || Rs(raw) == 7 || Rs(raw) > 8)
    requires Funct(raw) !in {0x01, 0x02, 0x06, 0x08, 0x10, 0x18}
    ensures Completed(s.core, Step(env, s).core, Following(s.core)) && Step(env, s).data == s.data
  {
    StepIs(env, s, raw);
    PreparedFor(s.core);
    var p := s.(core := Prepare(s.core));
    CommandIs(env, p, raw);
    Retired(p.core, env.config.cpi);
    hide Step, Exec, Prepare, Retire, FetchWord, Op, Rs, Funct;
  }

  lemma ControlMoveIs(env: Env, s: Cpu, raw: U32)
    requires Op(raw) == 16 && (Rs(raw) == 2 || Rs(raw) == 6)
    ensures Exec(env, s, raw)
            == if Rs(raw) == 2 then s.(data := s.data.(gpr := SetReg(s.data.gpr, Rt(raw), 0))) else s
  {
    ControlMoveKind(raw);
    CopExec(env, s, raw);
    hide Exec, Decode, Op, Rs, Rt, Rd, CopId, ExecCommand, SetReg;
  }

  lemma ControlMoveKind(raw: U32)
    requires Op(raw) == 16
    ensures (Rs(raw) == 2 ==> Decode(raw).KCfc?) && (Rs(raw) == 6 ==> Decode(raw).KCtc?) && CopId(raw) == 0
  {
    DecodesCop(raw);
    CopIdIs(raw);
    hide Decode, Op, Rs, Rt, CopId;
  }

  /** cfc0 reads zero, and ctc0 is ignored. */
  lemma StepControlMoves(env: Env, s: Cpu, raw: U32)
    requires At(env, s, raw) && Op(raw) == 16 && (Rs(raw) == 2 || Rs(raw) == 6)
    ensures var r := Step(env, s);
            && Completed(s.core, r.core, Following(s.core))
            && r.data == s.data.(gpr := if Rs(raw) == 6 || Rt(raw) == 0 then s.data.gpr else s.data.gpr[Rt(raw) := 0])
  {
    StepIs(env, s, raw);
    PreparedFor(s.core);
    var p := s.(core := Prepare(s.core));
    ControlMoveIs(env, p, raw);
    Retired(p.core, env.config.cpi);
    hide Step, Exec, Prepare, Retire, FetchWord, Op, Rs, Rt;
  }
}
