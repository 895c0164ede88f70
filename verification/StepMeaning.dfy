/**
 * One plain step by the fields of the word at pc: where it goes, what it links, when it traps, and what it leaves
 * alone (src/mips_base.cpp:508-562, 1747-1930).
 */
module StepMeaning {
  import opened Words
  import opened Bits
  import opened Decoder
  import opened Encoding
  import opened Handlers
  import opened Machine
  import opened ExceptionMeaning

  /** The word at pc. */
  predicate At(env: Env, s: Cpu, raw: U32) {
    s.core.status == Running && FetchWord(env, s.core.pc) == Some(raw)
  }

  /** Where the instruction at pc continues when it does not transfer control. */
  function Following(s: Core): U64 { if s.hasBd then s.bdDst else Wrap64(s.pc + 4) }

  /** The step completed at `next` with the flag clear; coprocessor 0 and the lines are as before. */
  predicate Completed(s: Core, r: Core, next: U64) {
    && r.status == Running && r.pc == next && !r.hasBd
    && r.cop0 == s.cop0 && r.compareIntr == s.compareIntr && r.llbit == s.llbit
  }

  lemma PreparedFor(s: Core)
    ensures var p := Prepare(s);
            && !p.hasBd && p.nextPc == Following(s) && p.pc == s.pc && p.cop0 == s.cop0 && p.status == s.status
            && p.compareIntr == s.compareIntr && p.irq == s.irq && p.llbit == s.llbit && p.fpFlag == s.fpFlag
  {
    hide Wrap64;
  }

  lemma Retired(r: Core, n: nat)
    ensures var q := Retire(r, n);
            && q.status == r.status && q.hasBd == r.hasBd && q.bdDst == r.bdDst && q.cop0 == r.cop0
            && q.compareIntr == r.compareIntr && q.irq == r.irq && q.llbit == r.llbit
            && (r.status == Running ==> q.pc == r.nextPc)
  {
  }

  // ---------------------------------------------------------------- instructions that only compute

  /** Neither a no-op nor a coprocessor instruction. */
  predicate IsPlain(id: InstId) { !IsNoOp(id) && !IsCopInst(id) }

  lemma ShiftIsPlain(id: InstId)
    requires ShiftCode(id) != NO_CODE
    ensures IsPlain(id)
  {
  }

  lemma WideShiftIsPlain(id: InstId)
    requires WideShiftCode(id) != NO_CODE
    ensures IsPlain(id)
  {
  }

  lemma HiLoIsPlain(id: InstId)
    requires HiLoCode(id) != NO_CODE || id.KUnknown?
    ensures IsPlain(id)
  {
  }

  lemma ArithmeticIsPlain(id: InstId)
    requires ArithmeticCode(id) != NO_CODE
    ensures IsPlain(id)
  {
  }

  lemma LogicIsPlain(id: InstId)
    requires LogicCode(id) != NO_CODE
    ensures IsPlain(id)
  {
  }

  lemma ImmediateIsPlain(id: InstId)
    requires ImmediateCode(id) != NO_CODE
    ensures IsPlain(id)
  {
  }

  lemma LoadIsPlain(id: InstId)
    requires LoadCode(id) != NO_CODE
    ensures IsPlain(id)
  {
  }

  lemma StoreIsPlain(id: InstId)
    requires StoreCode(id) != NO_CODE
    ensures IsPlain(id)
  {
  }

  lemma UnalignedIsPlain(id: InstId)
    requires UnalignedCode(id) != NO_CODE
    ensures IsPlain(id)
  {
  }

  lemma OtherIsPlain(id: InstId)
    requires OtherCode(id) != NO_CODE
    ensures IsPlain(id) <==> OtherCode(id) != 47
    ensures IsNoOp(id) <==> OtherCode(id) == 47
  {
  }

  /** The words that only compute: no branch, trap, no-op, CACHE or coprocessor instruction. */
  predicate OnlyComputes(raw: U32) {
    var op, f := Op(raw), Funct(raw);
    if op == 0 then !(f in {8, 9, 12, 13}) && !((f == 0 || f == 15) && HasNoTarget(raw))
    else 8 <= op < 16 || (24 <= op && op != 47 && !IsCopMemoryOp(op))
  }

  lemma SpecialComputes(raw: U32)
    requires Op(raw) == 0 && OnlyComputes(raw)
    ensures IsPlain(Decode(raw))
  {
    hide Op, HasNoTarget, Decode, ShiftCode, WideShiftCode, ControlCode, HiLoCode, ArithmeticCode, LogicCode, Funct;
    hide IsPlain;
    var f, id := Funct(raw), Decode(raw);
    if f in {1, 5, 10, 11, 14, 21, 40, 41, 57, 61} || 48 <= f < 56 || (f == 15 && !HasNoTarget(raw)) {
      NoSpecialWord(raw);
      HiLoIsPlain(id);
    } else if f in {0, 2, 3, 4, 6, 7} {
      ShiftWord(raw);
      ShiftIsPlain(id);
    } else if f in {20, 22, 23, 56, 58, 59, 60, 62, 63} {
      WideShiftWord(raw);
      WideShiftIsPlain(id);
    } else if 16 <= f < 20 || 24 <= f < 32 {
      HiLoWord(raw);
      HiLoIsPlain(id);
    } else if 32 <= f < 36 || 42 <= f < 48 {
      ArithmeticWord(raw);
      ArithmeticIsPlain(id);
    } else {
      LogicWord(raw);
      LogicIsPlain(id);
    }
  }

  lemma PrimaryComputes(raw: U32)
    requires Op(raw) != 0 && OnlyComputes(raw)
    ensures IsPlain(Decode(raw))
  {
    hide Op, Decode, ImmediateCode, LoadCode, StoreCode, UnalignedCode, OtherCode, IsPlain;
    var op, id := Op(raw), Decode(raw);
    if 28 <= op < 32 || op == 51 || op == 59 {
      NoPrimaryWord(raw);
      HiLoIsPlain(id);
    } else if 8 <= op < 16 || 24 <= op < 26 {
      ImmediateWord(raw);
      ImmediateIsPlain(id);
    } else if op in {32, 33, 35, 36, 37, 39, 55} {
      LoadOpcode(raw);
      LoadIsPlain(id);
    } else if op in {40, 41, 43, 63} {
      StoreOpcode(raw);
      StoreIsPlain(id);
    } else if op in {26, 27, 34, 38, 42, 44, 45, 46} {
      UnalignedWord(raw);
      UnalignedIsPlain(id);
    } else {
      OtherWord(raw);
      OtherIsPlain(id);
    }
  }

  lemma NoTrapWord(raw: U32)
    ensures !IsInstBranch(raw) ==> !Decode(raw).KSyscall? && !Decode(raw).KBreak?
    ensures IsCondBranch(Decode(raw)) ==> DoesInstHaveDelaySlot(raw)
  {
    hide Decode, HasDelaySlot;
  }

  lemma ExecComputes(env: Env, s: Cpu, raw: U32)
    requires OnlyComputes(raw)
    ensures Exec(env, s, raw) == Commit(env, s, Compute(env.tlb, env.config.strict, raw, s.data))
  {
    if Op(raw) == 0 { SpecialComputes(raw); } else { PrimaryComputes(raw); }
    BranchWords(raw);
    NoTrapWord(raw);
    hide Decode, Compute, Commit, IsNoOp, HasDelaySlot, IsCopInst, OnlyComputes;
  }

  lemma VectorNext(env: Env, s: Core, cause: Cause)
    requires !s.hasBd
    ensures TriggerException(env, s, cause).nextPc == 0x8000_0180
  {
    hide EnterException;
  }

  /** The state in which the instruction at pc raises its exception. */
  function Faulting(s: Core, bad: Option<U64>): Core { SetBadVAddr(Prepare(s), bad) }

  lemma FaultingIs(s: Core, bad: Option<U64>, cause: Cause)
    ensures var p := Faulting(s, bad);
            && p.status == s.status && p.pc == s.pc && !p.hasBd && p.compareIntr == s.compareIntr && p.irq == s.irq
            && p.cop0 == s.cop0.(badVAddr := if bad.Some? then bad.value else s.cop0.badVAddr)
            && UnitOf(p, cause) == UnitOf(s, cause)
  {
    hide Wrap64;
  }

  /** An exception raised by the instruction at pc: EPC is its own address and BD is clear. */
  lemma RaisedAt(env: Env, s: Core, bad: Option<U64>, cause: Cause, n: nat)
    requires s.status == Running
    ensures var r := Retire(TriggerException(env, Faulting(s, bad), cause), n);
            && Vectored(s, r, CauseCode(cause), UnitOf(s, cause), s.pc, false)
            && r.cop0.badVAddr == if bad.Some? then bad.value else s.cop0.badVAddr
  {
    var p := Faulting(s, bad);
    FaultingIs(s, bad, cause);
    ExceptionVectors(env, p, cause);
    KeepsBadVAddr(env, p, cause);
    Retired(TriggerException(env, p, cause), n);
    VectorNext(env, p, cause);
    hide TriggerException, Faulting, Retire, CauseIs, CauseCode, BranchBefore, UnitOf;
  }

  lemma KeepsBadVAddr(env: Env, s: Core, cause: Cause)
    requires !s.hasBd
    ensures TriggerException(env, s, cause).cop0.badVAddr == s.cop0.badVAddr
  {
  }

  /**
   * A word that only computes: its outcome is committed and pc moves on, or its exception is taken with EPC at the
   * word itself and nothing is written, or the CPU panics.
   */
  lemma StepComputes(env: Env, s: Cpu, raw: U32)
    requires At(env, s, raw) && OnlyComputes(raw)
    ensures var r, o := Step(env, s), Compute(env.tlb, env.config.strict, raw, s.data);
            match o
            case Done(d) => Completed(s.core, r.core, Following(s.core)) && r.data == d
            case Fatal => r.core.status == Panicked
            case Raise(cause, bad) =>
              && Vectored(s.core, r.core, CauseCode(cause), UnitOf(s.core, cause), s.core.pc, false)
              && r.core.cop0.badVAddr == (if bad.Some? then bad.value else s.core.cop0.badVAddr)
              && r.data == s.data
  {
    StepIs(env, s, raw);
    var p := s.(core := Prepare(s.core));
    ExecComputes(env, p, raw);
    PreparedFor(s.core);
    var o := Compute(env.tlb, env.config.strict, raw, s.data);
    Retired(CommitCore(env, p.core, o), env.config.cpi);
    if o.Raise? { RaisedAt(env, s.core, o.bad, o.cause, env.config.cpi); }
    hide Step, Exec, Compute, Prepare, Retire, TriggerException, OnlyComputes, Vectored, FetchWord, SetBadVAddr;
  }

  // ---------------------------------------------------------------- traps and no-ops

  lemma TrapIs(env: Env, s: Cpu, raw: U32)
    requires Op(raw) == 0 && (Funct(raw) == 12 || Funct(raw) == 13)
    ensures Exec(env, s, raw)
            == s.(core := TriggerException(env, s.core, if Funct(raw) == 12 then Syscall else Breakpoint))
  {
    ControlWord(raw);
    ControlIsSplit(raw);
    hide Decode, TriggerException, Op, Funct, HasNoTarget;
  }

  /** SYSCALL and BREAK raise exceptions 8 and 9. */
  lemma StepTraps(env: Env, s: Cpu, raw: U32)
    requires At(env, s, raw) && Op(raw) == 0 && (Funct(raw) == 12 || Funct(raw) == 13)
    ensures var r := Step(env, s);
            Vectored(s.core, r.core, if Funct(raw) == 12 then 8 else 9, 0, s.core.pc, false) && r.data == s.data
  {
    StepIs(env, s, raw);
    TrapIs(env, s.(core := Prepare(s.core)), raw);
    RaisedAt(env, s.core, None, if Funct(raw) == 12 then Syscall else Breakpoint, env.config.cpi);
    NoBadVAddr(Prepare(s.core));
    hide Step, Exec, Prepare, Retire, TriggerException, Vectored, FetchWord, SetBadVAddr, Op, Funct;
  }

  lemma NoBadVAddr(s: Core)
    ensures SetBadVAddr(s, None) == s
  {
  }

  /** NOP, SYNC and CACHE: for the CPU they only take time. */
  predicate IsIdleWord(raw: U32) {
    (Op(raw) == 0 && (Funct(raw) == 0 || Funct(raw) == 15) && HasNoTarget(raw)) || Op(raw) == 47
  }

  lemma IdleIs(env: Env, s: Cpu, raw: U32)
    requires IsIdleWord(raw)
    ensures Exec(env, s, raw) == s
  {
    if Op(raw) == 47 {
      OtherWord(raw);
      OtherIsPlain(Decode(raw));
    } else {
      ControlWord(raw);
      ControlRests(Decode(raw));
    }
    hide Decode, Op, Funct, HasNoTarget, IsNoOp, IsPlain;
  }

  lemma ControlRests(id: InstId)
    requires ControlCode(id) == 0 || ControlCode(id) == 15
    ensures IsNoOp(id)
  {
  }

  lemma StepRests(env: Env, s: Cpu, raw: U32)
    requires At(env, s, raw) && IsIdleWord(raw)
    ensures var r := Step(env, s); Completed(s.core, r.core, Following(s.core)) && r.data == s.data
  {
    StepIs(env, s, raw);
    IdleIs(env, s.(core := Prepare(s.core)), raw);
    PreparedFor(s.core);
    Retired(Prepare(s.core), env.config.cpi);
    hide Step, Exec, Prepare, Retire, IsIdleWord, FetchWord;
  }

  // ---------------------------------------------------------------- conditional branches

  /** The opcodes of the integer branches. */
  predicate IsIntegerBranch(op: int) { op == 1 || 4 <= op < 8 || 20 <= op < 24 }

  /** The condition of an integer branch on signed register values. */
  predicate Holds(op: int, rt: int, x: int, y: int) {
    if op == 1 then (if rt % 2 == 1 then x >= 0 else x < 0)
    else if op % 4 == 0 then x == y
    else if op % 4 == 1 then x != y
    else if op % 4 == 2 then x <= 0
    else x > 0
  }

  /** The slot is nullified when the branch is not taken. */
  predicate Nullifies(op: int, rt: int) { op >= 20 || (op == 1 && rt / 2 % 2 == 1) }

  predicate LinksAt(op: int, rt: int) { op == 1 && rt / 16 == 1 }

  lemma PrimaryBranchTaken(raw: U32, gpr: Regs, flag: bool)
    requires 4 <= Op(raw) < 8 || 20 <= Op(raw) < 24
    ensures BranchTaken(Decode(raw), raw, gpr, flag)
            == Holds(Op(raw), Rt(raw), Signed64(gpr[Rs(raw)]), Signed64(gpr[Rt(raw)]))
  {
    BranchWord(raw);
    hide Decode, Op, Rs, Rt, Signed64;
  }

  lemma RegImmBranchTaken(raw: U32, gpr: Regs, flag: bool)
    requires Op(raw) == 1
    ensures BranchTaken(Decode(raw), raw, gpr, flag)
            == Holds(Op(raw), Rt(raw), Signed64(gpr[Rs(raw)]), Signed64(gpr[Rt(raw)]))
  {
    RegImmWord(raw);
    hide Decode, Op, Rs, Rt, Signed64;
  }

  lemma PrimaryBranchKind(raw: U32)
    requires 4 <= Op(raw) < 8 || 20 <= Op(raw) < 24
    ensures var id := Decode(raw);
            && IsLikely(id) == Nullifies(Op(raw), Rt(raw)) && IsLinkingBranch(id) == LinksAt(Op(raw), Rt(raw))
            && !IsCopBranch(id) && !id.KJ? && !id.KJal? && !id.KJr? && !id.KJalr?
  {
    BranchWord(raw);
    hide Decode, Op, Rt;
  }

  lemma RegImmBranchKind(raw: U32)
    requires Op(raw) == 1
    ensures var id := Decode(raw);
            && IsLikely(id) == Nullifies(Op(raw), Rt(raw)) && IsLinkingBranch(id) == LinksAt(Op(raw), Rt(raw))
            && !IsCopBranch(id) && !id.KJ? && !id.KJal? && !id.KJr? && !id.KJalr?
  {
    RegImmWord(raw);
    hide Decode, Op, Rt;
  }

  lemma BranchKind(raw: U32, gpr: Regs, flag: bool)
    requires IsIntegerBranch(Op(raw))
    ensures var id := Decode(raw);
            && BranchTaken(id, raw, gpr, flag)
               == Holds(Op(raw), Rt(raw), Signed64(gpr[Rs(raw)]), Signed64(gpr[Rt(raw)]))
            && IsLikely(id) == Nullifies(Op(raw), Rt(raw)) && IsLinkingBranch(id) == LinksAt(Op(raw), Rt(raw))
            && !IsCopBranch(id) && IsCondBranch(id) && !IsNoOp(id)
  {
    BranchWords(raw);
    if Op(raw) == 1 {
      RegImmBranchTaken(raw, gpr, flag);
      RegImmBranchKind(raw);
    } else {
      PrimaryBranchTaken(raw, gpr, flag);
      PrimaryBranchKind(raw);
    }
    BranchIsNoIdle(Decode(raw));
    hide Decode, Op, Rs, Rt, Signed64, BranchTaken, Holds, IsLikely, Nullifies, LinksAt, IsLinkingBranch, IsCopBranch;
    hide Funct, HasDelaySlot;
  }

  lemma BranchIsNoIdle(id: InstId)
    ensures HasDelaySlot(id) ==> !IsNoOp(id)
  {
  }

  /** The sign-extended immediate, in words. */
  function Displacement(raw: U32): int { 4 * Signed16(Imm(raw)) }

  /** The spinning branch whose delay slot cannot be fetched: the only integer branch that panics. */
  predicate SpinPanics(env: Env, s: Core, raw: U32) {
    raw == 0x1000_FFFF && FetchWord(env, Wrap64(s.pc + 4)) == None
  }

  /** The credit of the spinning branch, or its panic. */
  lemma BonusOnly(env: Env, s: Core)
    ensures var r := IdleBonus(env, s);
            if FetchWord(env, Wrap64(s.pc + 4)) == None then r == s.(status := Panicked) else r == s.(total := r.total)
  {
    hide FetchWord, Wrap64;
  }

  /** A branch that has been decided: whether it is taken, is likely, and links. */
  datatype Decision = Decision(taken: bool, likely: bool, links: bool)

  /** The decision of the conditional branch raw on s. */
  function Decided(s: Cpu, raw: U32): Decision {
    var id := Decode(raw);
    Decision(BranchTaken(id, raw, s.data.gpr, CopFlag(s.core, CopId(raw))), IsLikely(id), IsLinkingBranch(id))
  }

  /** What the decision makes of the core, apart from idle credit. */
  function Branched(s: Core, raw: U32, d: Decision): Core {
    if d.taken then s.(hasBd := true, bdDst := Wrap64(s.pc + 4 + Displacement(raw)))
    else if d.likely then s.(nextPc := Wrap64(s.pc + 8))
    else s
  }

  function LinkedBy(s: Cpu, d: Decision): Data {
    if d.links then LinkForJump(s.data, s.core.pc, 31) else s.data
  }

  lemma BranchIs(env: Env, s: Cpu, raw: U32)
    requires IsCondBranch(Decode(raw)) && !IsNoOp(Decode(raw)) && !RaisesCop(s.core, Decode(raw), raw)
    ensures var d := Decided(s, raw);
            var p := if raw == 0x1000_FFFF then IdleBonus(env, s.core) else s.core;
            var core := TakeBranch(p, Decode(raw), raw, d.taken);
            Exec(env, s, raw) == Cpu(if core.status == Running then LinkedBy(s, d) else s.data, core)
  {
    hide Decode, BranchTaken, IsLinkingBranch, LinkForJump, TakeBranch, IdleBonus, IsCondBranch, IsNoOp, RaisesCop;
    hide CopFlag, CopId, IsLikely;
  }

  lemma TakesBranch(s: Core, raw: U32, d: Decision)
    requires d.likely == IsLikely(Decode(raw)) && s.status == Running
    ensures TakeBranch(s, Decode(raw), raw, d.taken) == Branched(s, raw, d)
  {
    hide Decode, IsLikely, Wrap64;
  }

  lemma BranchedFields(s: Core, raw: U32, d: Decision)
    requires !s.hasBd
    ensures var r := Branched(s, raw, d);
            && r.status == s.status && r.cop0 == s.cop0 && r.hasBd == d.taken && r.total == s.total
            && (d.taken ==> r.bdDst == Wrap64(s.pc + 4 + Displacement(raw)) && r.nextPc == s.nextPc)
            && (!d.taken ==> r.nextPc == if d.likely then Wrap64(s.pc + 8) else s.nextPc)
  {
    hide Wrap64, Displacement;
  }

  /** What a conditional branch leaves before the CPU advances. */
  lemma ExecBranches(env: Env, s: Cpu, raw: U32)
    requires IsCondBranch(Decode(raw)) && !IsNoOp(Decode(raw)) && !RaisesCop(s.core, Decode(raw), raw)
    requires s.core.status == Running && !s.core.hasBd && !SpinPanics(env, s.core, raw)
    ensures var r := Exec(env, s, raw);
            && r.core == Branched(s.core.(total := r.core.total), raw, Decided(s, raw))
            && r.core.status == Running && r.data == LinkedBy(s, Decided(s, raw))
  {
    BranchIs(env, s, raw);
    BonusOnly(env, s.core);
    var d := Decided(s, raw);
    var bonus := if raw == 0x1000_FFFF then IdleBonus(env, s.core) else s.core;
    TakesBranch(bonus, raw, d);
    BranchedFields(bonus, raw, d);
    hide Decode, IsCondBranch, IsNoOp, RaisesCop, FetchWord, Wrap64, TakeBranch, Branched, IdleBonus, LinkedBy, Exec;
    hide BranchTaken, IsLikely, IsLinkingBranch, CopFlag, CopId;
  }

  /** Where a decided branch outside a delay slot continues, and what it writes. */
  predicate Branches(s: Cpu, r: Cpu, raw: U32, d: Decision) {
    && r.core.status == Running && r.core.cop0 == s.core.cop0 && r.core.hasBd == d.taken
    && (d.taken ==> r.core.pc == Wrap64(s.core.pc + 4)
                    && r.core.bdDst == Wrap64(s.core.pc + 4 + 4 * Signed16(Imm(raw))))
    && (!d.taken ==> r.core.pc == Wrap64(s.core.pc + if d.likely then 8 else 4))
    && r.data == if d.links then s.data.(gpr := s.data.gpr[31 := Sext32(Wrap32(s.core.pc + 8))]) else s.data
  }

  lemma LinkIsR31(s: Cpu, d: Decision)
    ensures LinkedBy(s, d)
            == if d.links then s.data.(gpr := s.data.gpr[31 := Sext32(Wrap32(s.core.pc + 8))]) else s.data
  {
    hide Sext32, Wrap32;
  }

  lemma PreparedDecision(s: Cpu, raw: U32)
    ensures var p := s.(core := Prepare(s.core));
            && Decided(p, raw) == Decided(s, raw) && LinkedBy(p, Decided(s, raw)) == LinkedBy(s, Decided(s, raw))
            && RaisesCop(p.core, Decode(raw), raw) == RaisesCop(s.core, Decode(raw), raw)
  {
    PreparedFor(s.core);
    hide Prepare, Decode, BranchTaken, IsLikely, IsLinkingBranch, CopId, LinkForJump, IsCopBranch;
  }

  /** From the decided branch to the advanced CPU. */
  lemma BranchAdvances(s: Cpu, p: Core, total: nat, r: Cpu, raw: U32, d: Decision, n: nat)
    requires s.core.status == Running && !s.core.hasBd && p == Prepare(s.core)
    requires r.core == Branched(p.(total := total), raw, d) && r.data == LinkedBy(s, d)
    ensures Branches(s, r.(core := Retire(r.core, n)), raw, d)
  {
    PreparedFor(s.core);
    BranchedFields(p.(total := total), raw, d);
    LinkIsR31(s, d);
    Retired(r.core, n);
    hide Prepare, Retire, Branched, Wrap64, LinkedBy, Sext32, Wrap32, Imm, Signed16;
  }

  lemma StepDecides(env: Env, s: Cpu, raw: U32)
    requires At(env, s, raw) && !s.core.hasBd && !SpinPanics(env, s.core, raw)
    requires IsCondBranch(Decode(raw)) && !IsNoOp(Decode(raw)) && !RaisesCop(s.core, Decode(raw), raw)
    ensures Branches(s, Step(env, s), raw, Decided(s, raw))
  {
    StepIs(env, s, raw);
    var p := s.(core := Prepare(s.core));
    PreparedFor(s.core);
    PreparedDecision(s, raw);
    ExecBranches(env, p, raw);
    var r := Exec(env, p, raw);
    BranchAdvances(s, p.core, r.core.total, r, raw, Decided(s, raw), env.config.cpi);
    hide Step, Exec, Prepare, Retire, FetchWord, Branched, Wrap64, Decided, LinkedBy, Decode, IsNoOp;
    hide IsCondBranch, RaisesCop, Branches;
  }

  /** The decision of an integer branch, by its fields. */
  function IntegerDecision(s: Cpu, raw: U32): Decision {
    var op, rt := Op(raw), Rt(raw);
    Decision(Holds(op, rt, Signed64(s.data.gpr[Rs(raw)]), Signed64(s.data.gpr[rt])), Nullifies(op, rt),
             LinksAt(op, rt))
  }

  /**
   * An integer branch outside a delay slot: the flag is set exactly when the signed comparison holds, the target is
   * relative to the slot, an untaken likely branch skips the slot, and only the linking forms write, the address
   * after the slot to r31.
   */
  lemma StepBranches(env: Env, s: Cpu, raw: U32)
    requires At(env, s, raw) && IsIntegerBranch(Op(raw)) && !s.core.hasBd && !SpinPanics(env, s.core, raw)
    ensures Branches(s, Step(env, s), raw, IntegerDecision(s, raw))
  {
    BranchKind(raw, s.data.gpr, CopFlag(s.core, CopId(raw)));
    StepDecides(env, s, raw);
    hide Step, FetchWord, Op, Rs, Rt, Signed64, Holds, Nullifies, LinksAt, Decode, BranchTaken, IsLikely, CopFlag;
    hide IsLinkingBranch, IsCopBranch, IsCondBranch, IsNoOp, Branches, IsIntegerBranch, SpinPanics, CopId;
  }

  // ---------------------------------------------------------------- coprocessors

  /** The unit has no enable bit in Status (coprocessor 0), or its bit is set: bits 29 to 31 for 1 to 3. */
  predicate Usable(sr: U32, cop: int)
    requires 0 <= cop < 4
  {
    cop == 0 || Bit(sr, 28 + cop)
  }

  lemma UsableIs(s: Core, cop: int)
    requires 0 <= cop < 4
    ensures CopEnabled(s, cop) == Usable(s.cop0.sr, cop)
  {
    UnitBits();
    BitAt(s.cop0.sr, 29, 0x2000_0000);
    BitAt(s.cop0.sr, 30, 0x4000_0000);
    BitAt(s.cop0.sr, 31, 0x8000_0000);
    hide Bit, Pow2;
  }

  lemma UnitBits()
    ensures Pow2(29) == 0x2000_0000 && Pow2(30) == 0x4000_0000 && Pow2(31) == 0x8000_0000
  {
    WordSizes();
    assert Pow2(32) == 2 * Pow2(31);
    assert Pow2(31) == 2 * Pow2(30);
    assert Pow2(30) == 2 * Pow2(29);
  }

  /** The word uses coprocessor op % 4. */
  predicate UsesCop(raw: U32) {
    (16 <= Op(raw) < 20 && !(Rs(raw) == 8 && Rt(raw) >= 4)) || IsCopMemoryOp(Op(raw))
  }

  lemma CopBranchKind(raw: U32, gpr: Regs, flag: bool)
    requires 16 <= Op(raw) < 20 && Rs(raw) == 8 && Rt(raw) < 4
    ensures var id := Decode(raw);
            && IsCopBranch(id) && IsCondBranch(id) && !IsNoOp(id) && !IsLinkingBranch(id)
            && BranchTaken(id, raw, gpr, flag) == (flag == (Rt(raw) % 2 == 1))
            && IsLikely(id) == (Rt(raw) / 2 == 1)
  {
    UnknownBranch(raw);
    CopWord(raw);
    hide Decode, Op, Rs, Rt, Signed64;
  }

  lemma CopPlainKind(raw: U32)
    requires UsesCop(raw) && !(16 <= Op(raw) < 20 && Rs(raw) == 8)
    ensures var id := Decode(raw); IsCopInst(id) && !IsNoOp(id)
  {
    if IsCopMemoryOp(Op(raw)) {
      CopMemoryWord(raw);
    } else {
      UnknownBranch(raw);
      CopWord(raw);
    }
    hide Decode, Op, Rs, Rt;
  }

  /** The decision of a branch on a coprocessor's condition; only the FPU has one that can be set. */
  function CopDecision(s: Cpu, raw: U32): Decision {
    Decision((Op(raw) == 17 && s.core.fpFlag) == (Rt(raw) % 2 == 1), Rt(raw) / 2 == 1, false)
  }

  /** A branch on a usable coprocessor's condition. */
  lemma StepCopBranches(env: Env, s: Cpu, raw: U32)
    requires At(env, s, raw) && !s.core.hasBd && 16 <= Op(raw) < 20 && Rs(raw) == 8 && Rt(raw) < 4
    requires Usable(s.core.cop0.sr, Op(raw) - 16)
    ensures Branches(s, Step(env, s), raw, CopDecision(s, raw))
  {
    CopIdIs(raw);
    UsableIs(s.core, Op(raw) - 16);
    CopBranchKind(raw, s.data.gpr, CopFlag(s.core, CopId(raw)));
    NotSpinning(raw);
    StepDecides(env, s, raw);
    hide Step, FetchWord, Op, Rs, Rt, Decode, BranchTaken, IsLikely, CopId, Usable;
    hide IsLinkingBranch, IsCopBranch, IsCondBranch, IsNoOp, Branches, CopEnabled;
  }

  lemma NotSpinning(raw: U32)
    ensures 16 <= Op(raw) ==> raw != 0x1000_FFFF
  {
  }

  lemma UnusableIs(env: Env, s: Cpu, raw: U32)
    requires UsesCop(raw) && !CopEnabled(s.core, CopId(raw)) && s.core.status == Running && !s.core.hasBd
    ensures var r := Exec(env, s, raw);
            r.core == TriggerException(env, s.core.(copCause := CopId(raw)), CopUnusable) && r.data == s.data
  {
    if 16 <= Op(raw) < 20 && Rs(raw) == 8 {
      CopBranchKind(raw, s.data.gpr, CopFlag(s.core, CopId(raw)));
    } else {
      CopPlainKind(raw);
      CopIsOther(Decode(raw));
    }
    hide Decode, Op, Rs, Rt, BranchTaken, CopEnabled, CopId, TriggerException, IsCopInst, IsCondBranch, IsCopBranch;
    hide HasDelaySlot, IsNoOp, ExecCommand, ExecMove, CopFlag, IsLinkingBranch;
  }

  lemma CopIsOther(id: InstId)
    requires IsCopInst(id)
    ensures !IsCondBranch(id) && !HasDelaySlot(id) && !id.KSyscall? && !id.KBreak?
  {
  }

  /** An instruction of a coprocessor that Status disables raises exception 11 with the unit's number. */
  lemma StepUnusable(env: Env, s: Cpu, raw: U32)
    requires At(env, s, raw) && UsesCop(raw) && !Usable(s.core.cop0.sr, Op(raw) % 4)
    ensures Vectored(s.core, Step(env, s).core, 11, Op(raw) % 4, s.core.pc, false) && Step(env, s).data == s.data
  {
    StepIs(env, s, raw);
    PreparedFor(s.core);
    CopIdIs(raw);
    UsableIs(s.core, Op(raw) % 4);
    PreparedEnables(s.core, CopId(raw));
    UnusableIs(env, s.(core := Prepare(s.core)), raw);
    UnusableVectors(env, s.core, CopId(raw), env.config.cpi);
    hide Step, Exec, Prepare, Retire, FetchWord, Op, UsesCop, TriggerException, CopEnabled, Usable, Vectored, CopId;
  }

  lemma PreparedEnables(s: Core, cop: int)
    requires 0 <= cop < 4
    ensures CopEnabled(Prepare(s), cop) == CopEnabled(s, cop)
  {
  }

  lemma UnusableVectors(env: Env, s: Core, cop: int, n: nat)
    requires s.status == Running && 0 <= cop < 4
    ensures var r := TriggerException(env, Prepare(s).(copCause := cop), CopUnusable);
            Vectored(s, Retire(r, n), 11, cop, s.pc, false)
  {
    PreparedFor(s);
    var p := Prepare(s).(copCause := cop);
    ExceptionVectors(env, p, CopUnusable);
    Retired(TriggerException(env, p, CopUnusable), n);
    VectorNext(env, p, CopUnusable);
    hide TriggerException, Prepare, Retire, CauseIs, BranchBefore;
  }

  // ---------------------------------------------------------------- jumps

  lemma TargetKind(raw: U32)
    requires Op(raw) == 2 || Op(raw) == 3
    ensures if Op(raw) == 2 then Decode(raw).KJ? else Decode(raw).KJal?
  {
    TargetWord(raw);
    hide Decode, Op;
  }

  lemma RegisterJumpKind(raw: U32)
    requires Op(raw) == 0 && (Funct(raw) == 8 || Funct(raw) == 9)
    ensures if Funct(raw) == 8 then Decode(raw).KJr? else Decode(raw).KJalr?
  {
    ControlWord(raw);
    hide Decode, Op, Funct, HasNoTarget;
  }

  /** The target of J and JAL: 28 bits from the word, in the 256 MB segment of the delay slot. */
  lemma SegmentTarget(pc: U64, raw: U32)
    ensures var t := JumpTarget(pc, raw);
            t / 0x1000_0000 == Wrap32(pc + 4) / 0x1000_0000 && t % 0x1000_0000 == raw % 0x400_0000 * 4
  {
    QuotientIs(JumpTarget(pc, raw), 0x1000_0000, Wrap32(pc + 4) / 0x1000_0000, raw % 0x400_0000 * 4);
    hide Wrap32;
  }

  /** A jump outside a delay slot: pc goes to the slot, the target is pending, and `link` gets the return address. */
  predicate Jumps(s: Cpu, r: Cpu, target: U64, link: RegIndex) {
    && r.core.status == Running && r.core.cop0 == s.core.cop0 && r.core.hasBd
    && r.core.pc == Wrap64(s.core.pc + 4) && r.core.bdDst == target
    && r.data == s.data.(gpr := if link == 0 then s.data.gpr
                                else s.data.gpr[link := Sext32(Wrap32(s.core.pc + 8))])
  }

  lemma JumpExec(env: Env, s: Cpu, raw: U32)
    requires s.core.status == Running
    ensures Decode(raw).KJ? && JumpTarget(s.core.pc, raw) != s.core.pc ==>
              Exec(env, s, raw) == s.(core := Jump(s.core, JumpTarget(s.core.pc, raw)))
    ensures Decode(raw).KJal? ==>
              Exec(env, s, raw) == Cpu(LinkForJump(s.data, s.core.pc, 31), Jump(s.core, JumpTarget(s.core.pc, raw)))
  {
    hide Decode, JumpTarget, LinkForJump;
  }

  lemma RegisterJumpExec(env: Env, s: Cpu, raw: U32)
    requires s.core.status == Running && (Decode(raw).KJr? || Decode(raw).KJalr?)
    ensures var reg := s.data.gpr[Rs(raw)];
            if reg % 4 != 0 then Exec(env, s, raw).core.status == Panicked
            else Exec(env, s, raw) == Cpu(if Decode(raw).KJr? then s.data else LinkForJump(s.data, s.core.pc, Rd(raw)),
                                          Jump(s.core, reg))
  {
    hide Decode, LinkForJump, Rs, Rd, JumpTarget;
  }

  lemma JumpAdvances(s: Cpu, target: U64, link: RegIndex, n: nat)
    requires s.core.status == Running && !s.core.hasBd
    ensures var d := if link == 0 then s.data else LinkForJump(s.data, s.core.pc, link);
            Jumps(s, Cpu(d, Retire(Jump(Prepare(s.core), target), n)), target, link)
  {
    PreparedFor(s.core);
    Retired(Jump(Prepare(s.core), target), n);
    hide Prepare, Retire, Wrap64, Sext32, Wrap32;
  }

  /** J, unless it spins, and JAL: the target has the segment of the delay slot and 28 bits of the word. */
  lemma StepJumps(env: Env, s: Cpu, raw: U32)
    requires At(env, s, raw) && !s.core.hasBd
    requires Op(raw) == 3 || (Op(raw) == 2 && JumpTarget(s.core.pc, raw) != s.core.pc)
    ensures var r := Step(env, s);
            && Jumps(s, r, r.core.bdDst, if Op(raw) == 3 then 31 else 0)
            && r.core.bdDst / 0x1000_0000 == Wrap32(s.core.pc + 4) / 0x1000_0000
            && r.core.bdDst % 0x1000_0000 == raw % 0x400_0000 * 4
  {
    StepIs(env, s, raw);
    PreparedFor(s.core);
    TargetKind(raw);
    SegmentTarget(s.core.pc, raw);
    JumpExec(env, s.(core := Prepare(s.core)), raw);
    JumpAdvances(s, JumpTarget(s.core.pc, raw), if Op(raw) == 3 then 31 else 0, env.config.cpi);
    JumpsTo(s, Step(env, s), JumpTarget(s.core.pc, raw), if Op(raw) == 3 then 31 else 0);
    hide Step, Exec, Prepare, Retire, FetchWord, Op, Decode, JumpTarget, LinkForJump, Jump, Jumps, Wrap32;
  }

  lemma JumpsTo(s: Cpu, r: Cpu, target: U64, link: RegIndex)
    requires Jumps(s, r, target, link)
    ensures r.core.bdDst == target
  {
  }

  /** JR and JALR: to the register, or a panic when it is unaligned. */
  lemma StepRegisterJumps(env: Env, s: Cpu, raw: U32)
    requires At(env, s, raw) && !s.core.hasBd && Op(raw) == 0 && (Funct(raw) == 8 || Funct(raw) == 9)
    ensures var target := s.data.gpr[Rs(raw)];
            if target % 4 != 0 then Step(env, s).core.status == Panicked
            else Jumps(s, Step(env, s), target, if Funct(raw) == 9 then Rd(raw) else 0)
  {
    StepIs(env, s, raw);
    PreparedFor(s.core);
    RegisterJumpKind(raw);
    RegisterJumpExec(env, s.(core := Prepare(s.core)), raw);
    JumpAdvances(s, s.data.gpr[Rs(raw)], if Funct(raw) == 9 then Rd(raw) else 0, env.config.cpi);
    LinksNothing(s.data, s.core.pc);
    Retired(Exec(env, s.(core := Prepare(s.core)), raw).core, env.config.cpi);
    hide Step, Exec, Prepare, Retire, FetchWord, Op, Funct, Decode, LinkForJump, Jump, Jumps, Rs, Rd;
  }

  lemma LinksNothing(d: Data, pc: U64)
    ensures LinkForJump(d, pc, 0) == d
  {
    hide Sext32, Wrap32;
  }
}
