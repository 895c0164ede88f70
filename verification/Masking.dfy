/**
 * What an interrupt may disturb never influences anything else: llbit, Cause, EPC, the clocks and the
 * interrupt lines can be masked before an instruction, unless the instruction observes them.
 */
module Masking {
  import opened Words
  import opened Decoder
  import opened Cop0
  import opened Handlers
  import opened Machine

  /** EPC is masked too, unless `keep`. */
  function MaskedCop0(c: Cop0Regs, keep: bool): Cop0Regs {
    c.(cause := 0, epc := if keep then c.epc else 0, countStart := 0, lastCheck := 0, suppress := false)
  }

  /** The branch target is dead unless a branch is pending. */
  function Masked(s: Core, keep: bool): Core {
    s.(cop0 := MaskedCop0(s.cop0, keep), bdDst := if s.hasBd then s.bdDst else 0, llbit := false,
       compareIntr := false, irq := false, halt := false, total := 0, cpiCounter := 0)
  }

  predicate Alike(r: Core, q: Core, keep: bool) {
    Masked(r, keep) == Masked(q, keep)
  }

  // ---------------------------------------------------------------- what observes, what synchronises

  predicate IsEret(raw: U32) {
    Decode(raw).KCop? && CopId(raw) == 0 && raw % 64 == 0x18
  }

  /** Reads of Count and Cause, and reads of EPC (ERET included) while EPC is masked. */
  predicate Observes(s: Core, raw: U32, keep: bool) {
    || (IsMoveFrom(Decode(raw)) && CopId(raw) == 0 && (Rd(raw) == 9 || Rd(raw) == 13 || (Rd(raw) == 14 && !keep)))
    || (IsEret(raw) && !Erl(s.cop0.sr) && !keep)
  }

  predicate WritesEpc(raw: U32) {
    IsMoveTo(Decode(raw)) && CopId(raw) == 0 && Rd(raw) == 14
  }

  /** The instruction raises an exception. */
  predicate Raises(env: Env, s: Cpu, raw: U32) {
    var id := Decode(raw);
    || id.KSyscall? || id.KBreak?
    || ((IsCopBranch(id) || IsCopInst(id)) && !CopEnabled(s.core, CopId(raw)))
    || (!IsCopInst(id) && !HasDelaySlot(id) && !IsNoOp(id) && Compute(env.tlb, env.config.strict, raw, s.data).Raise?)
  }

  /** After the instruction EPC is the same whatever it was before. */
  predicate Syncs(env: Env, s: Cpu, raw: U32) {
    WritesEpc(raw) || (Raises(env, s, raw) && !Exl(s.core.cop0.sr))
  }

  // ---------------------------------------------------------------- pieces of an instruction

  lemma TriggerAlike(env: Env, s: Core, cause: Cause, keep: bool)
    requires !s.hasBd
    ensures Alike(TriggerException(env, s, cause), TriggerException(env, Masked(s, keep), cause), keep)
    ensures !Exl(s.cop0.sr) ==>
              Alike(TriggerException(env, s, cause), TriggerException(env, Masked(s, keep), cause), true)
  {
    hide NewCause, SetExl, Exl;
  }

  lemma CommitAlike(env: Env, s: Core, o: Outcome, keep: bool)
    requires !s.hasBd
    ensures Alike(CommitCore(env, s, o), CommitCore(env, Masked(s, keep), o), keep)
    ensures o.Raise? && !Exl(s.cop0.sr) ==> Alike(CommitCore(env, s, o), CommitCore(env, Masked(s, keep), o), true)
  {
    hide TriggerException, Exl;
    if o.Raise? {
      TriggerAlike(env, SetBadVAddr(s, o.bad), o.cause, keep);
      assert Masked(SetBadVAddr(s, o.bad), keep) == SetBadVAddr(Masked(s, keep), o.bad);
    }
  }

  lemma CopTrapAlike(env: Env, s: Core, cop: int, keep: bool)
    requires !s.hasBd
    ensures Alike(RaiseCop(env, s, cop), RaiseCop(env, Masked(s, keep), cop), keep)
    ensures !Exl(s.cop0.sr) ==> Alike(RaiseCop(env, s, cop), RaiseCop(env, Masked(s, keep), cop), true)
  {
    hide TriggerException, Exl;
    TriggerAlike(env, s.(copCause := cop), CopUnusable, keep);
    assert Masked(s.(copCause := cop), keep) == Masked(s, keep).(copCause := cop);
  }

  /** Masking is idempotent and commutes with the updates instructions make. */
  lemma MaskedTwice(s: Core, keep: bool)
    ensures Masked(Masked(s, keep), keep) == Masked(s, keep)
    ensures Masked(s, keep).pc == s.pc && Masked(s, keep).cop0.sr == s.cop0.sr && Masked(s, keep).hasBd == s.hasBd
    ensures Masked(s, keep).status == s.status && Masked(s, keep).fpFlag == s.fpFlag
  {
  }

  lemma MaskedIsAlike(s: Core, keep: bool)
    ensures Alike(s, Masked(s, keep), keep)
  {
    hide Masked;
    MaskedTwice(s, keep);
  }

  lemma MaskedTime(s: Core, n: nat, keep: bool)
    ensures Masked(s.(total := n), keep) == Masked(s, keep)
  {
  }

  lemma MaskedStatus(s: Core, status: Status, keep: bool)
    ensures Masked(s.(status := status), keep) == Masked(s, keep).(status := status)
  {
  }

  lemma MaskedJump(s: Core, dst: U64, keep: bool)
    ensures Masked(Jump(s, dst), keep) == Jump(Masked(s, keep), dst)
  {
  }

  lemma MaskedRegs(s: Core, c: Cop0Regs, keep: bool)
    ensures Masked(s.(cop0 := c), keep) == Masked(s, keep).(cop0 := MaskedCop0(c, keep))
    ensures Masked(s, keep).cop0 == MaskedCop0(s.cop0, keep)
  {
    hide MaskedCop0;
  }

  lemma MaskedReturn(s: Core, c: Cop0Regs, x: U64, keep: bool)
    ensures Masked(s.(cop0 := c, pc := x, nextPc := x, llbit := false), keep)
            == Masked(s, keep).(cop0 := MaskedCop0(c, keep), pc := x, nextPc := x)
    ensures !Masked(s, keep).llbit
  {
    hide MaskedCop0;
  }

  lemma BonusAlike(env: Env, s: Core, keep: bool)
    ensures Alike(IdleBonus(env, s), IdleBonus(env, Masked(s, keep)), keep)
  {
    hide FetchWord, Masked, Wrap64;
    var q := Masked(s, keep);
    MaskedTwice(s, keep);
    MaskedTime(s, s.total + 100, keep);
    MaskedTime(q, q.total + 100, keep);
    MaskedStatus(s, Panicked, keep);
    MaskedStatus(q, Panicked, keep);
  }

  lemma TakeBranchAlike(r: Core, q: Core, id: InstId, raw: U32, taken: bool, keep: bool)
    requires Alike(r, q, keep)
    ensures Alike(TakeBranch(r, id, raw, taken), TakeBranch(q, id, raw, taken), keep)
  {
    hide IsLikely, BranchOffset, Wrap64, MaskedCop0;
  }

  lemma BranchAlike(env: Env, s: Core, id: InstId, raw: U32, taken: bool, keep: bool)
    requires !s.hasBd
    ensures var (r, q) := (BranchCore(env, s, id, raw, taken), BranchCore(env, Masked(s, keep), id, raw, taken));
            Alike(r, q, keep) && (RaisesCop(s, id, raw) && !Exl(s.cop0.sr) ==> Alike(r, q, true))
  {
    hide TriggerException, IdleBonus, TakeBranch, IsCopBranch, CopId, RaiseCop, Exl, Masked, Alike;
    MaskedTwice(s, keep);
    MaskedIsAlike(s, keep);
    if RaisesCop(s, id, raw) {
      CopTrapAlike(env, s, CopId(raw), keep);
    } else if raw == IDLE_BRANCH {
      BonusAlike(env, s, keep);
      TakeBranchAlike(IdleBonus(env, s), IdleBonus(env, Masked(s, keep)), id, raw, taken, keep);
    } else {
      TakeBranchAlike(s, Masked(s, keep), id, raw, taken, keep);
    }
  }

  lemma JumpAlike(env: Env, s: Core, id: InstId, raw: U32, reg: U64, keep: bool)
    ensures Alike(JumpCore(env, s, id, raw, reg), JumpCore(env, Masked(s, keep), id, raw, reg), keep)
  {
    hide JumpTarget, IdleBonus, Masked, Jump;
    var dst, q := JumpTarget(s.pc, raw), Masked(s, keep);
    MaskedTwice(s, keep);
    BonusAlike(env, Jump(s, dst), keep);
    MaskedJump(s, dst, keep);
    MaskedJump(q, dst, keep);
    MaskedJump(s, reg, keep);
    MaskedJump(q, reg, keep);
    MaskedStatus(s, Panicked, keep);
    MaskedStatus(q, Panicked, keep);
  }

  lemma EretAlike(c: Cop0Regs, keep: bool)
    requires Erl(c.sr) || keep
    ensures MaskedCop0(Eret(c).0, keep) == MaskedCop0(Eret(MaskedCop0(c, keep)).0, keep)
    ensures Eret(c).1 == Eret(MaskedCop0(c, keep)).1
  {
    hide Erl, ClearErl, ClearExl;
  }

  lemma ReturnAlike(s: Core, c: Cop0Regs, d: Cop0Regs, x: U64, keep: bool)
    requires MaskedCop0(c, keep) == MaskedCop0(d, keep)
    ensures Alike(s.(cop0 := c, pc := x, nextPc := x, llbit := false),
                  Masked(s, keep).(cop0 := d, pc := x, nextPc := x, llbit := false), keep)
  {
    hide Masked, MaskedCop0;
    MaskedTwice(s, keep);
    MaskedReturn(s, c, x, keep);
    MaskedReturn(Masked(s, keep), d, x, keep);
  }

  lemma RegsAlike(s: Core, c: Cop0Regs, d: Cop0Regs, keep: bool, keep': bool)
    requires MaskedCop0(c, keep') == MaskedCop0(d, keep')
    ensures Alike(s.(cop0 := c), Masked(s, keep).(cop0 := d), keep')
  {
    hide MaskedCop0;
  }

  lemma RfeAlike(c: Cop0Regs, keep: bool)
    ensures MaskedCop0(Rfe(c), keep) == MaskedCop0(Rfe(MaskedCop0(c, keep)), keep)
  {
  }

  lemma CommandAlike(s: Core, raw: U32, keep: bool)
    requires raw % 64 == 0x18 ==> Erl(s.cop0.sr) || keep
    ensures Alike(ExecCommand(s, raw), ExecCommand(Masked(s, keep), raw), keep)
  {
    hide Erl, Eret, Rfe, Masked, MaskedCop0;
    var q, command := Masked(s, keep), raw % 64;
    MaskedTwice(s, keep);
    MaskedRegs(s, s.cop0, keep);
    if command == 0x18 {
      EretAlike(s.cop0, keep);
      ReturnAlike(s, Eret(s.cop0).0, Eret(q.cop0).0, Eret(s.cop0).1, keep);
    } else if command == 0x10 {
      RfeAlike(s.cop0, keep);
      RegsAlike(s, Rfe(s.cop0), Rfe(q.cop0), keep, keep);
    } else {
      MaskedStatus(s, Unmodelled, keep);
      MaskedStatus(q, Unmodelled, keep);
    }
  }

  lemma MoveFromAlike(s: Cpu, is32: bool, idx: RegIndex, rt: RegIndex, keep: bool)
    requires idx != 9 && idx != 13 && (idx == 14 ==> keep)
    ensures var (r, q) := (ExecMoveFrom(s, is32, idx, rt),
            ExecMoveFrom(s.(core := Masked(s.core, keep)), is32, idx, rt));
            Alike(r.core, q.core, keep) && r.data == q.data
  {
    hide SetReg, Low32, Sext32;
  }

  lemma WriteAlike(c: Cop0Regs, idx: int, v: U64, is32: bool, now: nat, then': nat, keep: bool)
    requires !IsTlbRegister(idx)
    ensures MaskedCop0(Write(c, idx, v, is32, now), keep || idx == 14)
            == MaskedCop0(Write(MaskedCop0(c, keep), idx, v, is32, then'), keep || idx == 14)
  {
    hide Low32, SoftwareBits;
  }

  lemma TimerRegsAlike(s: Core, c: Cop0Regs, d: Cop0Regs, x: bool, y: bool, keep: bool, keep': bool)
    requires MaskedCop0(c, keep') == MaskedCop0(d, keep')
    ensures Alike(s.(cop0 := c, compareIntr := x), Masked(s, keep).(cop0 := d, compareIntr := y), keep')
  {
    hide MaskedCop0;
  }

  lemma MoveToIs(s: Core, is32: bool, idx: RegIndex, value: U64)
    requires !IsTlbRegister(idx)
    ensures ExecMoveTo(s, is32, idx, value)
            == s.(cop0 := Write(s.cop0, idx, if is32 then Low32(value) else value, is32, s.total / 2),
                  compareIntr := s.compareIntr && idx != 11)
  {
    hide Low32, Write;
  }

  lemma MoveToAlike(s: Core, is32: bool, idx: RegIndex, value: U64, keep: bool)
    ensures Alike(ExecMoveTo(s, is32, idx, value), ExecMoveTo(Masked(s, keep), is32, idx, value), keep || idx == 14)
  {
    var q := Masked(s, keep);
    MaskedRegs(s, s.cop0, keep);
    if IsTlbRegister(idx) {
      hide *;
      StopAlike(s, Unmodelled, keep);
      UnmodelledMove(s, is32, idx, value);
      UnmodelledMove(q, is32, idx, value);
    } else {
      hide *;
      MoveToIs(s, is32, idx, value);
      MoveToIs(q, is32, idx, value);
      var v := if is32 then Low32(value) else value;
      WriteAlike(s.cop0, idx, v, is32, s.total / 2, q.total / 2, keep);
      var c, d := Write(s.cop0, idx, v, is32, s.total / 2), Write(q.cop0, idx, v, is32, q.total / 2);
      TimerRegsAlike(s, c, d, s.compareIntr && idx != 11, q.compareIntr && idx != 11, keep, keep || idx == 14);
    }
  }

  lemma UnmodelledMove(s: Core, is32: bool, idx: RegIndex, value: U64)
    requires IsTlbRegister(idx)
    ensures ExecMoveTo(s, is32, idx, value) == s.(status := Unmodelled) && idx != 14
  {
  }

  lemma StopAlike(s: Core, status: Status, keep: bool)
    ensures Alike(s.(status := status), Masked(s, keep).(status := status), keep)
  {
    hide Masked;
    MaskedTwice(s, keep);
    MaskedStatus(s, status, keep);
    MaskedStatus(Masked(s, keep), status, keep);
  }

  lemma MoveAlike(s: Cpu, id: InstId, raw: U32, keep: bool)
    requires IsCopInst(id) && !id.KCop? && id == Decode(raw) && CopId(raw) == 0 && !Observes(s.core, raw, keep)
    ensures var (r, q) := (ExecMove(s, id, raw), ExecMove(s.(core := Masked(s.core, keep)), id, raw));
            Alike(r.core, q.core, keep || WritesEpc(raw)) && r.data == q.data
  {
    hide ExecMoveFrom, ExecMoveTo, Decode, CopId, Rd, Rt, Masked, SetReg;
    NoCop0Memory(id, raw);
    MaskedTwice(s.core, keep);
    if IsMoveFrom(id) {
      MoveFromAlike(s, Is32BitMove(id), Rd(raw), Rt(raw), keep);
    } else if id.KMtc? || id.KDmtc? {
      MoveToAlike(s.core, Is32BitMove(id), Rd(raw), s.data.gpr[Rt(raw)], keep);
    }
  }

  lemma NoCop0Memory(id: InstId, raw: U32)
    requires id == Decode(raw) && IsCopInst(id) && CopId(raw) == 0 && !id.KCop?
    ensures IsMoveFrom(id) || IsMoveTo(id) || id.KCfc? || id.KCtc?
  {
  }

  lemma CopAlike(env: Env, s: Cpu, id: InstId, raw: U32, keep: bool)
    requires !s.core.hasBd && IsCopInst(id) && id == Decode(raw) && !Observes(s.core, raw, keep)
    ensures var (r, q) := (ExecCop(env, s, id, raw), ExecCop(env, s.(core := Masked(s.core, keep)), id, raw));
            && Alike(r.core, q.core, keep || WritesEpc(raw)) && r.data == q.data
            && (!CopEnabled(s.core, CopId(raw)) && !Exl(s.core.cop0.sr) ==> Alike(r.core, q.core, true))
  {
    hide ExecMove, ExecCommand, RaiseCop, CopId, Decode, Exl, Erl;
    if !CopEnabled(s.core, CopId(raw)) {
      CopTrapAlike(env, s.core, CopId(raw), keep);
    } else if CopId(raw) != 0 {
    } else if id.KCop? {
      CommandAlike(s.core, raw, keep);
    } else {
      MoveAlike(s, id, raw, keep);
    }
  }

  // ---------------------------------------------------------------- whole instructions

  /** r and q are what one instruction makes of s and of s masked. */
  predicate AlikeCpu(r: Cpu, q: Cpu, keep: bool) {
    Alike(r.core, q.core, keep) && (r.core.status == Running ==> r.data == q.data)
  }

  lemma CondBranchAlike(env: Env, s: Cpu, id: InstId, raw: U32, keep: bool)
    requires !s.core.hasBd
    ensures var (r, q) := (ExecCondBranch(env, s, id, raw),
            ExecCondBranch(env, s.(core := Masked(s.core, keep)), id, raw));
            && AlikeCpu(r, q, keep)
            && (RaisesCop(s.core, id, raw) && !Exl(s.core.cop0.sr) ==> AlikeCpu(r, q, true))
  {
    hide BranchCore, BranchTaken, CopId, IsLinkingBranch, LinkForJump, Masked, RaisesCop, Exl;
    MaskedTwice(s.core, keep);
    var taken := BranchTaken(id, raw, s.data.gpr, CopFlag(s.core, CopId(raw)));
    BranchAlike(env, s.core, id, raw, taken, keep);
    AlikeStatus(BranchCore(env, s.core, id, raw, taken), BranchCore(env, Masked(s.core, keep), id, raw, taken), keep);
  }

  lemma AlikeStatus(r: Core, q: Core, keep: bool)
    requires Alike(r, q, keep)
    ensures r.status == q.status && r.pc == q.pc && r.nextPc == q.nextPc
    ensures r.hasBd == q.hasBd && (r.hasBd ==> r.bdDst == q.bdDst) && r.cop0.sr == q.cop0.sr
  {
  }

  lemma ExecJumpAlike(env: Env, s: Cpu, id: InstId, raw: U32, keep: bool)
    ensures AlikeCpu(ExecJump(env, s, id, raw), ExecJump(env, s.(core := Masked(s.core, keep)), id, raw), keep)
  {
    hide JumpCore, LinkForJump, Masked, Rd, Rs;
    MaskedTwice(s.core, keep);
    var q := Masked(s.core, keep);
    JumpAlike(env, s.core, id, raw, s.data.gpr[Rs(raw)], keep);
    AlikeStatus(JumpCore(env, s.core, id, raw, s.data.gpr[Rs(raw)]), JumpCore(env, q, id, raw, s.data.gpr[Rs(raw)]),
        keep);
  }

  /** Stronger agreement when the instruction makes EPC known. */
  predicate Kept(env: Env, s: Cpu, raw: U32, keep: bool) {
    keep || Syncs(env, s, raw)
  }

  lemma TrapKept(env: Env, s: Cpu, id: InstId, raw: U32, cause: Cause, keep: bool)
    requires id == Decode(raw) && (id.KSyscall? || id.KBreak?) && !s.core.hasBd
    ensures AlikeCpu(s.(core := TriggerException(env, s.core, cause)),
                     s.(core := TriggerException(env, Masked(s.core, keep), cause)), Kept(env, s, raw, keep))
  {
    hide Decode, TriggerException, Masked, Compute, CopEnabled, CopId, Exl, Rd, Alike, IsCopBranch, IsCopInst;
    TriggerAlike(env, s.core, cause, keep);
  }

  lemma RegularKept(env: Env, s: Cpu, id: InstId, raw: U32, keep: bool)
    requires id == Decode(raw) && !HasDelaySlot(id) && !IsCopInst(id) && !IsNoOp(id) && !id.KSyscall? && !id.KBreak?
    requires !s.core.hasBd
    ensures AlikeCpu(ExecRegular(env, s, raw), ExecRegular(env, s.(core := Masked(s.core, keep)), raw),
            Kept(env, s, raw, keep))
  {
    hide Decode, CommitCore, Masked, Compute, CopEnabled, CopId, Exl, Rd;
    NotCop(id);
    CommitAlike(env, s.core, Compute(env.tlb, env.config.strict, raw, s.data), keep);
  }

  lemma NotCop(id: InstId)
    requires !IsCopInst(id)
    ensures !IsMoveTo(id) && (IsCopBranch(id) ==> HasDelaySlot(id))
  {
    hide IsCopInst;
    if IsMoveTo(id) { MovesAreCop(id); }
  }

  lemma MovesAreCop(id: InstId)
    requires IsMoveTo(id)
    ensures IsCopInst(id)
  {
  }

  lemma CopKept(env: Env, s: Cpu, id: InstId, raw: U32, keep: bool)
    requires id == Decode(raw) && IsCopInst(id) && !s.core.hasBd && !Observes(s.core, raw, keep)
    ensures AlikeCpu(ExecCop(env, s, id, raw), ExecCop(env, s.(core := Masked(s.core, keep)), id, raw),
            Kept(env, s, raw, keep))
  {
    CopIsNoTrap(id);
    hide Decode, ExecCop, Compute, CopEnabled, CopId, Exl, Rd, Alike, Observes, IsCopInst, IsMoveTo;
    CopAlike(env, s, id, raw, keep);
  }

  lemma CopIsNoTrap(id: InstId)
    requires IsCopInst(id)
    ensures !id.KSyscall? && !id.KBreak?
  {
  }

  lemma BranchIsNoMove(id: InstId)
    requires HasDelaySlot(id)
    ensures !IsMoveTo(id) && !IsCopInst(id) && !id.KSyscall? && !id.KBreak?
  {
  }

  lemma CondBranchKept(env: Env, s: Cpu, id: InstId, raw: U32, keep: bool)
    requires id == Decode(raw) && IsCondBranch(id) && !s.core.hasBd
    ensures AlikeCpu(ExecCondBranch(env, s, id, raw), ExecCondBranch(env, s.(core := Masked(s.core, keep)), id, raw),
                     Kept(env, s, raw, keep))
  {
    hide Decode, ExecCondBranch, Compute, CopEnabled, CopId, Exl, Rd, AlikeCpu;
    CondBranchAlike(env, s, id, raw, keep);
    BranchIsNoMove(id);
    hide IsCopInst, HasDelaySlot, IsCopBranch, IsMoveTo;
  }

  lemma JumpIsNoCop(id: InstId)
    requires HasDelaySlot(id) && !IsCondBranch(id)
    ensures !IsCopBranch(id)
  {
  }

  lemma JumpKept(env: Env, s: Cpu, id: InstId, raw: U32, keep: bool)
    requires id == Decode(raw) && HasDelaySlot(id) && !IsCondBranch(id)
    ensures AlikeCpu(ExecJump(env, s, id, raw), ExecJump(env, s.(core := Masked(s.core, keep)), id, raw),
                     Kept(env, s, raw, keep))
  {
    BranchIsNoMove(id);
    JumpIsNoCop(id);
    hide Decode, ExecJump, Compute, CopEnabled, CopId, Exl, Rd, AlikeCpu, IsCopInst, HasDelaySlot, IsCopBranch;
    hide IsMoveTo;
    ExecJumpAlike(env, s, id, raw, keep);
  }

  /** One instruction, run on a state and on its masked form, gives states alike. */
  lemma ExecAlike(env: Env, s: Cpu, raw: U32, keep: bool)
    requires !s.core.hasBd && !Observes(s.core, raw, keep)
    ensures AlikeCpu(Exec(env, s, raw), Exec(env, s.(core := Masked(s.core, keep)), raw), Kept(env, s, raw, keep))
  {
    hide Decode, ExecCondBranch, ExecJump, ExecCop, ExecRegular, TriggerException, Masked, AlikeCpu, Kept;
    hide HasDelaySlot, IsCopInst, IsCondBranch, Observes;
    var id := Decode(raw);
    if IsNoOp(id) {
      NoOpKept(env, s, raw, keep);
    } else if IsCondBranch(id) {
      CondBranchKept(env, s, id, raw, keep);
    } else if HasDelaySlot(id) {
      JumpKept(env, s, id, raw, keep);
    } else if id.KSyscall? || id.KBreak? {
      TrapKept(env, s, id, raw, if id.KSyscall? then Syscall else Breakpoint, keep);
    } else if IsCopInst(id) {
      CopKept(env, s, id, raw, keep);
    } else {
      RegularKept(env, s, id, raw, keep);
    }
  }

  lemma NoOpKept(env: Env, s: Cpu, raw: U32, keep: bool)
    requires IsNoOp(Decode(raw))
    ensures AlikeCpu(s, s.(core := Masked(s.core, keep)), Kept(env, s, raw, keep))
  {
    hide Decode, Compute, CopEnabled, CopId, Exl, Rd, Masked;
    MaskedIsAlike(s.core, keep);
  }
}
