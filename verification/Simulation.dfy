/**
 * The upper halves of the program counter, branch target and EPC, and the clocks, never influence
 * anything else an instruction does. The cached interpreter masks pc and the plain one does not
 * (src/mips_base.cpp:356 and 552), and the cached one charges cycles at the end of a block.
 */
module Simulation {
  import opened Words
  import opened Decoder
  import opened Tlb
  import opened Cop0
  import opened Handlers
  import opened Machine

  /** What both interpreters must agree on in the middle of an instruction. */
  function Mid(s: Core): Core {
    s.(pc := Low32(s.pc), nextPc := Low32(s.nextPc), bdDst := Low32(s.bdDst),
       cop0 := LowEpc(s.cop0), total := 0, cpiCounter := 0)
  }

  function LowEpc(c: Cop0Regs): Cop0Regs { c.(epc := Low32(c.epc)) }

  /** r and q are what one operation makes of s and of Mid(s). */
  predicate Agree(s: Core, r: Core, q: Core) {
    && r.status == q.status
    && (r.status == Running ==> Mid(r) == Mid(q))
    && r.total == s.total + q.total
    && r.cpiCounter == s.cpiCounter && q.cpiCounter == 0
  }

  /** mfc0/dmfc0/mtc0/dmtc0 of Count, and dmfc0 of EPC. */
  predicate ReadsClockOrWideEpc(raw: U32) {
    var id := Decode(raw);
    && CopId(raw) == 0
    && (((IsMoveFrom(id) || IsMoveTo(id)) && Rd(raw) == 9) || (id.KDmfc? && Rd(raw) == 14))
  }

  /** A J to itself with a nop (or nothing) in its delay slot: the idle test compares the unmasked pc. */
  predicate IsIdleJump(env: Env, v: U32, raw: U32) {
    && Decode(raw).KJ? && JumpTarget(v, raw) == v
    && (FetchWord(env, v + 4) == None || FetchWord(env, v + 4) == Some(0))
  }

  /** The instructions the two interpreters are compared on. */
  predicate Comparable(env: Env, v: U32, raw: U32) {
    !ReadsClockOrWideEpc(raw) && !IsIdleJump(env, v, raw)
  }

  // ---------------------------------------------------------------- addresses modulo 2^32

  lemma LowOfSum(x: U64, k: int)
    ensures Low32(Wrap64(x + k)) == Low32(Wrap64(Low32(x) + k)) == Wrap32(x + k)
    ensures Wrap32(x + k) == Wrap32(Low32(x) + k)
  {
    LowOfWrap(x + k);
    LowOfWrap(Low32(x) + k);
    WrapOfSum(x, k);
  }

  lemma LowOfWrap(x: int)
    ensures Low32(Wrap64(x)) == Wrap32(x)
  {
    assert x == x / 0x1_0000_0000_0000_0000 * 0x1_0000_0000 * 0x1_0000_0000 + Wrap64(x);
  }

  lemma WrapOfSum(x: U64, k: int)
    ensures Wrap32(x + k) == Wrap32(Low32(x) + k)
  {
    assert x + k == x / 0x1_0000_0000 * 0x1_0000_0000 + (Low32(x) + k);
  }

  lemma SameFetch(env: Env, x: U64, y: U64)
    requires env.tlb.Normal? && Low32(x) == Low32(y)
    ensures FetchWord(env, x) == FetchWord(env, y)
  {
    hide Search, Low32;
  }

  lemma MidOfMid(s: Core)
    ensures Mid(Mid(s)) == Mid(s)
  {
    hide Low32;
    LowOfLow(s.pc);
    LowOfLow(s.nextPc);
    LowOfLow(s.bdDst);
    LowOfLow(s.cop0.epc);
  }

  // ---------------------------------------------------------------- pieces of an instruction

  lemma EntryAgrees(s: Core, cause: Cause, x: U64, y: U64, bd: bool)
    requires Low32(x) == Low32(y)
    ensures LowEpc(EnterException(s, cause, x, bd)) == LowEpc(EnterException(Mid(s), cause, y, bd))
  {
    hide Low32, NewCause, SetExl, Exl;
    CauseAgrees(s, cause);
    LowOfLow(s.cop0.epc);
  }

  /** The state an exception leaves, given the Cop0 registers it computed. */
  function AtVector(s: Core, c: Cop0Regs): Core {
    s.(hasBd := false, cop0 := c, pc := VECTOR, nextPc := VECTOR)
  }

  lemma VectorAgrees(s: Core, c: Cop0Regs, d: Cop0Regs)
    requires LowEpc(c) == LowEpc(d)
    ensures Mid(AtVector(s, c)) == Mid(AtVector(Mid(s), d))
  {
    hide Low32;
    LowOfLow(s.bdDst);
  }

  lemma TriggerInSequence(env: Env, s: Core, cause: Cause)
    requires s.status == Running && !s.hasBd
    ensures Agree(s, TriggerException(env, s, cause), TriggerException(env, Mid(s), cause))
  {
    hide FetchWord, Low32, Wrap64, DoesInstHaveDelaySlot, EnterException, LowEpc;
    LowOfLow(s.pc);
    EntryAgrees(s, cause, s.pc, Low32(s.pc), false);
    VectorAgrees(s, EnterException(s, cause, s.pc, false), EnterException(Mid(s), cause, Low32(s.pc), false));
  }

  lemma TriggerInSlot(env: Env, s: Core, cause: Cause)
    requires env.tlb.Normal? && s.status == Running && s.hasBd
    ensures Agree(s, TriggerException(env, s, cause), TriggerException(env, Mid(s), cause))
  {
    hide FetchWord, Low32, Wrap64, DoesInstHaveDelaySlot, EnterException, LowEpc;
    LowOfSum(s.pc, -4);
    var x, y := Wrap64(s.pc - 4), Wrap64(Low32(s.pc) - 4);
    SameFetch(env, x, y);
    EntryAgrees(s, cause, x, y, true);
    VectorAgrees(s, EnterException(s, cause, x, true), EnterException(Mid(s), cause, y, true));
  }

  lemma TriggerAgrees(env: Env, s: Core, cause: Cause)
    requires env.tlb.Normal? && s.status == Running
    ensures Agree(s, TriggerException(env, s, cause), TriggerException(env, Mid(s), cause))
  {
    hide TriggerException, Agree;
    if s.hasBd { TriggerInSlot(env, s, cause); } else { TriggerInSequence(env, s, cause); }
  }

  lemma CauseAgrees(s: Core, cause: Cause)
    ensures NewCause(s, cause, true) == NewCause(Mid(s), cause, true)
    ensures NewCause(s, cause, false) == NewCause(Mid(s), cause, false)
  {
    hide Low32;
  }

  lemma CommitAgrees(env: Env, s: Core, o: Outcome)
    requires env.tlb.Normal? && s.status == Running
    ensures Agree(s, CommitCore(env, s, o), CommitCore(env, Mid(s), o))
  {
    hide Low32, TriggerException;
    MidOfMid(s);
    if o.Raise? {
      TriggerAgrees(env, SetBadVAddr(s, o.bad), o.cause);
      assert Mid(SetBadVAddr(s, o.bad)) == SetBadVAddr(Mid(s), o.bad);
    }
  }

  lemma IdleBonusEffect(env: Env, s: Core)
    requires s.status == Running
    ensures var (f, r) := (FetchWord(env, Wrap64(s.pc + 4)), IdleBonus(env, s));
            && r.status == (if f.None? then Panicked else Running)
            && (r.status == Running ==> Mid(r) == Mid(s) && r.pc == s.pc)
            && r.total == s.total + (if f == Some(0) then 100 else 0)
            && r.cpiCounter == s.cpiCounter
  {
    hide FetchWord, Mid, Wrap64;
    MidOfTime(s, s.total + 100);
  }

  lemma MidOfTime(s: Core, n: nat)
    ensures Mid(s.(total := n)) == Mid(s)
  {
    hide Low32;
  }

  lemma IdleBonusAgrees(env: Env, s: Core)
    requires env.tlb.Normal? && s.status == Running
    ensures Agree(s, IdleBonus(env, s), IdleBonus(env, Mid(s)))
  {
    hide FetchWord, Low32, Wrap64, IdleBonus;
    MidOfMid(s);
    LowOfSum(s.pc, 4);
    SameFetch(env, Wrap64(s.pc + 4), Wrap64(Low32(s.pc) + 4));
    IdleBonusEffect(env, s);
    IdleBonusEffect(env, Mid(s));
  }

  lemma TakeBranchAgrees(s: Core, q: Core, id: InstId, raw: U32, taken: bool)
    requires Mid(s) == Mid(q) && s.status == Running
    ensures Mid(TakeBranch(s, id, raw, taken)) == Mid(TakeBranch(q, id, raw, taken))
    ensures var r := TakeBranch(s, id, raw, taken);
            r.total == s.total && r.cpiCounter == s.cpiCounter && r.status == Running
  {
    hide Low32, Wrap64, IsLikely, BranchOffset;
    TargetAgrees(s.pc, q.pc, BranchOffset(raw));
    LowOfSum(s.pc, 8);
    LowOfSum(q.pc, 8);
  }

  lemma TargetAgrees(x: U64, y: U64, offset: int)
    requires Low32(x) == Low32(y)
    ensures Low32(Wrap64(x + 4 + offset)) == Low32(Wrap64(y + 4 + offset))
  {
    hide Low32;
    LowOfSum(x, 4 + offset);
    LowOfSum(y, 4 + offset);
    assert x + (4 + offset) == x + 4 + offset && y + (4 + offset) == y + 4 + offset;
  }

  lemma BranchAgrees(env: Env, s: Core, id: InstId, raw: U32, taken: bool)
    requires env.tlb.Normal? && s.status == Running
    ensures Agree(s, BranchCore(env, s, id, raw, taken), BranchCore(env, Mid(s), id, raw, taken))
  {
    hide TriggerException, IdleBonus, TakeBranch, IsCopBranch, CopId, Low32, Agree;
    MidOfMid(s);
    if RaisesCop(s, id, raw) {
      CopTrapAgrees(env, s, CopId(raw));
    } else if raw == IDLE_BRANCH {
      IdleBonusAgrees(env, s);
      AfterBonusAgrees(s, IdleBonus(env, s), IdleBonus(env, Mid(s)), id, raw, taken);
    } else {
      PlainAgrees(s);
      AfterBonusAgrees(s, s, Mid(s), id, raw, taken);
    }
  }

  lemma PlainAgrees(s: Core)
    requires s.status == Running
    ensures Agree(s, s, Mid(s))
  {
    hide Low32;
    MidOfMid(s);
  }

  lemma CopTrapAgrees(env: Env, s: Core, cop: int)
    requires env.tlb.Normal? && s.status == Running
    ensures Agree(s, RaiseCop(env, s, cop), RaiseCop(env, Mid(s), cop))
  {
    hide TriggerException, Low32;
    TriggerAgrees(env, s.(copCause := cop), CopUnusable);
    assert Mid(s.(copCause := cop)) == Mid(s).(copCause := cop);
  }

  lemma AfterBonusAgrees(s: Core, r: Core, q: Core, id: InstId, raw: U32, taken: bool)
    requires Agree(s, r, q)
    ensures Agree(s, TakeBranch(r, id, raw, taken), TakeBranch(q, id, raw, taken))
  {
    hide TakeBranch, Mid;
    if r.status == Running {
      TakeBranchAgrees(r, q, id, raw, taken);
      TakeBranchAgrees(q, r, id, raw, taken);
    } else {
      StoppedBranch(r, id, raw, taken);
      StoppedBranch(q, id, raw, taken);
    }
  }

  lemma StoppedBranch(s: Core, id: InstId, raw: U32, taken: bool)
    requires s.status != Running
    ensures TakeBranch(s, id, raw, taken) == s
  {
  }

  lemma JumpTargetLow(x: U64, raw: U32)
    ensures JumpTarget(x, raw) == JumpTarget(Low32(x), raw)
  {
    hide Low32;
    WrapOfSum(x, 4);
  }

  lemma JumpsAlike(s: Core, dst: U64)
    requires s.status == Running
    ensures Agree(s, Jump(s, dst), Jump(Mid(s), dst))
  {
    hide Low32;
    MidOfMid(s);
  }

  /** The self-jump test may answer differently for the two, but then it grants nothing. */
  lemma SelfJumpAgrees(env: Env, s: Core, dst: U32)
    requires env.tlb.Normal? && s.status == Running
    requires dst == Low32(s.pc) ==> FetchWord(env, Wrap64(s.pc + 4)) != None
    requires dst == Low32(s.pc) ==> FetchWord(env, Wrap64(s.pc + 4)) != Some(0)
    ensures var r := Jump(s, dst);
            Agree(s, if dst == s.pc then IdleBonus(env, r) else r,
                  if dst == Low32(s.pc) then IdleBonus(env, Jump(Mid(s), dst)) else Jump(Mid(s), dst))
  {
    hide FetchWord, Wrap64, IdleBonus;
    JumpsAlike(s, dst);
    LowOfSum(s.pc, 4);
    SameFetch(env, Wrap64(s.pc + 4), Wrap64(Low32(s.pc) + 4));
    IdleBonusEffect(env, Jump(s, dst));
    IdleBonusEffect(env, Jump(Mid(s), dst));
    hide Mid;
  }

  lemma JumpAgrees(env: Env, s: Core, id: InstId, raw: U32, reg: U64)
    requires env.tlb.Normal? && s.status == Running
    requires !IsIdleJump(env, Low32(s.pc), raw)
    requires id == Decode(raw)
    ensures Agree(s, JumpCore(env, s, id, raw, reg), JumpCore(env, Mid(s), id, raw, reg))
  {
    hide JumpTarget, FetchWord, Low32, Wrap64, Decode, Agree, Jump, IdleBonus;
    JumpTargetLow(s.pc, raw);
    var dst := JumpTarget(s.pc, raw);
    if id.KJ? {
      IdleSlot(env, s.pc);
      SelfJumpAgrees(env, s, dst);
    } else if !id.KJal? && reg % 4 != 0 {
      PanicAgrees(s);
    } else {
      JumpsAlike(s, if id.KJal? then dst else reg);
    }
  }

  lemma PanicAgrees(s: Core)
    requires s.status == Running
    ensures Agree(s, Panic(s), Panic(Mid(s)))
  {
  }

  lemma IdleSlot(env: Env, x: U64)
    requires env.tlb.Normal?
    ensures FetchWord(env, Wrap64(x + 4)) == FetchWord(env, Low32(x) + 4)
  {
    hide FetchWord;
    LowOfSum(x, 4);
    SameFetch(env, Wrap64(x + 4), Low32(x) + 4);
  }

  // ---------------------------------------------------------------- coprocessor 0

  lemma EretAgrees(s: Core)
    ensures LowEpc(Eret(s.cop0).0) == LowEpc(Eret(LowEpc(s.cop0)).0)
    ensures Low32(Eret(s.cop0).1) == Low32(Eret(LowEpc(s.cop0)).1)
  {
    hide Low32, ClearExl, ClearErl, Erl;
    LowOfLow(s.cop0.epc);
  }

  lemma ReturnAgrees(s: Core, c: Cop0Regs, d: Cop0Regs, x: U64, y: U64)
    requires s.status == Running && LowEpc(c) == LowEpc(d) && Low32(x) == Low32(y)
    ensures Agree(s, s.(cop0 := c, pc := x, nextPc := x, llbit := false),
                  Mid(s).(cop0 := d, pc := y, nextPc := y, llbit := false))
  {
    hide Low32;
    LowOfLow(s.bdDst);
  }

  lemma CommandAgrees(s: Core, raw: U32)
    requires s.status == Running
    ensures Agree(s, ExecCommand(s, raw), ExecCommand(Mid(s), raw))
  {
    hide Low32, Rfe, Eret, Agree;
    var command := raw % 64;
    if command == 0x18 {
      EretAgrees(s);
      ReturnAgrees(s, Eret(s.cop0).0, Eret(LowEpc(s.cop0)).0, Eret(s.cop0).1, Eret(LowEpc(s.cop0)).1);
    } else if command == 0x10 {
      RfeAgrees(s.cop0);
      SetCop0Agrees(s, Rfe(s.cop0), Rfe(LowEpc(s.cop0)));
    } else if command == 1 || command == 2 || command == 6 || command == 8 {
      StopAgrees(s, Unmodelled);
    } else {
      PlainAgrees(s);
    }
  }

  lemma SetCop0Agrees(s: Core, c: Cop0Regs, d: Cop0Regs)
    requires s.status == Running && LowEpc(c) == LowEpc(d)
    ensures Agree(s, s.(cop0 := c), Mid(s).(cop0 := d))
  {
    hide Low32;
    MidOfMid(s);
  }

  lemma RfeAgrees(c: Cop0Regs)
    ensures LowEpc(Rfe(c)) == LowEpc(Rfe(LowEpc(c))) == Rfe(LowEpc(c))
  {
    hide Low32;
    LowOfLow(c.epc);
  }

  /** Any register but Count reads the same; EPC when the reader keeps only the low word. */
  lemma ReadAgrees(c: Cop0Regs, idx: int, now: nat, then': nat)
    requires !IsTlbRegister(idx) && idx != 9
    ensures Read(c, idx, now).0 == c && Read(LowEpc(c), idx, then').0 == LowEpc(c)
    ensures idx != 14 ==> Read(c, idx, now).1 == Read(LowEpc(c), idx, then').1
    ensures Low32(Read(c, idx, now).1) == Low32(Read(LowEpc(c), idx, then').1)
  {
    LowOfLow(c.epc);
    hide Low32;
  }

  lemma MoveFromAgrees(s: Cpu, is32: bool, idx: RegIndex, rt: RegIndex)
    requires s.core.status == Running && idx != 9 && (is32 || idx != 14)
    ensures Agree(s.core, ExecMoveFrom(s, is32, idx, rt).core,
            ExecMoveFrom(s.(core := Mid(s.core)), is32, idx, rt).core)
    ensures ExecMoveFrom(s, is32, idx, rt).data == ExecMoveFrom(s.(core := Mid(s.core)), is32, idx, rt).data
  {
    hide Low32, Read, Sext32, SetReg;
    MidOfMid(s.core);
    if !IsTlbRegister(idx) {
      ReadAgrees(s.core.cop0, idx, s.core.total / 2, 0);
    }
  }

  lemma WriteAgrees(c: Cop0Regs, idx: int, v: U64, is32: bool, now: nat, then': nat)
    requires !IsTlbRegister(idx) && idx != 9
    ensures LowEpc(Write(c, idx, v, is32, now)) == LowEpc(Write(LowEpc(c), idx, v, is32, then'))
  {
    LowOfLow(c.epc);
    LowOfLow(v);
    hide Low32, SoftwareBits;
  }

  lemma MoveToAgrees(s: Core, is32: bool, idx: RegIndex, value: U64)
    requires s.status == Running && idx != 9
    ensures Agree(s, ExecMoveTo(s, is32, idx, value), ExecMoveTo(Mid(s), is32, idx, value))
  {
    hide Low32, Write, LowEpc;
    MidOfMid(s);
    if !IsTlbRegister(idx) {
      WriteAgrees(s.cop0, idx, if is32 then Low32(value) else value, is32, s.total / 2, 0);
    }
  }

  lemma MoveAgrees(s: Cpu, id: InstId, raw: U32)
    requires s.core.status == Running && id == Decode(raw) && CopId(raw) == 0 && !ReadsClockOrWideEpc(raw)
    requires id.KMfc? || id.KDmfc? || id.KMtc? || id.KDmtc? || id.KCfc? || id.KCtc?
    ensures Agree(s.core, ExecMove(s, id, raw).core, ExecMove(s.(core := Mid(s.core)), id, raw).core)
    ensures ExecMove(s, id, raw).data == ExecMove(s.(core := Mid(s.core)), id, raw).data
  {
    hide ExecMoveFrom, ExecMoveTo, Decode, Rd, Rt, Agree, Mid, CopId;
    if id.KCfc? || id.KCtc? {
      PlainAgrees(s.core);
    } else if id.KMfc? || id.KDmfc? {
      MoveFromAgrees(s, Is32BitMove(id), Rd(raw), Rt(raw));
    } else {
      MoveToAgrees(s.core, Is32BitMove(id), Rd(raw), s.data.gpr[Rt(raw)]);
    }
  }

  lemma StopAgrees(s: Core, status: Status)
    requires s.status == Running && status != Running
    ensures Agree(s, s.(status := status), Mid(s).(status := status))
  {
  }

  lemma CopAgrees(env: Env, s: Cpu, id: InstId, raw: U32)
    requires env.tlb.Normal? && s.core.status == Running
    requires id == Decode(raw) && IsCopInst(id) && !ReadsClockOrWideEpc(raw)
    ensures Agree(s.core, ExecCop(env, s, id, raw).core, ExecCop(env, s.(core := Mid(s.core)), id, raw).core)
    ensures ExecCop(env, s, id, raw).data == ExecCop(env, s.(core := Mid(s.core)), id, raw).data
  {
    hide ExecMove, ExecCommand, RaiseCop, CopId, Decode, Agree, ReadsClockOrWideEpc, Low32;
    if !CopEnabled(s.core, CopId(raw)) {
      CopTrapAgrees(env, s.core, CopId(raw));
    } else if CopId(raw) != 0 {
      StopAgrees(s.core, Unmodelled);
    } else if id.KCop? {
      CommandAgrees(s.core, raw);
    } else {
      OnlyMovesAreCop0(id, raw);
      MoveAgrees(s, id, raw);
    }
  }

  /** LWC, SWC, LDC and SDC never decode to coprocessor 0. */
  lemma OnlyMovesAreCop0(id: InstId, raw: U32)
    requires id == Decode(raw) && IsCopInst(id) && CopId(raw) == 0 && !id.KCop?
    ensures id.KMfc? || id.KDmfc? || id.KMtc? || id.KDmtc? || id.KCfc? || id.KCtc?
  {
  }

  // ---------------------------------------------------------------- the whole instruction

  /** r and q are what one instruction makes of s and of s with Mid(s.core). */
  predicate AgreeCpu(s: Cpu, r: Cpu, q: Cpu) {
    Agree(s.core, r.core, q.core) && (r.core.status == Running ==> r.data == q.data)
  }

  lemma MidKeeps(s: Core)
    ensures Mid(s).pc == Low32(s.pc) && Mid(s).fpFlag == s.fpFlag && Mid(s).status == s.status
  {
  }

  lemma CondBranchAgrees(env: Env, s: Cpu, id: InstId, raw: U32)
    requires env.tlb.Normal? && s.core.status == Running
    ensures AgreeCpu(s, ExecCondBranch(env, s, id, raw), ExecCondBranch(env, s.(core := Mid(s.core)), id, raw))
  {
    hide BranchCore, BranchTaken, Low32, Mid, CopId, IsLinkingBranch, Wrap32;
    MidKeeps(s.core);
    LowOfSum(s.core.pc, 8);
    BranchAgrees(env, s.core, id, raw, BranchTaken(id, raw, s.data.gpr, CopFlag(s.core, CopId(raw))));
  }

  lemma ExecJumpAgrees(env: Env, s: Cpu, id: InstId, raw: U32)
    requires env.tlb.Normal? && s.core.status == Running
    requires id == Decode(raw) && !IsIdleJump(env, Low32(s.core.pc), raw)
    ensures AgreeCpu(s, ExecJump(env, s, id, raw), ExecJump(env, s.(core := Mid(s.core)), id, raw))
  {
    hide JumpCore, Low32, Mid, Decode, IsIdleJump, Wrap32, Rd, Rs;
    MidKeeps(s.core);
    LowOfSum(s.core.pc, 8);
    JumpAgrees(env, s.core, id, raw, s.data.gpr[Rs(raw)]);
  }

  /** One instruction sees neither the upper half of pc nor the clock. */
  lemma ExecAgrees(env: Env, s: Cpu, raw: U32)
    requires env.tlb.Normal? && s.core.status == Running
    requires Comparable(env, Low32(s.core.pc), raw)
    ensures AgreeCpu(s, Exec(env, s, raw), Exec(env, s.(core := Mid(s.core)), raw))
  {
    hide ExecCondBranch, ExecJump, ExecCop, Compute, TriggerException, Agree, Mid, CommitCore;
    hide Decode, ReadsClockOrWideEpc, IsIdleJump, HasDelaySlot, IsCopInst, IsCondBranch, Low32;
    var id := Decode(raw);
    if IsNoOp(id) {
      PlainAgrees(s.core);
    } else if IsCondBranch(id) {
      CondBranchAgrees(env, s, id, raw);
    } else if HasDelaySlot(id) {
      ExecJumpAgrees(env, s, id, raw);
    } else if id.KSyscall? || id.KBreak? {
      TriggerAgrees(env, s.core, if id.KSyscall? then Syscall else Breakpoint);
    } else if IsCopInst(id) {
      CopAgrees(env, s, id, raw);
    } else {
      CommitAgrees(env, s.core, Compute(env.tlb, env.config.strict, raw, s.data));
    }
  }
}
