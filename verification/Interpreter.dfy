/** The CPU object: instruction handlers, the plain loop and the cached loop (src/mips_base.cpp). */
module Interpreter {
  import opened Words
  import opened Decoder
  import opened Tlb
  import opened Memory
  import opened Cop0
  import opened Handlers
  import opened Machine
  import opened Blocks
  import opened Cache
  import opened Cycles
  import opened CacheRuns
  import opened CodeCache
  import opened CacheEffects
  import opened Lockstep
  import opened Refinement

  class Mips {
    const env: Env
    const cop0: MipsCop0
    const cache: MipsCache
    const useCache: bool

    var gpr: Regs
    var hi: U64
    var lo: U64
    var mem: Mem
    var pc: U64
    var nextPc: U64
    var llbit: bool
    var hasBd: bool
    var bdDst: U64
    var compareIntr: bool
    var copCause: int
    var fpFlag: bool
    var irq: bool
    var halt: bool
    var total: nat
    var cpiCounter: nat
    var status: Status

    var spent: int
    var pollCounter: int

    ghost function CoreState(): Core
      reads this`pc, this`nextPc, this`llbit, this`hasBd, this`bdDst, this`compareIntr, this`copCause, this`fpFlag
      reads this`irq, this`halt, this`total, this`cpiCounter, this`status, cop0
    {
      Core(cop0.Regs(), pc, nextPc, llbit, hasBd, bdDst, compareIntr, copCause, fpFlag, irq, halt,
           total, cpiCounter, status)
    }

    function Registers(): Data
      reads this`gpr, this`hi, this`lo, this`mem
    {
      Data(gpr, hi, lo, mem)
    }

    ghost function State(): Cpu
      reads this, cop0
    {
      Cpu(Registers(), CoreState())
    }

    constructor (env: Env, useCache: bool)
      ensures this.env == env && this.useCache == useCache && fresh(cop0) && fresh(cache) && fresh(cache.lookup)
      ensures cache.Valid() && cache.State() == EMPTY
      ensures status == Running && pc == 0 && !hasBd && total == cpiCounter == 0 && cop0.Regs() == RESET_REGS
      ensures pollCounter == 0 && !halt
    {
      this.env, this.useCache := env, useCache;
      cop0 := new MipsCop0();
      cache := new MipsCache();
      gpr, hi, lo, mem := seq(32, i => 0), 0, 0, map[];
      pc, nextPc, llbit, hasBd, bdDst := 0, 0, false, false, 0;
      compareIntr, copCause, fpFlag, irq, halt := false, 0, false, false, false;
      total, cpiCounter, spent, pollCounter, status := 0, 0, 0, 0, Running;
    }

    method SetPc(value: U64)
      modifies this`pc, this`nextPc
      ensures State() == old(State()).(core := old(State()).core.(pc := value, nextPc := Wrap64(value + 4)))
    {
      pc, nextPc := value, Wrap64(value + 4);
    }

    // -------------------------------------------------------------- exceptions and interrupts

    method TriggerException(cause: Cause)
      modifies this`hasBd, this`pc, this`nextPc, this`status, cop0
      ensures CoreState() == Machine.TriggerException(env, old(CoreState()), cause)
    {
      hide EnterException, FetchWord, DoesInstHaveDelaySlot;
      var epc := pc;
      var bd := hasBd;
      if hasBd {
        epc := Wrap64(pc - 4);
        var word := FetchWord(env, epc);
        if word == None || !DoesInstHaveDelaySlot(word.value) {
          status := Panicked;
          return;
        }
      }
      EnterCop0(cause, epc, bd);
      hasBd, pc, nextPc := false, VECTOR, VECTOR;
    }

    /** The Cop0 side of an exception. */
    method EnterCop0(cause: Cause, epc: U64, bd: bool)
      modifies cop0
      ensures cop0.Regs() == EnterException(old(CoreState()), cause, epc, bd)
    {
      hide NewCause, SetExl, Exl;
      cop0.cause := CauseWord(cause, bd);
      if !Exl(cop0.sr) {
        cop0.epc := epc;
      }
      cop0.sr := SetExl(cop0.sr);
    }

    function CauseWord(cause: Cause, bd: bool): (c: U32)
      reads this, cop0
      ensures c == NewCause(CoreState(), cause, bd)
    {
      CauseCode(cause) * 4 + BoolInt(irq) * 0x400 + BoolInt(compareIntr) * 0x8000
      + SoftwareBits(cop0.cause) * 0x100
      + (if cause == CopUnusable then copCause % 4 * 0x1000_0000 else 0) + BoolInt(bd) * 0x8000_0000
    }
  
    method CheckInterrupt()
      modifies this`hasBd, this`pc, this`nextPc, this`status, cop0
      ensures CoreState() == Machine.CheckInterrupt(env, old(CoreState()))
    {
      hide Machine.TriggerException;
      var enabled := Ie(cop0.sr) && !Exl(cop0.sr) && !Erl(cop0.sr);
      var im, ip := cop0.sr / 0x100, SoftwareBits(cop0.cause);
      var pending := (im % 2 == 1 && ip % 2 == 1) || (im / 2 % 2 == 1 && ip / 2 == 1)
                     || (im / 4 % 2 == 1 && irq) || (im / 128 % 2 == 1 && compareIntr);
      hide Ie, Exl, Erl, SoftwareBits;
      if enabled && pending {
        TriggerException(Interrupt);
      }
    }

    method CheckCompareTimer()
      modifies this`hasBd, this`pc, this`nextPc, this`status, this`compareIntr, cop0
      ensures CoreState() == PollTimer(env, old(CoreState()))
    {
      hide Machine.CheckInterrupt, WithPending, CheckCompare;
      cop0.cause := WithPending(cop0.cause, irq, compareIntr);
      var crossed := cop0.CheckCompareInterrupt(total);
      if crossed {
        compareIntr := true;
        CheckInterrupt();
      }
    }

    method PollInterrupts()
      modifies this`hasBd, this`pc, this`nextPc, this`status, this`compareIntr, cop0
      ensures CoreState() == Poll(env, old(CoreState()))
    {
      hide Machine.CheckInterrupt, PollTimer;
      if status == Running {
        CheckInterrupt();
        if status == Running {
          CheckCompareTimer();
        }
      }
    }

    // -------------------------------------------------------------- branches and jumps

    method JumpRel(offset: int)
      modifies this`hasBd, this`bdDst
      ensures CoreState() == Machine.JumpRel(old(CoreState()), offset)
    {
      hasBd, bdDst := true, Wrap64(pc + 4 + offset);
    }

    method JumpTo(dst: U64)
      modifies this`hasBd, this`bdDst
      ensures CoreState() == Jump(old(CoreState()), dst)
    {
      hasBd, bdDst := true, dst;
    }

    method WriteGpr(reg: RegIndex, value: U64)
      modifies this`gpr
      ensures gpr == SetReg(old(gpr), reg, value)
    {
      if reg != 0 {
        gpr := gpr[reg := value];
      }
    }

    method LinkForJump(reg: RegIndex)
      modifies this`gpr
      ensures Registers() == Machine.LinkForJump(old(Registers()), pc, reg)
    {
      hide SetReg, Sext32, Wrap32;
      WriteGpr(reg, Sext32(Wrap32(pc + 8)));
    }

    /** Idle-loop detection: a nop in the delay slot earns 100 cycles. */
    method IdleLoop()
      requires status == Running
      modifies this`total, this`spent, this`status
      ensures CoreState() == IdleBonus(env, old(CoreState()))
      ensures spent - old(spent) == total - old(total)
    {
      hide FetchWord;
      var word := FetchWord(env, Wrap64(pc + 4));
      if word == None {
        status := Panicked;
      } else if word.value == 0 {
        spent, total := spent + 100, total + 100;
      }
    }

    method RaiseCopUnusable(cop: int)
      modifies this`hasBd, this`pc, this`nextPc, this`status, this`copCause, cop0
      ensures CoreState() == RaiseCop(env, old(CoreState()), cop)
    {
      hide Machine.TriggerException;
      copCause := cop;
      TriggerException(CopUnusable);
    }

    predicate CopUsable(cop: int)
      requires 0 <= cop < 4
      reads this, cop0
      ensures CopUsable(cop) == CopEnabled(CoreState(), cop)
    {
      cop == 0 || cop0.sr / (if cop == 1 then 0x2000_0000 else if cop == 2 then 0x4000_0000 else 0x8000_0000) % 2 == 1
    }

    method FinishBranch(id: InstId, raw: U32, taken: bool)
      requires status == Running
      modifies this`hasBd, this`bdDst, this`nextPc
      ensures CoreState() == TakeBranch(old(CoreState()), id, raw, taken)
    {
      hide IsLikely, BranchOffset, Machine.JumpRel;
      if taken {
        JumpRel(BranchOffset(raw));
      } else if IsLikely(id) {
        nextPc := Wrap64(pc + 8);
      }
    }

    method IdleBranch(id: InstId, raw: U32, taken: bool)
      requires status == Running
      modifies this`hasBd, this`bdDst, this`nextPc, this`status, this`total, this`spent
      ensures CoreState() == TakeBranch(IdleBonus(env, old(CoreState())), id, raw, taken)
      ensures spent - old(spent) == total - old(total)
    {
      hide TakeBranch, IdleBonus;
      IdleLoop();
      if status == Running {
        FinishBranch(id, raw, taken);
      } else {
        StoppedBranch(CoreState(), id, raw, taken);
      }
    }

    lemma CopCheck(id: InstId, raw: U32)
      ensures RaisesCop(CoreState(), id, raw) == (IsCopBranch(id) && !CopUsable(CopId(raw)))
    {
      hide IsCopBranch, CopId, CopEnabled, CoreState;
    }

    method BranchControl(id: InstId, raw: U32, taken: bool)
      requires status == Running
      modifies this`hasBd, this`bdDst, this`pc, this`nextPc, this`status, this`copCause, this`total, this`spent, cop0
      ensures CoreState() == BranchCore(env, old(CoreState()), id, raw, taken)
      ensures spent - old(spent) == total - old(total)
    {
      hide TakeBranch, IdleBonus, RaiseCop, RaisesCop, CopId, CopUsable, IsCopBranch, CoreState;
      CopCheck(id, raw);
      if IsCopBranch(id) && !CopUsable(CopId(raw)) {
        RaiseCopUnusable(CopId(raw));
      } else if raw == IDLE_BRANCH {
        IdleBranch(id, raw, taken);
      } else {
        FinishBranch(id, raw, taken);
      }
    }

    method InstCondBranch(id: InstId, raw: U32)
      requires status == Running && id == Decode(raw)
      modifies this`hasBd, this`bdDst, this`pc, this`nextPc, this`status, this`copCause, this`total, this`spent
      modifies this`gpr, cop0
      ensures State() == ExecCondBranch(env, old(State()), id, raw)
      ensures spent - old(spent) == total - old(total)
    {
      hide BranchTaken, BranchCore, Machine.LinkForJump, CopId, Decode, CoreState, Registers, IsLinkingBranch;
      var taken := BranchTaken(id, raw, gpr, CopId(raw) == 1 && fpFlag);
      Fields();
      if IsLinkingBranch(id) {
        LinkingBranchRuns(env, CoreState(), id, raw, taken);
        LinkForJump(31);
      }
      BranchControl(id, raw, taken);
    }

    /** The fields the abstract state is made of, for proofs that keep it folded. */
    lemma Fields()
      ensures CoreState().status == status && CoreState().pc == pc && CoreState().fpFlag == fpFlag
      ensures CoreState().total == total && CoreState().cpiCounter == cpiCounter && CoreState().halt == halt
      ensures Registers() == Data(gpr, hi, lo, mem)
    {
    }

    /** J, JAL, JR, JALR; an unaligned target panics before the link. */
    method JumpControl(id: InstId, raw: U32, reg: U64)
      requires status == Running
      modifies this`hasBd, this`bdDst, this`status, this`total, this`spent
      ensures CoreState() == JumpCore(env, old(CoreState()), id, raw, reg)
      ensures spent - old(spent) == total - old(total)
    {
      hide JumpTarget, IdleBonus, Jump, CoreState;
      Fields();
      JumpKeepsStatus(CoreState(), JumpTarget(pc, raw));
      var dst := JumpTarget(pc, raw);
      if id.KJ? || id.KJal? {
        JumpTo(dst);
        if id.KJ? && dst == pc {
          IdleLoop();
        }
      } else if reg % 4 != 0 {
        Stop(Panicked);
      } else {
        JumpTo(reg);
      }
    }

    method InstJump(id: InstId, raw: U32)
      requires status == Running
      modifies this`hasBd, this`bdDst, this`status, this`total, this`spent, this`gpr
      ensures State() == ExecJump(env, old(State()), id, raw)
      ensures spent - old(spent) == total - old(total)
    {
      hide JumpCore, Machine.LinkForJump;
      JumpControl(id, raw, gpr[Rs(raw)]);
      if status == Running {
        if id.KJal? {
          LinkForJump(31);
        } else if id.KJalr? {
          LinkForJump(Rd(raw));
        }
      }
    }

    // -------------------------------------------------------------- coprocessor 0

    method InstCommand(raw: U32)
      requires status == Running
      modifies this`pc, this`nextPc, this`llbit, this`status, cop0
      ensures CoreState() == ExecCommand(old(CoreState()), raw)
    {
      hide Eret, Rfe;
      var command := raw % 64;
      if command == 0x18 {
        var target := cop0.ReturnFromException();
        pc, nextPc, llbit := target, target, false;
      } else if command == 0x10 {
        cop0.PopMode();
      } else if command == 1 || command == 2 || command == 6 || command == 8 {
        status := Unmodelled;
      }
    }

    method InstMoveFrom(is32: bool, idx: RegIndex, rt: RegIndex)
      requires status == Running
      modifies this`gpr, this`status, cop0
      ensures State() == ExecMoveFrom(old(State()), is32, idx, rt)
    {
      hide Read, SetReg, Sext32, Low32;
      if IsTlbRegister(idx) {
        status := Unmodelled;
        return;
      }
      var v := cop0.ReadRegister(idx, total);
      var w: U64 := if is32 then Sext32(Low32(v)) else v;
      WriteGpr(rt, w);
    }

    method InstMoveTo(is32: bool, idx: RegIndex, value: U64)
      requires status == Running
      modifies this`compareIntr, this`status, cop0
      ensures CoreState() == ExecMoveTo(old(CoreState()), is32, idx, value)
    {
      hide Write, Low32;
      if IsTlbRegister(idx) {
        status := Unmodelled;
        return;
      }
      var v: U64 := if is32 then Low32(value) else value;
      var clears := cop0.WriteRegister(idx, v, is32, total);
      if clears {
        compareIntr := false;
      }
    }

    method InstMove(id: InstId, raw: U32)
      requires status == Running
      modifies this`gpr, this`compareIntr, this`status, cop0
      ensures State() == ExecMove(old(State()), id, raw)
    {
      hide ExecMoveFrom, ExecMoveTo, CoreState, SetReg, Rd, Rt;
      if id.KCfc? {
        WriteGpr(Rt(raw), 0);
      } else if id.KCtc? {
      } else if id.KMfc? || id.KDmfc? {
        InstMoveFrom(Is32BitMove(id), Rd(raw), Rt(raw));
      } else {
        InstMoveTo(Is32BitMove(id), Rd(raw), gpr[Rt(raw)]);
      }
    }

    method Stop(reason: Status)
      modifies this`status
      ensures CoreState() == old(CoreState()).(status := reason)
    {
      status := reason;
    }

    method InstCop(id: InstId, raw: U32)
      requires status == Running
      modifies this`hasBd, this`pc, this`nextPc, this`llbit, this`status, this`copCause, this`compareIntr, this`gpr,
          cop0
      ensures State() == ExecCop(env, old(State()), id, raw)
    {
      hide RaiseCop, ExecCommand, ExecMove, CopId, CopEnabled, CopUsable, Registers, CoreState;
      if !CopUsable(CopId(raw)) {
        RaiseCopUnusable(CopId(raw));
      } else if CopId(raw) != 0 {
        Stop(Unmodelled);
      } else if id.KCop? {
        InstCommand(raw);
      } else {
        InstMove(id, raw);
      }
    }

    // -------------------------------------------------------------- registers and memory

    method ReportAddress(bad: Option<U64>)
      modifies cop0
      ensures CoreState() == SetBadVAddr(old(CoreState()), bad)
    {
      if bad.Some? {
        cop0.badVAddr := bad.value;
      }
    }

    method Finish(o: Outcome)
      requires status == Running
      modifies this`hasBd, this`pc, this`nextPc, this`status, this`gpr, this`hi, this`lo, this`mem, cop0
      ensures State() == Commit(env, old(State()), o)
    {
      hide Machine.TriggerException, SetBadVAddr, CoreState;
      match o
      case Done(d) => gpr, hi, lo, mem := d.gpr, d.hi, d.lo, d.mem;
      case Fatal => Stop(Panicked);
      case Raise(cause, bad) =>
        ReportAddress(bad);
        TriggerException(cause);
    }

    method LoadLeftBytes(a: U64, value: nat, w: nat) returns (r: Option<nat>)
      requires 0 < w
      ensures r == LoadLeft(env.tlb, mem, a, value, w, 0)
    {
      hide Load8, PutByte;
      var v := value;
      for i := 0 to LeftCount(a, w)
        invariant LoadLeft(env.tlb, mem, a, value, w, 0) == LoadLeft(env.tlb, mem, a, v, w, i)
      {
        var b := Load8(env.tlb, mem, Wrap64(a + i));
        if b == None {
          return None;
        }
        v := PutByte(v, w, w - 1 - i, b.value);
      }
      r := Some(v);
    }

    method LoadRightBytes(a: U64, value: nat, w: nat) returns (r: Option<nat>)
      requires 0 < w
      ensures r == LoadRight(env.tlb, mem, a, value, w, 0)
    {
      hide Load8, PutByte;
      var v := value;
      for i := 0 to RightCount(a, w)
        invariant LoadRight(env.tlb, mem, a, value, w, 0) == LoadRight(env.tlb, mem, a, v, w, i)
      {
        var b := Load8(env.tlb, mem, Wrap64(a - i));
        if b == None {
          return None;
        }
        v := PutByte(v, w, i, b.value);
      }
      r := Some(v);
    }

    /** Stores byte by byte; a miss panics, so the memory it leaves is not observed. */
    method StoreLeftBytes(a: U64, value: nat, w: nat) returns (ok: bool)
      requires 0 < w
      modifies this`mem
      ensures var m := StoreLeft(env.tlb, old(mem), a, value, w, 0); ok == m.Some? && (ok ==> mem == m.value)
    {
      hide Store8, GetByte;
      for i := 0 to LeftCount(a, w)
        modifies this`mem
        invariant StoreLeft(env.tlb, old(mem), a, value, w, 0) == StoreLeft(env.tlb, mem, a, value, w, i)
      {
        var m := Store8(env.tlb, mem, Wrap64(a + i), GetByte(value, w, w - 1 - i));
        if m == None {
          return false;
        }
        mem := m.value;
      }
      ok := true;
    }

    method StoreRightBytes(a: U64, value: nat, w: nat) returns (ok: bool)
      requires 0 < w
      modifies this`mem
      ensures var m := StoreRight(env.tlb, old(mem), a, value, w, 0); ok == m.Some? && (ok ==> mem == m.value)
    {
      hide Store8, GetByte;
      for i := 0 to RightCount(a, w)
        modifies this`mem
        invariant StoreRight(env.tlb, old(mem), a, value, w, 0) == StoreRight(env.tlb, mem, a, value, w, i)
      {
        var m := Store8(env.tlb, mem, Wrap64(a - i), GetByte(value, w, i));
        if m == None {
          return false;
        }
        mem := m.value;
      }
      ok := true;
    }

    /** The byte loop of LWL, LWR, LDL or LDR. */
    method MergeBytes(id: InstId, a: U64, v: U64) returns (r: Option<nat>)
      requires IsUnalignedLoad(id)
      ensures r == Merged(env.tlb, id, mem, a, v)
    {
      hide LoadLeft, LoadRight, Operand;
      if id.KLwl? || id.KLdl? {
        r := LoadLeftBytes(a, Operand(id, v), Width(id));
      } else {
        r := LoadRightBytes(a, Operand(id, v), Width(id));
      }
    }

    /** The byte loop of SWL, SWR, SDL or SDR. */
    method ScatterBytes(id: InstId, a: U64, v: U64) returns (ok: bool)
      requires IsUnalignedStore(id)
      modifies this`mem
      ensures var m := Scattered(env.tlb, id, old(mem), a, v); ok == m.Some? && (ok ==> mem == m.value)
    {
      hide StoreLeft, StoreRight, Operand;
      if id.KSwl? || id.KSdl? {
        ok := StoreLeftBytes(a, Operand(id, v), Width(id));
      } else {
        ok := StoreRightBytes(a, Operand(id, v), Width(id));
      }
    }

    method InstLoadUnaligned(id: InstId, raw: U32)
      requires status == Running && IsUnalignedLoad(id)
      modifies this`hasBd, this`pc, this`nextPc, this`status, this`gpr, this`hi, this`lo, this`mem, cop0
      ensures State() == ExecUnaligned(env, old(State()), id, raw)
    {
      hide Commit, Merged, Address, CoreState, FromLoad, Rt;
      var r := MergeBytes(id, Address(raw, gpr), gpr[Rt(raw)]);
      Finish(FromLoad(raw, Registers(), r, Width(id)));
    }

    method InstStoreUnaligned(id: InstId, a: U64, v: U64)
      requires status == Running && IsUnalignedStore(id)
      modifies this`status, this`mem
      ensures var m := Scattered(env.tlb, id, old(mem), a, v);
              CoreState() == old(CoreState()).(status := if m.Some? then Running else Panicked)
              && Registers() == old(Registers()).(mem := mem) && (m.Some? ==> mem == m.value)
    {
      hide Scattered, IsUnalignedStore, CoreState;
      Fields();
      var ok := ScatterBytes(id, a, v);
      if !ok {
        Stop(Panicked);
      }
    }

    method InstUnaligned(id: InstId, raw: U32)
      requires status == Running && (IsUnalignedLoad(id) || IsUnalignedStore(id))
      modifies this`hasBd, this`pc, this`nextPc, this`status, this`gpr, this`hi, this`lo, this`mem, cop0
      ensures SameRun(State(), ExecUnaligned(env, old(State()), id, raw))
    {
      hide ExecUnaligned, Scattered, Address, Rt, FromLoad, Merged, CoreState, Registers;
      if IsUnalignedLoad(id) {
        InstLoadUnaligned(id, raw);
      } else {
        Fields();
        StoreCommits(env, State(), id, raw);
        InstStoreUnaligned(id, Address(raw, gpr), gpr[Rt(raw)]);
      }
    }

    /** CACHE on the instruction cache marks the blocks of its 32-byte line; it is a no-op for the CPU. */
    method InstCache(raw: U32)
      requires cache.Valid()
      modifies cache`pending, cache`hasPendingWork
      ensures cache.Valid()
      ensures cache.State() == CacheInstruction(old(cache.State()), env.tlb, useCache, raw, Address(raw, gpr))
    {
      hide Invalidate, Contents;
      var isDataCache := raw / 0x1_0000 % 2 == 1;
      if isDataCache || !useCache {
        return;
      }
      var address := Address(raw, gpr);
      var line: int := address - address % 32;
      cache.InvalidateBlockRange(env.tlb, line, Wrap64(line + 32));
    }

    method InstRegular(id: InstId, raw: U32)
      requires status == Running && id == Decode(raw)
      modifies this`hasBd, this`pc, this`nextPc, this`status, this`gpr, this`hi, this`lo, this`mem, cop0
      ensures SameRun(State(), ExecRegular(env, old(State()), raw))
    {
      hide Decode, Compute, CoreState, Registers, Commit, ExecUnaligned;
      if IsUnalignedLoad(id) || IsUnalignedStore(id) {
        RegularUnaligned(env, State(), raw);
        InstUnaligned(id, raw);
      } else {
        Finish(Compute(env.tlb, env.config.strict, raw, Registers()));
      }
    }

    method InstTrap(id: InstId)
      requires id.KSyscall? || id.KBreak?
      modifies this`hasBd, this`pc, this`nextPc, this`status, cop0
      ensures CoreState() == Machine.TriggerException(env, old(CoreState()), if id.KSyscall? then Syscall
              else Breakpoint)
    {
      hide Machine.TriggerException;
      TriggerException(if id.KSyscall? then Syscall else Breakpoint);
    }

    /** The handler of one opcode. */
    method ExecuteInst(raw: U32)
      requires status == Running && cache.Valid()
      modifies this`hasBd, this`bdDst, this`pc, this`nextPc, this`llbit, this`status, this`copCause, this`compareIntr
      modifies this`total, this`spent, this`gpr, this`hi, this`lo, this`mem, cop0, cache`pending, cache`hasPendingWork
      ensures SameRun(State(), Exec(env, old(State()), raw))
      ensures spent - old(spent) == total - old(total)
      ensures cache.Valid() && cache.State() == CacheAfter(env, old(cache.State()), useCache, old(gpr), raw)
    {
      hide Decode, ExecCondBranch, ExecJump, ExecCop, ExecRegular, Machine.TriggerException, CoreState, Registers;
      hide HasDelaySlot, IsCopInst, IsCondBranch, Cache.MipsCache.Valid, CacheInstruction, Contents;
      var id := Decode(raw);
      Fields();
      if IsNoOp(id) {
        if id.KCache? {
          InstCache(raw);
        }
      } else if IsCondBranch(id) {
        InstCondBranch(id, raw);
      } else if HasDelaySlot(id) {
        InstJump(id, raw);
      } else if id.KSyscall? || id.KBreak? {
        InstTrap(id);
      } else if IsCopInst(id) {
        InstCop(id, raw);
      } else {
        InstRegular(id, raw);
      }
    }

    // -------------------------------------------------------------- the plain loop

    method TakePendingBranch()
      modifies this`nextPc, this`hasBd
      ensures CoreState() == Prepare(old(CoreState()))
    {
      if hasBd {
        nextPc, hasBd := bdDst, false;
      } else {
        nextPc := Wrap64(pc + 4);
      }
    }

    method ChargeCycles(n: nat)
      modifies this`total, this`spent, this`cpiCounter
      ensures CoreState() == Charge(old(CoreState()), n)
      ensures spent - old(spent) == total - old(total)
    {
      var credit := cpiCounter + n;
      cpiCounter := credit % 256;
      spent, total := spent + credit / 256, total + credit / 256;
    }

    /** A halted CPU only advances the timestamp. */
    method LetTimePass(cycles: nat)
      modifies this`total
      ensures State() == Idle(old(State()), cycles) && total == old(total) + cycles
    {
      total := total + cycles;
    }

    method Advance()
      modifies this`pc, this`total, this`spent, this`cpiCounter
      ensures CoreState() == Retire(old(CoreState()), env.config.cpi)
      ensures spent - old(spent) == total - old(total)
    {
      hide Charge;
      if status == Running {
        pc := nextPc;
        ChargeCycles(env.config.cpi);
      }
    }

    method RunInst()
      requires status == Running && cache.Valid()
      modifies this`hasBd, this`bdDst, this`pc, this`nextPc, this`llbit, this`status, this`copCause, this`compareIntr
      modifies this`total, this`spent, this`cpiCounter, this`gpr, this`hi, this`lo, this`mem
      modifies cop0, cache`pending, cache`hasPendingWork
      ensures SameRun(State(), Step(env, old(State())))
      ensures spent - old(spent) == total - old(total)
      ensures cache.Valid() && cache.State() == NextCache(env, old(cache.State()), useCache, old(State()))
    {
      hide Exec, FetchWord, Prepare, Retire, CoreState, Registers, Cache.MipsCache.Valid, CacheAfter, Contents;
      Fields();
      var word := FetchWord(env, pc);
      if word == None {
        Stop(Panicked);
        return;
      }
      TakePendingBranch();
      PrepareRuns(old(CoreState()));
      Fields();
      ExecuteInst(word.value);
      RetireKeepsStatus(CoreState(), env.config.cpi);
      Advance();
    }

    lemma Progress(s: Cpu)
      requires s.core.status == Running && s.core.cpiCounter < 256
      ensures var r := Step(env, s).core;
              && s.core.total <= r.total
              && (r.status == Running ==>
                    && r.total <= s.core.total + MaxGain(env, 1, 1) && r.cpiCounter < 256
                    && Credit(s.core) + env.config.cpi <= Credit(r))
    {
      hide Step;
      if Step(env, s).core.status == Running {
        StepProgress(env, s);
      } else {
        StoppingStepIsFree(env, s);
      }
    }

    /** The cache after n plain steps from s; a halted CPU takes none. */
    ghost function RanCache(st: CacheState, s: Cpu, n: nat): CacheState
      reads this`halt
    {
      if halt then st else StepsCache(env, st, useCache, s, n)
    }

    /** The loop of Run: a halted CPU only lets time pass. */
    method RunUntil(cycle: int) returns (r: nat, ghost n: nat)
      requires status == Running && cache.Valid() && cpiCounter < 256 && env.config.cpi >= 1 && spent == 0
      modifies this`hasBd, this`bdDst, this`pc, this`nextPc, this`llbit, this`status, this`copCause, this`compareIntr
      modifies this`total, this`spent, this`cpiCounter, this`gpr, this`hi, this`lo, this`mem
      modifies cop0, cache`pending, cache`hasPendingWork
      ensures cache.Valid() && cache.State() == RanCache(old(cache.State()), old(State()), n)
      ensures SameRun(State(), if halt then Idle(old(State()), r) else Steps(env, old(State()), n))
      ensures status == Running ==> r == total - old(total) && cpiCounter < 256
      ensures status == Running ==> r <= MaxRun(env, cycle, 1, 1, halt) && (cycle > 0 ==> cycle <= r)
    {
      hide Step, CoreState, Registers, Cache.MipsCache.Valid, Idle, Contents, NextCache, StepsCache;
      n := 0;
      ghost var st0 := cache.State();
      NoStepsYet(env, st0, useCache, State());
      IdleNone(State());
      while spent < cycle
        invariant cache.Valid() && 0 <= spent
        invariant status == Running && spent == total - old(total) && cpiCounter < 256
        invariant if halt then n == spent == 0 &&
                State() == old(State()) else SameRun(State(), Steps(env, old(State()), n))
        invariant cache.State() == StepsCache(env, st0, useCache, old(State()), n)
        invariant spent <= MaxRun(env, cycle, 1, 1, halt)
        decreases 256 * (cycle - spent) - cpiCounter
      {
        if halt {
          LetTimePass(cycle - spent);
          return cycle, n;
        }
        Fields();
        Progress(State());
        StepsOneMore(env, old(State()), n);
        OneMoreStep(env, st0, useCache, old(State()), n);
        RunInst();
        n := n + 1;
        Fields();
        if status != Running {
          return 0, n;
        }
      }
      r := spent;
    }

    /** Polls once, then steps until `cycle` cycles are spent. */
    method Run(cycle: int) returns (r: nat, ghost n: nat)
      requires status == Running && cache.Valid() && cpiCounter < 256 && env.config.cpi >= 1
      modifies this`hasBd, this`bdDst, this`pc, this`nextPc, this`llbit, this`status, this`copCause, this`compareIntr
      modifies this`total, this`spent, this`cpiCounter, this`gpr, this`hi, this`lo, this`mem
      modifies cop0, cache`pending, cache`hasPendingWork
      ensures cache.Valid()
      ensures cache.State()
              == RanCache(old(cache.State()), old(State()).(core := Poll(env, old(CoreState()))), n)
      ensures var s := old(State()).(core := Poll(env, old(CoreState())));
              SameRun(State(), if halt then Idle(s, r) else Steps(env, s, n))
      ensures status == Running ==> r == total - old(total) && cpiCounter < 256
      ensures status == Running ==> r <= MaxRun(env, cycle, 1, 1, halt) && (cycle > 0 ==> cycle <= r)
    {
      hide Step, Poll, CoreState, Registers, Cache.MipsCache.Valid, Idle, MaxRun, Contents, NextCache, StepsCache;
      spent, n, r := 0, 0, 0;
      PollInterrupts();
      IdleNone(State());
      NoStepsYet(env, cache.State(), useCache, State());
      Fields();
      if status == Running {
        r, n := RunUntil(cycle);
      }
    }

    // -------------------------------------------------------------- the cached loop

    /** Scans the block at the low word of `address` and caches it; a fetch that misses panics. */
    method OnNewBlock(address: U64)
      requires cache.Valid() && status == Running
      modifies this`status, cache, cache.lookup
      ensures cache.Valid()
      ensures match Scan(env, Low32(address))
              case None => status == Panicked && cache.State() == old(cache.State())
              case Some(es) => status == Running
                               && cache.State() == Insert(old(cache.State()), env.tlb, NewBlock(address, es))
      ensures forall k :: k in cache.blocks ==>
                if k in old(cache.blocks) then cache.blocks[k] == old(cache.blocks)[k] else fresh(cache.blocks[k])
    {
      hide Scan, Insert, Low32, Contents;
      var start := Low32(address);
      var entries := new Entry[MAX_LENGTH](_ => Entry(0, 0));
      var length, panicked := ScanBlock(env, start, entries);
      if panicked {
        status := Panicked;
        return;
      }
      cache.InsertBlock(env.tlb, Block(start, Wrap32(start + 4 * length), entries[..length]));
    }

    method ApplyPendingClear()
      requires cache.Valid() && CodeBlocks(env, cache.State().blocks)
      modifies cache, cache.lookup
      ensures cache.Valid() && CodeBlocks(env, cache.State().blocks)
      ensures Cleared(old(cache.State()), cache.State())
      ensures SubMap(cache.blocks, old(cache.blocks))
    {
      hide CodeBlocks, ExecuteClear;
      if cache.hasPendingWork {
        ghost var before := cache.State().blocks;
        cache.ExecuteCacheClear();
        FewerBlocksAreCode(env, before, cache.State().blocks);
      }
    }

    /**
     * The block at pc, created when there is none: null exactly when the cache st, after the pending clear,
     * has no block for pc and the scan misses. "Block creation failed" cannot happen.
     */
    method FindBlock() returns (b: CacheBlock?, ghost st: CacheState)
      requires cache.Valid() && CodeBlocks(env, cache.State().blocks) && status == Running && env.tlb.Normal?
      modifies this`status, cache, cache.lookup
      ensures cache.Valid() && CodeBlocks(env, cache.State().blocks)
      ensures Cleared(old(cache.State()), st)
      ensures b == null <==> Lookup(st, env.tlb, pc) == None && Scan(env, Low32(pc)) == None
      ensures b == null ==> status == Panicked
      ensures cache.State() == Filled(env, st, pc)
      ensures b != null && Lookup(st, env.tlb, pc) == None ==> fresh(b)
      ensures b != null && Lookup(st, env.tlb, pc) != None ==>
                b.start in st.blocks && b.start in old(cache.blocks) && b == old(cache.blocks)[b.start]
      ensures CoreState() == if b == null then Panic(old(CoreState())) else old(CoreState())
      ensures b != null ==> status == Running && CodeBlock(env, b.Data())
                            && b.entries != [] && FetchWord(env, pc) == Some(b.entries[0].opcode)
                            && Translate(env.tlb, pc).found && Translate(env.tlb, pc).address == b.start
    {
      hide CodeBlocks, CodeBlock, Scan, Insert, Lookup, Low32, FetchWord, NewBlock, Contents, Cleared, Translate;
      ApplyPendingClear();
      st := cache.State();
      ContentsKeys(cache.blocks);
      b := cache.GetBlock(env.tlb, pc);
      if b == null {
        MissingKey(st, env.tlb, pc);
        OnNewBlock(pc);
        if status == Panicked {
          return;
        }
        CreatedBlock(env, st, pc);
        b := cache.GetBlock(env.tlb, pc);
      }
      FoundBlockMatches(env, cache.State(), pc);
    }

    /** One entry: consume a pending branch, execute, advance with a masked pc. */
    method RunEntry(raw: U32)
      requires status == Running && cache.Valid()
      modifies this`hasBd, this`bdDst, this`pc, this`nextPc, this`llbit, this`status, this`copCause, this`compareIntr
      modifies this`total, this`spent, this`gpr, this`hi, this`lo, this`mem
      modifies cop0, cache`pending, cache`hasPendingWork
      ensures SameRun(State(), EntryStep(env, old(State()), raw))
      ensures spent - old(spent) == total - old(total)
      ensures cache.Valid() && cache.State() == CacheAfter(env, old(cache.State()), useCache, old(gpr), raw)
    {
      hide Exec, Prepare, CoreState, Registers, Cache.MipsCache.Valid, Contents, CacheAfter;
      Fields();
      TakePendingBranch();
      PrepareRuns(old(CoreState()));
      Fields();
      ExecuteInst(raw);
      Fields();
      if status == Running {
        MaskPc();
      }
    }

    method MaskPc()
      modifies this`pc
      ensures CoreState() == old(CoreState()).(pc := Low32(nextPc)) && old(CoreState()).nextPc == nextPc
    {
      pc := Low32(nextPc);
    }

    /** The entry loop: leaves the block when the CPU stops or pc is not where the next entry is. */
    method RunEntries(es: seq<Entry>, ghost v: nat) returns (executed: nat)
      requires status == Running && cache.Valid() && env.tlb.Normal?
      requires 1 <= |es| <= MAX_LENGTH && MatchesCode(env, v, es) && WellEnded(es)
      requires FetchWord(env, pc) == Some(es[0].opcode)
      modifies this`hasBd, this`bdDst, this`pc, this`nextPc, this`llbit, this`status, this`copCause, this`compareIntr
      modifies this`total, this`spent, this`gpr, this`hi, this`lo, this`mem
      modifies cop0, cache`pending, cache`hasPendingWork
      ensures LeavesAfter(env, old(State()), es, executed)
      ensures SameRun(State(), Entries(env, old(State()), executed))
      ensures 0 <= total - old(total) <= 100 * MaxHits(env)
      ensures spent - old(spent) == total - old(total)
      ensures cache.Valid()
      ensures cache.State() == EntriesCache(env, old(cache.State()), useCache, old(State()), executed)
    {
      hide MatchesCode, WellEnded, FetchWord, EntryStep, CoreState, Registers, BonusSoFar, Entries;
      hide Cache.MipsCache.Valid, Contents, MaxHits, NextEntry, CacheAfter, EntriesCache;
      executed := 0;
      ghost var c0, st0 := State(), cache.State();
      NoEntriesYet(env, st0, useCache, c0);
      NoBonusYet(env, es);
      NoEntries(env, c0);
      Fields();
      while executed < |es|
        invariant executed <= |es| && status == Running
        invariant executed == 0 ==> FetchWord(env, pc) == Some(es[0].opcode)
        invariant State() == Entries(env, c0, executed)
        invariant forall i :: 0 < i < executed ==> StaysIn(Entries(env, c0, i).core, es[i])
        invariant BonusSoFar(env, es, executed, total - old(total)) && 0 <= total - old(total) <= 100 * MaxHits(env)
        invariant spent - old(spent) == total - old(total)
        invariant cache.Valid() && cache.State() == EntriesCache(env, st0, useCache, c0, executed)
      {
        Fields();
        if executed > 0 && pc != es[executed].address {
          return;
        }
        EntryMatches(env, v, es, executed);
        ghost var c := State();
        RunEntry(es[executed].opcode);
        Fields();
        OneMoreEntry(env, c0, executed, es[executed].opcode);
        OneMoreCache(env, st0, useCache, c0, executed, es[executed].opcode);
        EntryEarns(env, c, State(), v, es, executed, c.core.total - old(total));
        executed := executed + 1;
        if status != Running {
          return;
        }
      }
    }

    /** A whole block, charged at its end. */
    method RunBlock(es: seq<Entry>, ghost v: nat) returns (executed: nat)
      requires status == Running && cache.Valid() && env.tlb.Normal? && cpiCounter < 256
      requires 1 <= |es| <= MAX_LENGTH && MatchesCode(env, v, es) && WellEnded(es)
      requires FetchWord(env, pc) == Some(es[0].opcode)
      modifies this`hasBd, this`bdDst, this`pc, this`nextPc, this`llbit, this`status, this`copCause, this`compareIntr
      modifies this`total, this`spent, this`cpiCounter, this`gpr, this`hi, this`lo, this`mem
      modifies cop0, cache`pending, cache`hasPendingWork
      ensures LeavesAfter(env, old(State()), es, executed)
      ensures SameRun(State(), CachedBlock(env, old(State()), executed))
      ensures spent - old(spent) == total - old(total)
      ensures status == Running ==>
                && old(total) <= total <= old(total) + MaxGain(env, MAX_LENGTH, MaxHits(env))
                && 256 * old(total) + old(cpiCounter) + env.config.cpi <= 256 * total + cpiCounter && cpiCounter < 256
      ensures cache.Valid()
      ensures cache.State() == EntriesCache(env, old(cache.State()), useCache, old(State()), executed)
    {
      hide MatchesCode, WellEnded, FetchWord, CoreState, Registers, Entries, StaysIn;
      hide Cache.MipsCache.Valid, Contents, MaxHits, Charge, EntriesCache;
      executed := RunEntries(es, v);
      Fields();
      if status == Running {
        ChargeGain(env, CoreState(), executed, executed * env.config.cpi);
        ChargeCycles(executed * env.config.cpi);
        Fields();
      }
    }

    /** Counts a block and polls before every fourth one. */
    method PollSometimes() returns (polled: bool)
      requires status == Running && 0 <= pollCounter < POLL_INTERVAL
      modifies this`hasBd, this`pc, this`nextPc, this`status, this`compareIntr, this`pollCounter, cop0
      ensures polled <==> old(pollCounter) + 1 == POLL_INTERVAL
      ensures CoreState() == if polled then Poll(env, old(CoreState())) else old(CoreState())
      ensures pollCounter == if polled then 0 else old(pollCounter) + 1
    {
      hide Poll;
      pollCounter := pollCounter + 1;
      polled := pollCounter >= POLL_INTERVAL;
      if polled {
        pollCounter := 0;
        PollInterrupts();
      }
    }

    /** Everything RunCached keeps between blocks, for a CPU that started in c0. */
    ghost predicate Synchronised(c0: Cpu, st0: CacheState, events: seq<Event>)
      reads this, cop0, cache, cache.lookup
    {
      && cache.Valid() && CodeBlocks(env, cache.State().blocks)
      && SameRun(State(), CachedAll(env, c0, events))
      && CacheRun(env, useCache, c0, st0, events, cache.State())
      && 0 <= pollCounter < POLL_INTERVAL
      && Timely(events, POLL_INTERVAL * MAX_LENGTH, halt) && AllVisits(env, c0, events)
      && SincePoll(events) <= (pollCounter + 1) * MAX_LENGTH
    }

    /** A CPU whose cache is empty, or holds the code, may be compared with itself. */
    lemma StartsSynchronised()
      requires cache.Valid() && CodeBlocks(env, cache.State().blocks) && 0 <= pollCounter < POLL_INTERVAL
      requires status == Running ==> cpiCounter < 256
      ensures Synchronised(State(), cache.State(), []) && Similar(env, State(), State())
    {
      hide CodeBlocks, Contents, Similar, Registers, Visits;
      SimilarToItself(env, State());
    }

    /** The state of the last missing scan: the CPU as it was before the scan panicked. */
    ghost function BeforeScan(missed: bool): Cpu
      reads this, cop0
    {
      if missed then State().(core := State().core.(status := Running)) else State()
    }

    /** The cache is where the schedule leads; a missing scan has done the pending work before it. */
    ghost predicate CacheAtEnd(c0: Cpu, st0: CacheState, events: seq<Event>, missed: bool)
      reads this, cache
    {
      if missed then exists st :: CacheRun(env, useCache, c0, st0, events, st) && Cleared(st, cache.State())
      else CacheRun(env, useCache, c0, st0, events, cache.State())
    }

    /** One pass of the loop below the poll: find a block and run it. */
    method RunNextBlock() returns (ghost n: nat, ghost missed: bool)
      requires status == Running && env.tlb.Normal? && cpiCounter < 256
      requires cache.Valid() && CodeBlocks(env, cache.State().blocks)
      modifies this`hasBd, this`bdDst, this`pc, this`nextPc, this`llbit, this`status, this`copCause, this`compareIntr
      modifies this`total, this`spent, this`cpiCounter, this`gpr, this`hi, this`lo, this`mem
      modifies cop0, cache, cache.lookup
      ensures cache.Valid() && CodeBlocks(env, cache.State().blocks)
      ensures missed ==> status == Panicked && Scan(env, Low32(pc)) == None
                         && State() == old(State()).(core := Panic(old(State()).core))
      ensures !missed ==> 1 <= n <= MAX_LENGTH && SameRun(State(), CachedBlock(env, old(State()), n))
      ensures !missed ==> Visits(env, old(State()), n)
      ensures if missed then Cleared(old(cache.State()), cache.State())
              else VisitCache(env, useCache, old(State()), n, old(cache.State()), cache.State())
      ensures spent - old(spent) == total - old(total)
      ensures status == Running ==>
                && old(total) <= total <= old(total) + MaxGain(env, MAX_LENGTH, MaxHits(env))
                && 256 * old(total) + old(cpiCounter) + env.config.cpi <= 256 * total + cpiCounter && cpiCounter < 256
    {
      hide MatchesCode, WellEnded, FetchWord, Registers, Scan, CodeBlocks, CachedBlock, StaysIn, Entries, Translate;
      hide Cache.MipsCache.Valid, Contents, MaxHits, MaxGain, Low32, Cleared, CoreState;
      hide Lookup, EntriesCache, Insert;
      n, missed := 0, false;
      var b, st := FindBlock();
      Fields();
      if b == null {
        missed := true;
        return;
      }
      ghost var c := State();
      ghost var v: U32 :| ScannedFrom(env, b.Data(), v);
      ScanShape(env, v);
      n := RunBlock(b.entries, v);
      assert IsVisit(env, c, v, n);
    }

    /** The poll at the top of the loop. */
    method PollStep(ghost c0: Cpu, ghost st0: CacheState, ghost events: seq<Event>) returns (ghost events': seq<Event>)
      requires status == Running && Synchronised(c0, st0, events)
      modifies this`hasBd, this`pc, this`nextPc, this`status, this`compareIntr, this`pollCounter, cop0
      ensures cache.Valid() && CodeBlocks(env, cache.State().blocks)
      ensures CacheRun(env, useCache, c0, st0, events', cache.State())
      ensures events' == if pollCounter == 0 then events + [DoPoll] else events
      ensures pollCounter == (old(pollCounter) + 1) % 4
      ensures State() == CachedAll(env, c0, events') && Timely(events', POLL_INTERVAL * MAX_LENGTH, halt)
      ensures SincePoll(events') <= pollCounter * MAX_LENGTH && AllVisits(env, c0, events')
    {
      hide Cache.MipsCache.Valid, Contents, CodeBlocks, Timely, SincePoll, CoreState, Registers, Poll, CachedAll;
      hide AllVisits, CacheRun;
      Fields();
      var polled := PollSometimes();
      events' := events;
      if polled {
        CachedOneMore(env, c0, events, DoPoll);
        TimelyOneMore(events, DoPoll, POLL_INTERVAL * MAX_LENGTH, halt);
        VisitsOneMore(env, c0, events, DoPoll);
        CacheRunOneMore(env, useCache, c0, st0, events, DoPoll, cache.State(), cache.State());
        events' := events + [DoPoll];
      }
    }

    /** A halted CPU lets the rest of the cycles pass. */
    method HaltStep(cycles: nat, ghost c0: Cpu, ghost st0: CacheState, ghost events: seq<Event>)
      returns (ghost events': seq<Event>)
      requires halt && State() == CachedAll(env, c0, events) && Timely(events, POLL_INTERVAL * MAX_LENGTH, halt)
      requires AllVisits(env, c0, events) && CacheRun(env, useCache, c0, st0, events, cache.State())
      modifies this`total
      ensures total == old(total) + cycles
      ensures State() == CachedAll(env, c0, events') && Timely(events', POLL_INTERVAL * MAX_LENGTH, halt)
      ensures AllVisits(env, c0, events') && CacheRun(env, useCache, c0, st0, events', cache.State())
    {
      hide CachedAll, Timely, SincePoll, CoreState, Registers, Idle, AllVisits, CacheRun, Contents;
      LetTimePass(cycles);
      CachedOneMore(env, c0, events, DoIdle(cycles));
      TimelyOneMore(events, DoIdle(cycles), POLL_INTERVAL * MAX_LENGTH, halt);
      VisitsOneMore(env, c0, events, DoIdle(cycles));
      CacheRunOneMore(env, useCache, c0, st0, events, DoIdle(cycles), cache.State(), cache.State());
      events' := events + [DoIdle(cycles)];
    }

    /** The block at the bottom of the loop. */
    method BlockStep(ghost c0: Cpu, ghost st0: CacheState, ghost events: seq<Event>)
      returns (ghost events': seq<Event>, ghost missed: bool)
      requires status == Running && env.tlb.Normal? && cpiCounter < 256 && !halt
      requires cache.Valid() && CodeBlocks(env, cache.State().blocks) && State() == CachedAll(env, c0, events)
      requires 0 <= pollCounter < POLL_INTERVAL && Timely(events, POLL_INTERVAL * MAX_LENGTH, halt)
      requires SincePoll(events) <= pollCounter * MAX_LENGTH && AllVisits(env, c0, events)
      requires CacheRun(env, useCache, c0, st0, events, cache.State())
      modifies this`hasBd, this`bdDst, this`pc, this`nextPc, this`llbit, this`status, this`copCause, this`compareIntr
      modifies this`total, this`spent, this`cpiCounter, this`gpr, this`hi, this`lo, this`mem
      modifies cop0, cache, cache.lookup
      ensures !missed ==> Synchronised(c0, st0, events')
                          && exists n :: 1 <= n <= MAX_LENGTH && events' == events + [DoSteps(n)]
      ensures missed ==> status == Panicked && Scan(env, Low32(pc)) == None && events' == events
      ensures missed ==> Cleared(old(cache.State()), cache.State())
      ensures cache.Valid() && CodeBlocks(env, cache.State().blocks) && 0 <= pollCounter < POLL_INTERVAL
      ensures SameRun(BeforeScan(missed), CachedAll(env, c0, events'))
      ensures Timely(events', POLL_INTERVAL * MAX_LENGTH, halt) && AllVisits(env, c0, events')
      ensures spent - old(spent) == total - old(total)
      ensures status == Running ==>
                && old(total) <= total <= old(total) + MaxGain(env, MAX_LENGTH, MaxHits(env))
                && 256 * old(total) + old(cpiCounter) + env.config.cpi <= 256 * total + cpiCounter && cpiCounter < 256
    {
      hide Cache.MipsCache.Valid, Contents, CodeBlocks, Timely, SincePoll, CoreState, Registers, Scan, Low32;
      hide MaxHits, MaxGain, CachedAll, CachedBlock, AllVisits, Visits, CacheRun, VisitCache, Cleared;
      ghost var c := State();
      Fields();
      ghost var n;
      n, missed := RunNextBlock();
      events' := events;
      if missed {
        assert BeforeScan(true) == c;
      } else {
        CachedOneMore(env, c0, events, DoSteps(n));
        TimelyOneMore(events, DoSteps(n), POLL_INTERVAL * MAX_LENGTH, halt);
        VisitsOneMore(env, c0, events, DoSteps(n));
        CacheRunOneMore(env, useCache, c0, st0, events, DoSteps(n), old(cache.State()), cache.State());
        events' := events + [DoSteps(n)];
      }
    }

    /** The loop of RunCached: the CPU's own schedule of blocks and polls, until a scan misses. */
    method RunBlocks(cycle: int) returns (r: nat, ghost events: seq<Event>, ghost missed: bool)
      requires status == Running && cpiCounter < 256 && env.config.cpi >= 1 && env.tlb.Normal? && spent == 0
      requires cache.Valid() && CodeBlocks(env, cache.State().blocks) && 0 <= pollCounter < POLL_INTERVAL
      modifies this`hasBd, this`bdDst, this`pc, this`nextPc, this`llbit, this`status, this`copCause, this`compareIntr
      modifies this`total, this`spent, this`cpiCounter, this`pollCounter, this`gpr, this`hi, this`lo, this`mem
      modifies cop0, cache, cache.lookup
      ensures cache.Valid() && CodeBlocks(env, cache.State().blocks) && 0 <= pollCounter < POLL_INTERVAL
      ensures SameRun(BeforeScan(missed), CachedAll(env, old(State()), events))
      ensures missed ==> status == Panicked && Scan(env, Low32(pc)) == None
      ensures CacheAtEnd(old(State()), old(cache.State()), events, missed)
      ensures Timely(events, POLL_INTERVAL * MAX_LENGTH, halt) && AllVisits(env, old(State()), events)
      ensures status == Running ==> r == total - old(total) && cpiCounter < 256
      ensures status == Running ==>
              r <= MaxRun(env, cycle, MAX_LENGTH, MaxHits(env), halt) && (cycle > 0 ==> cycle <= r)
    {
      hide Cache.MipsCache.Valid, Contents, CodeBlocks, Timely, SincePoll, CoreState, Registers, Scan, Low32;
      hide MaxHits, MaxGain, CachedAll, AllVisits, CacheRun, Cleared;
      ghost var c0, st0 := State(), cache.State();
      r, events, missed := 0, [], false;
      StartsSynchronised();
      while spent < cycle
        invariant status == Running && cpiCounter < 256 && !missed && spent == total - old(total) && 0 <= spent
        invariant Synchronised(c0, st0, events)
        invariant spent <= MaxRun(env, cycle, MAX_LENGTH, MaxHits(env), halt) && (halt ==> spent == 0)
        decreases 256 * (cycle - spent) - cpiCounter
      {
        events := PollStep(c0, st0, events);
        Fields();
        if status != Running {
          return;
        }
        if halt {
          events := HaltStep(cycle - spent, c0, st0, events);
          return cycle, events, missed;
        }
        events, missed := BlockStep(c0, st0, events);
        if status != Running {
          return;
        }
      }
      r := spent;
    }

    /**
     * The cached loop and the plain CPU p0 under the loop's schedule of blocks and polls. The cached CPU is where
     * its own run of fetched entries leads; it is in step with p0 throughout exactly when every instruction meets
     * the condition, and otherwise there is a first instruction at which the two part.
     */
    method RunCached(cycle: int, ghost p0: Cpu) returns (r: nat, ghost events: seq<Event>, ghost missed: bool)
      requires status == Running && cpiCounter < 256 && env.config.cpi >= 1 && env.tlb.Normal?
      requires cache.Valid() && CodeBlocks(env, cache.State().blocks) && 0 <= pollCounter < POLL_INTERVAL
      requires Similar(env, State(), p0)
      modifies this`hasBd, this`bdDst, this`pc, this`nextPc, this`llbit, this`status, this`copCause, this`compareIntr
      modifies this`total, this`spent, this`cpiCounter, this`pollCounter, this`gpr, this`hi, this`lo, this`mem
      modifies cop0, cache, cache.lookup
      ensures cache.Valid() && CodeBlocks(env, cache.State().blocks) && 0 <= pollCounter < POLL_INTERVAL
      ensures SameRun(BeforeScan(missed), CachedAll(env, old(State()), events))
      ensures AllMeet(env, old(State()), p0, events) <==> InStep(env, old(State()), p0, events)
      ensures AllMeet(env, old(State()), p0, events) ==> Similar(env, BeforeScan(missed), PlayAll(env, p0, events))
      ensures !AllMeet(env, old(State()), p0, events)
              <==> exists k: nat, j: nat :: Departs(env, old(State()), p0, events, k, j)
      ensures ComparableProgram(env) ==> AllMeet(env, old(State()), p0, events)
      ensures missed ==> status == Panicked && Scan(env, Low32(pc)) == None
      ensures CacheAtEnd(old(State()), old(cache.State()), events, missed)
      ensures missed && AllMeet(env, old(State()), p0, events) ==>
                (PanicsOnFetch(env, PlayAll(env, p0, events)) <==> FetchWord(env, pc) == None)
      ensures Timely(events, 256, halt) && AllVisits(env, old(State()), events)
      ensures status == Running ==> r == total - old(total) && cpiCounter < 256
      ensures status == Running ==>
              r <= MaxRun(env, cycle, 64, MaxHits(env), halt) && (cycle > 0 ==> cycle <= r)
    {
      hide Cache.MipsCache.Valid, Contents, CodeBlocks, SincePoll, CoreState, Registers, Scan, Low32, FetchWord;
      hide MaxHits, MaxRun, CachedAll, PlayAll, AllMeet, InStep, Departs, Similar, ComparableProgram, AllVisits;
      hide CacheAtEnd;
      ghost var c0 := State();
      spent := 0;
      r, events, missed := RunBlocks(cycle);
      RunPartsExactly(env, c0, p0, events);
      if ComparableProgram(env) { ComparableMeetsAll(env, c0, p0, events); }
      if AllMeet(env, c0, p0, events) {
        SimilarRun(env, BeforeScan(missed), CachedAll(env, c0, events), PlayAll(env, p0, events));
        if missed { SimilarFetch(env, BeforeScan(missed), PlayAll(env, p0, events)); }
      }
      Fields();
    }
  }

  /** An unaligned store commits the scattered memory, or panics. */
  lemma StoreCommits(env: Env, s: Cpu, id: InstId, raw: U32)
    requires IsUnalignedStore(id)
    ensures var q := ExecUnaligned(env, s, id, raw);
            var m := Scattered(env.tlb, id, s.data.mem, Address(raw, s.data.gpr), s.data.gpr[Rt(raw)]);
            if m.Some? then q == Cpu(s.data.(mem := m.value), s.core) else q.core == s.core.(status := Panicked)
  {
    hide Scattered, Address, Rt, TriggerException, Merged, FromLoad;
    var m := Scattered(env.tlb, id, s.data.mem, Address(raw, s.data.gpr), s.data.gpr[Rt(raw)]);
    assert Unaligned(env.tlb, id, raw, s.data) == FromStore(s.data, m);
    hide Unaligned;
  }

  lemma RegularUnaligned(env: Env, s: Cpu, raw: U32)
    requires IsUnalignedLoad(Decode(raw)) || IsUnalignedStore(Decode(raw))
    ensures ExecRegular(env, s, raw) == ExecUnaligned(env, s, Decode(raw), raw)
  {
    hide Decode, Unaligned;
  }

  lemma JumpKeepsStatus(s: Core, dst: U64)
    ensures Jump(s, dst).status == s.status && Jump(s, dst).pc == s.pc
  {
  }

  lemma StoppedBranch(s: Core, id: InstId, raw: U32, taken: bool)
    requires s.status != Running
    ensures TakeBranch(s, id, raw, taken) == s
  {
  }

  lemma LinkingIsNoCop(id: InstId)
    requires IsLinkingBranch(id)
    ensures !IsCopBranch(id) && !id.KBeq?
  {
  }

  lemma TakeBranchRuns(s: Core, id: InstId, raw: U32, taken: bool)
    requires s.status == Running
    ensures TakeBranch(s, id, raw, taken).status == Running
  {
    hide IsLikely, BranchOffset;
  }

  lemma LinkingBranchRuns(env: Env, s: Core, id: InstId, raw: U32, taken: bool)
    requires s.status == Running && id == Decode(raw) && IsLinkingBranch(id)
    ensures BranchCore(env, s, id, raw, taken).status == Running
  {
    hide Decode, IdleBonus, TakeBranch, RaiseCop, CopEnabled, IsCopBranch, IsLinkingBranch;
    IdleBranchIsBeq();
    LinkingIsNoCop(id);
    TakeBranchRuns(s, id, raw, taken);
  }

  lemma IdleNone(s: Cpu)
    ensures Idle(s, 0) == s
  {
  }

  lemma RetireKeepsStatus(s: Core, n: nat)
    ensures Retire(s, n).status == s.status
    ensures s.status != Running ==> Retire(s, n) == s
  {
  }

  lemma PrepareRuns(s: Core)
    ensures Prepare(s).status == s.status
  {
  }

  lemma SimilarRun(env: Env, r: Cpu, q: Cpu, p: Cpu)
    requires SameRun(r, q) && Similar(env, q, p)
    ensures Similar(env, r, p)
  {
    hide Arch;
  }

  /** Creating the block at pc makes it findable, and keeps the cache equal to the code. */
  lemma CreatedBlock(env: Env, st: CacheState, pc: U64)
    requires env.tlb.Normal? && CodeBlocks(env, st.blocks) && Scan(env, Low32(pc)).Some?
    ensures var st' := Insert(st, env.tlb, NewBlock(pc, Scan(env, Low32(pc)).value));
            CodeBlocks(env, st'.blocks) && Lookup(st', env.tlb, pc).Some?
  {
    hide Scan, Translate, Lookup, Insert, CodeBlocks, Low32;
    NewBlockIsCode(env, st, pc);
    ScanTranslates(env, pc);
    CreatedBlockIsFound(st, env.tlb, pc, Scan(env, Low32(pc)).value);
  }

  lemma ScanTranslates(env: Env, pc: U64)
    requires env.tlb.Normal? && Scan(env, Low32(pc)).Some?
    ensures Translate(env.tlb, pc).found
  {
    hide Search, IsInstBranch, DoesInstHaveDelaySlot;
    assert Body(env, Low32(pc), MAX_LENGTH - 1).Some?;
  }
}
