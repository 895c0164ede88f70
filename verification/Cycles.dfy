/** Time: what an instruction is charged, over runs, and how far a call of Run can overshoot. */
module Cycles {
  import opened Words
  import opened Decoder
  import opened Cop0
  import opened Handlers
  import opened Machine

  /** Time in 1/256 cycles. */
  function Credit(s: Core): nat { 256 * s.total + s.cpiCounter }

  const IDLE_CREDIT := 25600

  /** The instruction spins: the branch to itself, or a J to itself, with a nop in its delay slot. */
  predicate Spins(env: Env, pc: U64, raw: U32) {
    && (raw == IDLE_BRANCH || (Decode(raw).KJ? && JumpTarget(pc, raw) == pc))
    && FetchWord(env, Wrap64(pc + 4)) == Some(0)
  }

  predicate IdleHit(env: Env, s: Core) {
    var word := FetchWord(env, s.pc);
    word.Some? && Spins(env, s.pc, word.value)
  }

  /** r has the clocks of s, advanced by `gain` cycles. */
  predicate Elapsed(s: Core, r: Core, gain: nat) {
    r.total == s.total + gain && r.cpiCounter == s.cpiCounter
  }

  lemma TriggerTakesNoTime(env: Env, s: Core, cause: Cause)
    ensures Elapsed(s, TriggerException(env, s, cause), 0)
  {
    hide FetchWord, EnterException, DoesInstHaveDelaySlot;
  }

  lemma BonusTime(env: Env, s: Core)
    ensures Elapsed(s, IdleBonus(env, s), if FetchWord(env, Wrap64(s.pc + 4)) == Some(0) then 100 else 0)
  {
    hide FetchWord;
  }

  lemma IdleBranchIsBeq()
    ensures Decode(IDLE_BRANCH).KBeq?
  {
  }

  lemma BranchTime(env: Env, s: Core, id: InstId, raw: U32, taken: bool)
    requires id == Decode(raw) && IsCondBranch(id)
    ensures Elapsed(s, BranchCore(env, s, id, raw, taken), if Spins(env, s.pc, raw) then 100 else 0)
  {
    hide FetchWord, TriggerException, IdleBonus, Decode, JumpTarget, BranchOffset, IsLikely, CopEnabled, CopId;
    IdleBranchIsBeq();
    BonusTime(env, s);
    if RaisesCop(s, id, raw) {
      TriggerTakesNoTime(env, s.(copCause := CopId(raw)), CopUnusable);
    }
  }

  lemma JumpTakesNoTime(s: Core, dst: U64)
    ensures Elapsed(s, Jump(s, dst), 0) && Jump(s, dst).pc == s.pc
  {
  }

  lemma JumpTime(env: Env, s: Core, id: InstId, raw: U32, reg: U64)
    requires id == Decode(raw) && HasDelaySlot(id) && !IsCondBranch(id)
    ensures Elapsed(s, JumpCore(env, s, id, raw, reg), if Spins(env, s.pc, raw) then 100 else 0)
  {
    hide FetchWord, IdleBonus, Decode, JumpTarget, Jump, Wrap64;
    IdleBranchIsBeq();
    JumpTakesNoTime(s, JumpTarget(s.pc, raw));
    JumpTakesNoTime(s, reg);
    BonusTime(env, Jump(s, JumpTarget(s.pc, raw)));
  }

  lemma CommandTime(s: Core, raw: U32)
    ensures Elapsed(s, ExecCommand(s, raw), 0)
  {
    hide Eret, Rfe;
  }

  lemma MoveFromTime(s: Cpu, is32: bool, idx: RegIndex, rt: RegIndex)
    ensures Elapsed(s.core, ExecMoveFrom(s, is32, idx, rt).core, 0)
  {
    hide Read, SetReg, Low32, Sext32;
  }

  lemma MoveToTime(s: Core, is32: bool, idx: RegIndex, value: U64)
    ensures Elapsed(s, ExecMoveTo(s, is32, idx, value), 0)
  {
    hide Write, Low32;
  }

  lemma MoveTime(s: Cpu, id: InstId, raw: U32)
    ensures Elapsed(s.core, ExecMove(s, id, raw).core, 0)
  {
    hide SetReg, Rd, Rt, ExecMoveFrom, ExecMoveTo;
    MoveFromTime(s, Is32BitMove(id), Rd(raw), Rt(raw));
    MoveToTime(s.core, Is32BitMove(id), Rd(raw), s.data.gpr[Rt(raw)]);
  }

  lemma CopTime(env: Env, s: Cpu, id: InstId, raw: U32)
    ensures Elapsed(s.core, ExecCop(env, s, id, raw).core, 0)
  {
    hide TriggerException, CopEnabled, CopId, ExecCommand, ExecMove;
    if !CopEnabled(s.core, CopId(raw)) {
      TriggerTakesNoTime(env, s.core.(copCause := CopId(raw)), CopUnusable);
    }
    CommandTime(s.core, raw);
    MoveTime(s, id, raw);
  }

  lemma CommitTime(env: Env, s: Core, o: Outcome)
    ensures Elapsed(s, CommitCore(env, s, o), 0)
  {
    hide TriggerException;
    if o.Raise? { TriggerTakesNoTime(env, SetBadVAddr(s, o.bad), o.cause); }
  }

  lemma OnlyBranchesSpin(env: Env, pc: U64, raw: U32)
    requires Spins(env, pc, raw)
    ensures HasDelaySlot(Decode(raw))
  {
    hide FetchWord, JumpTarget, Decode;
    IdleBranchIsBeq();
  }

  /** Executing an instruction takes 100 cycles if it spins and none otherwise. */
  lemma ExecTime(env: Env, s: Cpu, raw: U32)
    ensures Elapsed(s.core, Exec(env, s, raw).core, if Spins(env, s.core.pc, raw) then 100 else 0)
  {
    hide ExecCop, CommitCore, Compute, TriggerException, Decode, BranchCore, JumpCore, BranchTaken, CopId, Spins;
    hide IsCopInst, LinkForJump;
    var id := Decode(raw);
    if Spins(env, s.core.pc, raw) { OnlyBranchesSpin(env, s.core.pc, raw); }
    if IsCondBranch(id) {
      BranchTime(env, s.core, id, raw, BranchTaken(id, raw, s.data.gpr, CopFlag(s.core, CopId(raw))));
    } else if HasDelaySlot(id) {
      JumpTime(env, s.core, id, raw, s.data.gpr[Rs(raw)]);
    } else if id.KSyscall? || id.KBreak? {
      TriggerTakesNoTime(env, s.core, if id.KSyscall? then Syscall else Breakpoint);
    } else if IsCopInst(id) {
      CopTime(env, s, id, raw);
    } else {
      CommitTime(env, s.core, Compute(env.tlb, env.config.strict, raw, s.data));
    }
  }

  /** Every executed instruction is charged exactly cpi, plus 100 cycles when it spins. */
  lemma StepCharges(env: Env, s: Cpu)
    requires s.core.status == Running && Step(env, s).core.status == Running
    ensures Credit(Step(env, s).core)
            == Credit(s.core) + env.config.cpi + (if IdleHit(env, s.core) then IDLE_CREDIT else 0)
    ensures Step(env, s).core.cpiCounter < 256
  {
    hide Exec, Spins, FetchWord;
    ExecTime(env, s.(core := Prepare(s.core)), FetchWord(env, s.core.pc).value);
  }

  /** A step that stops the CPU is not charged. */
  lemma StoppingStepIsFree(env: Env, s: Cpu)
    requires Step(env, s).core.status != Running
    ensures Step(env, s).core.total >= s.core.total
  {
    hide Exec, Spins, FetchWord;
    if s.core.status == Running && FetchWord(env, s.core.pc).Some? {
      ExecTime(env, s.(core := Prepare(s.core)), FetchWord(env, s.core.pc).value);
    }
  }

  function IdleHits(env: Env, s: Cpu, n: nat): nat
    decreases n
  {
    if n == 0 then 0
    else (if IdleHit(env, s.core) then 1 else 0) + IdleHits(env, Step(env, s), n - 1)
  }

  /** A stopped CPU stays stopped. */
  lemma {:induction false} StoppedStays(env: Env, s: Cpu, n: nat)
    requires s.core.status != Running
    ensures Steps(env, s, n) == s
    decreases n
  {
    if n > 0 { StoppedStays(env, s, n - 1); }
  }

  /** Conservation: time grows by cpi per instruction and 25600/256 cycles per idle hit, over any run. */
  lemma {:induction false} RunCharges(env: Env, s: Cpu, n: nat)
    requires s.core.status == Running && Steps(env, s, n).core.status == Running
    ensures Credit(Steps(env, s, n).core) == Credit(s.core) + n * env.config.cpi + IDLE_CREDIT * IdleHits(env, s, n)
    decreases n
  {
    hide Step, IdleHit;
    if n > 0 {
      if Step(env, s).core.status != Running {
        StoppedStays(env, Step(env, s), n - 1);
      }
      StepCharges(env, s);
      RunCharges(env, Step(env, s), n - 1);
      assert n * env.config.cpi == env.config.cpi + (n - 1) * env.config.cpi;
    }
  }

  /** The most cycles that n instructions with `hits` idle hits can add. */
  function MaxGain(env: Env, n: nat, hits: nat): nat {
    100 * hits + (255 + n * env.config.cpi) / 256
  }

  /** The most a call for `cycle` cycles can return when it charges n instructions at a time. */
  function MaxRun(env: Env, cycle: int, n: nat, hits: nat, halted: bool): int {
    if cycle <= 0 then 0 else if halted then cycle else cycle - 1 + MaxGain(env, n, hits)
  }

  /** A step makes progress, and its cost is bounded. */
  lemma StepProgress(env: Env, s: Cpu)
    requires s.core.status == Running && Step(env, s).core.status == Running && s.core.cpiCounter < 256
    ensures var r := Step(env, s).core;
            && s.core.total <= r.total <= s.core.total + MaxGain(env, 1, 1)
            && Credit(s.core) + env.config.cpi <= Credit(r) && r.cpiCounter < 256
  {
    hide Step, IdleHit;
    StepCharges(env, s);
  }
}
