/**
 * The timer inside the running CPU: every run, whatever it executes, is a run of timer operations, and its
 * polls are the checks.
 */
module TimerRuns {
  import opened Words
  import opened Decoder
  import opened Cop0
  import opened Handlers
  import opened Machine
  import opened Masking
  import opened Cycles
  import opened Interrupts
  import Parting
  import Timer

  /** The registers the timer works on. */
  predicate SameTimer(x: Cop0Regs, y: Cop0Regs) {
    x.compare == y.compare && x.countStart == y.countStart && x.lastCheck == y.lastCheck && x.suppress == y.suppress
  }

  predicate KeepsTimer(s: Core, r: Core) { SameTimer(s.cop0, r.cop0) }

  // ---------------------------------------------------------------- what an instruction does to the timer

  /** Only moves of Count, and moves to Compare, touch the timer. */
  function ExecOps(s: Cpu, raw: U32): seq<Timer.TimerOp> {
    var id, v := Decode(raw), Low32(s.data.gpr[Rt(raw)]);
    if CopId(raw) != 0 then []
    else if IsMoveFrom(id) && Rd(raw) == 9 then [Timer.GetCount]
    else if IsMoveTo(id) && Rd(raw) == 9 then [Timer.SetCount(v)]
    else if IsMoveTo(id) && Rd(raw) == 11 then [Timer.SetCompare(v)]
    else []
  }

  /** The registers after the operations, at the instant of s. */
  function After(s: Core, ops: seq<Timer.TimerOp>): Cop0Regs {
    Timer.Run(s.cop0, s.total, ops).0
  }

  lemma TriggerKeepsTimer(env: Env, s: Core, cause: Cause)
    ensures KeepsTimer(s, TriggerException(env, s, cause))
  {
    hide FetchWord, EnterException, DoesInstHaveDelaySlot, SameTimer, Wrap64;
    EntryKeepsTimer(s, cause, s.pc, false);
    EntryKeepsTimer(s, cause, Wrap64(s.pc - 4), true);
    NothingKeepsTimer(s.cop0);
  }

  lemma EntryKeepsTimer(s: Core, cause: Cause, epc: U64, bd: bool)
    ensures SameTimer(s.cop0, EnterException(s, cause, epc, bd))
  {
    hide NewCause, SetExl, Exl;
  }

  lemma NothingKeepsTimer(c: Cop0Regs)
    ensures SameTimer(c, c)
  {
  }

  lemma BonusKeepsTimer(env: Env, s: Core)
    ensures KeepsTimer(s, IdleBonus(env, s))
  {
    hide FetchWord;
  }

  lemma BranchKeepsTimer(env: Env, s: Core, id: InstId, raw: U32, taken: bool)
    ensures KeepsTimer(s, BranchCore(env, s, id, raw, taken))
  {
    hide TriggerException, IdleBonus, CopId, RaisesCop, IsLikely, BranchOffset;
    BonusKeepsTimer(env, s);
    TriggerKeepsTimer(env, s.(copCause := CopId(raw)), CopUnusable);
  }

  lemma JumpKeepsTimer(env: Env, s: Core, id: InstId, raw: U32, reg: U64)
    ensures KeepsTimer(s, JumpCore(env, s, id, raw, reg))
  {
    hide IdleBonus, JumpTarget;
    BonusKeepsTimer(env, Jump(s, JumpTarget(s.pc, raw)));
  }

  lemma CommandKeepsTimer(s: Core, raw: U32)
    ensures KeepsTimer(s, ExecCommand(s, raw))
  {
    ReturnsKeepTimer(s.cop0);
    NothingKeepsTimer(s.cop0);
    hide Eret, Rfe;
  }

  lemma ReturnsKeepTimer(c: Cop0Regs)
    ensures SameTimer(c, Eret(c).0) && SameTimer(c, Rfe(c))
  {
    hide ClearExl, ClearErl, Erl;
  }

  lemma CommitKeepsTimer(env: Env, s: Core, o: Outcome)
    ensures KeepsTimer(s, CommitCore(env, s, o))
  {
    hide TriggerException;
    if o.Raise? { TriggerKeepsTimer(env, SetBadVAddr(s, o.bad), o.cause); }
  }

  lemma MoveFromTimer(s: Cpu, is32: bool, idx: RegIndex, rt: RegIndex)
    ensures SameTimer(ExecMoveFrom(s, is32, idx, rt).core.cop0,
                      After(s.core, if idx == 9 then [Timer.GetCount] else []))
  {
    Timer.OneOp(s.core.cop0, s.core.total, Timer.GetCount);
    hide SetReg, Low32, Sext32, Timer.Run;
  }

  lemma WriteTimer(c: Cop0Regs, idx: RegIndex, value: U64, is32: bool, now: nat)
    requires !IsTlbRegister(idx)
    ensures SameTimer(Write(c, idx, value, is32, now),
            if idx == 9 then WriteCount(c, Low32(value), now)
            else if idx == 11 then c.(compare := Low32(value), suppress := true) else c)
  {
    hide Low32, SoftwareBits;
  }

  lemma MoveToTimer(s: Core, is32: bool, idx: RegIndex, value: U64)
    ensures SameTimer(ExecMoveTo(s, is32, idx, value).cop0,
            After(s, if idx == 9 then [Timer.SetCount(Low32(value))]
            else if idx == 11 then [Timer.SetCompare(Low32(value))] else []))
  {
    LowOfLow(value);
    var v := Low32(value);
    Timer.OneOp(s.cop0, s.total, Timer.SetCount(v));
    Timer.OneOp(s.cop0, s.total, Timer.SetCompare(v));
    if !IsTlbRegister(idx) { WriteTimer(s.cop0, idx, if is32 then v else value, is32, s.total / 2); }
    hide Low32, Write, WriteCount, Timer.Run, IsTlbRegister;
  }

  lemma MoveTimer(s: Cpu, raw: U32)
    requires CopId(raw) == 0 && (var id := Decode(raw); IsMoveFrom(id) || IsMoveTo(id) || id.KCfc? || id.KCtc?)
    ensures SameTimer(ExecMove(s, Decode(raw), raw).core.cop0, After(s.core, ExecOps(s, raw)))
  {
    hide Decode, ExecMoveFrom, ExecMoveTo, SetReg, Rd, Rt, Low32, CopId;
    var id := Decode(raw);
    MoveFromTimer(s, Is32BitMove(id), Rd(raw), Rt(raw));
    MoveToTimer(s.core, Is32BitMove(id), Rd(raw), s.data.gpr[Rt(raw)]);
  }

  lemma NoMoveNoOps(s: Cpu, raw: U32)
    requires !IsCopInst(Decode(raw)) || CopId(raw) != 0 || Decode(raw).KCop?
    ensures After(s.core, ExecOps(s, raw)) == s.core.cop0
  {
    hide Decode, CopId, Rd, Rt, Low32;
    var id := Decode(raw);
    if IsMoveFrom(id) || IsMoveTo(id) { Parting.MoveIsCop(id); }
  }

  lemma CopTimer(env: Env, s: Cpu, raw: U32)
    requires IsCopInst(Decode(raw))
    ensures SameTimer(ExecCop(env, s, Decode(raw), raw).core.cop0, After(s.core, ExecOps(s, raw)))
  {
    hide Decode, ExecMove, ExecCommand, CopId, TriggerException, IsCopInst, After, ExecOps;
    CommandKeepsTimer(s.core, raw);
    TriggerKeepsTimer(env, s.core.(copCause := CopId(raw)), CopUnusable);
    if CopId(raw) == 0 && !Decode(raw).KCop? {
      NoCop0Memory(Decode(raw), raw);
      MoveTimer(s, raw);
    } else {
      NoMoveNoOps(s, raw);
    }
  }

  /** An instruction does to the timer exactly what its operations do. */
  lemma ExecTimer(env: Env, s: Cpu, raw: U32)
    ensures SameTimer(Exec(env, s, raw).core.cop0, After(s.core, ExecOps(s, raw)))
  {
    hide Decode, BranchCore, JumpCore, ExecCop, CommitCore, TriggerException, Compute, HasDelaySlot, IsCopInst;
    hide BranchTaken, LinkForJump, CopId, IsLinkingBranch, After, ExecOps;
    var id := Decode(raw);
    if IsCopInst(id) {
      Parting.CopIsNothingElse(id);
      CopTimer(env, s, raw);
    } else {
      NoMoveNoOps(s, raw);
      if IsNoOp(id) {
      } else if IsCondBranch(id) {
        BranchKeepsTimer(env, s.core, id, raw, BranchTaken(id, raw, s.data.gpr, CopFlag(s.core, CopId(raw))));
      } else if HasDelaySlot(id) {
        JumpKeepsTimer(env, s.core, id, raw, s.data.gpr[Rs(raw)]);
      } else if id.KSyscall? || id.KBreak? {
        TriggerKeepsTimer(env, s.core, if id.KSyscall? then Syscall else Breakpoint);
      } else {
        CommitKeepsTimer(env, s.core, Compute(env.tlb, env.config.strict, raw, s.data));
      }
    }
  }

  // ---------------------------------------------------------------- what a run does to the timer

  function Passed(from: nat, to: nat): nat { if from <= to then to - from else 0 }

  /** An instruction moves Count or Compare, then its cost passes; a poll checks; the world lets time pass. */
  function ActOps(env: Env, s: Cpu, a: Action): seq<Timer.TimerOp> {
    match a
    case Execute =>
      var word := FetchWord(env, s.core.pc);
      if s.core.status != Running || word.None? then []
      else ExecOps(s, word.value) + [Timer.Advance(Passed(s.core.total, Step(env, s).core.total))]
    case PollNow => if Reaches(env, s.core) then [Timer.Check] else []
    case World(_, _, n) => [Timer.Advance(n)]
  }

  /** The poll gets as far as the timer: it does not panic before. */
  predicate Reaches(env: Env, s: Core) {
    s.status == Running && CheckInterrupt(env, s).status == Running
  }

  function RunOps(env: Env, s: Cpu, acts: seq<Action>): seq<Timer.TimerOp>
    decreases |acts|
  {
    if acts == [] then []
    else
      var before := acts[..|acts| - 1];
      RunOps(env, s, before) + ActOps(env, ActAll(env, s, before), acts[|acts| - 1])
  }

  /** Whether the poll finds that Count has met Compare, and latches the timer's line. */
  predicate Latches(env: Env, s: Core) {
    TimerRegs(CheckInterrupt(env, s)).1
  }

  /** What the polls of the run find, in order. */
  function PollAnswers(env: Env, s: Cpu, acts: seq<Action>): seq<bool>
    decreases |acts|
  {
    if acts == [] then []
    else
      var before := acts[..|acts| - 1];
      var q := ActAll(env, s, before).core;
      PollAnswers(env, s, before)
      + if acts[|acts| - 1].PollNow? && Reaches(env, q) then [Latches(env, q)] else []
  }

  /** The instants at which they look. */
  function PollTimes(env: Env, s: Cpu, acts: seq<Action>): seq<nat>
    decreases |acts|
  {
    if acts == [] then []
    else
      var before := acts[..|acts| - 1];
      var q := ActAll(env, s, before).core;
      PollTimes(env, s, before) + if acts[|acts| - 1].PollNow? && Reaches(env, q) then [q.total / 2] else []
  }

  /** r has the timer and the clock of s after the operations. */
  predicate TimerMoves(s: Core, r: Core, ops: seq<Timer.TimerOp>) {
    SameTimer(r.cop0, Timer.Run(s.cop0, s.total, ops).0) && r.total == Timer.Run(s.cop0, s.total, ops).1
  }

  lemma ApplyRespects(x: Cop0Regs, y: Cop0Regs, total: nat, op: Timer.TimerOp)
    requires SameTimer(x, y)
    ensures SameTimer(Timer.Apply(x, total, op).0, Timer.Apply(y, total, op).0)
    ensures Timer.Apply(x, total, op).1 == Timer.Apply(y, total, op).1
  {
    CheckRespects(x, y, total / 2);
    hide CheckCompare;
  }

  lemma CheckRespects(x: Cop0Regs, y: Cop0Regs, now: nat)
    requires SameTimer(x, y)
    ensures SameTimer(CheckCompare(x, now).0, CheckCompare(y, now).0)
    ensures CheckCompare(x, now).1 == CheckCompare(y, now).1
  {
    hide Crossed;
  }

  lemma {:induction false} RunRespects(x: Cop0Regs, y: Cop0Regs, total: nat, ops: seq<Timer.TimerOp>)
    requires SameTimer(x, y)
    ensures SameTimer(Timer.Run(x, total, ops).0, Timer.Run(y, total, ops).0)
    ensures Timer.Run(x, total, ops).1 == Timer.Run(y, total, ops).1
    ensures Timer.Answers(x, total, ops) == Timer.Answers(y, total, ops)
    ensures Timer.CheckTimes(x, total, ops) == Timer.CheckTimes(y, total, ops)
    decreases |ops|
  {
    hide SameTimer, Timer.Apply, CheckCompare;
    if ops != [] {
      ApplyRespects(x, y, total, ops[0]);
      CheckRespects(x, y, total / 2);
      var (x', t) := Timer.Apply(x, total, ops[0]);
      RunRespects(x', Timer.Apply(y, total, ops[0]).0, t, ops[1..]);
    }
  }

  lemma ExecOpsTakeNoTime(s: Cpu, raw: U32)
    ensures Timer.Run(s.core.cop0, s.core.total, ExecOps(s, raw)).1 == s.core.total
    ensures |ExecOps(s, raw)| <= 1 && (forall op :: op in ExecOps(s, raw) ==> !op.Check?)
  {
    hide Decode, Low32, CopId, Rd, Rt;
    var v := Low32(s.data.gpr[Rt(raw)]);
    Timer.OneOp(s.core.cop0, s.core.total, Timer.GetCount);
    Timer.OneOp(s.core.cop0, s.core.total, Timer.SetCount(v));
    Timer.OneOp(s.core.cop0, s.core.total, Timer.SetCompare(v));
  }

  lemma StepMoves(env: Env, s: Cpu)
    ensures TimerMoves(s.core, Step(env, s).core, ActOps(env, s, Execute))
  {
    hide FetchWord, Exec, ExecOps, Prepare, Retire, Spins, Timer.Run;
    Timer.OneOp(s.core.cop0, s.core.total, Timer.Check);
    var word := FetchWord(env, s.core.pc);
    if s.core.status == Running && word.Some? {
      var p := s.(core := Prepare(s.core));
      var r := Exec(env, p, word.value).core;
      ExecTimer(env, p, word.value);
      ExecTime(env, p, word.value);
      PreparedOps(s, word.value);
      ExecOpsTakeNoTime(s, word.value);
      RetireMoves(r, env.config.cpi);
      var ops, gap := ExecOps(s, word.value), Timer.Advance(Passed(s.core.total, Step(env, s).core.total));
      Timer.RunAppend(s.core.cop0, s.core.total, ops, [gap]);
      Timer.OneOp(After(s.core, ops), s.core.total, gap);
    }
  }

  lemma PreparedOps(s: Cpu, raw: U32)
    ensures var p := s.(core := Prepare(s.core));
            ExecOps(p, raw) == ExecOps(s, raw) && p.core.cop0 == s.core.cop0 && p.core.total == s.core.total
  {
    hide Decode, CopId, Rd, Rt, Low32;
  }

  lemma RetireMoves(r: Core, n: nat)
    ensures Retire(r, n).cop0 == r.cop0 && r.total <= Retire(r, n).total
  {
  }

  lemma CheckKeepsTimer(env: Env, s: Core)
    ensures var r := CheckInterrupt(env, s);
            KeepsTimer(s, r) && r.total == s.total && r.compareIntr == s.compareIntr
  {
    hide InterruptEnabled, InterruptPending, TriggerException;
    TriggerKeepsTimer(env, s, Interrupt);
    TriggerTakesNoTime(env, s, Interrupt);
    TriggerKeepsLine(env, s, Interrupt);
  }

  lemma TriggerKeepsLine(env: Env, s: Core, cause: Cause)
    ensures TriggerException(env, s, cause).compareIntr == s.compareIntr
  {
    hide FetchWord, EnterException, DoesInstHaveDelaySlot;
  }

  lemma TimerPart(s: Core)
    ensures var (c, crossed) := TimerRegs(s);
            SameTimer(c, CheckCompare(s.cop0, s.total / 2).0) && crossed == CheckCompare(s.cop0, s.total / 2).1
  {
    CheckRespects(s.cop0.(cause := RefreshPending(s)), s.cop0, s.total / 2);
    hide CheckCompare, RefreshPending;
  }

  /** A poll that reaches the timer is one check, and latches the timer's line exactly when the check says so. */
  lemma PollChecks(env: Env, s: Core)
    requires Reaches(env, s)
    ensures var r, (c, crossed) := Poll(env, s), CheckCompare(s.cop0, s.total / 2);
            && SameTimer(r.cop0, c) && r.total == s.total && Latches(env, s) == crossed
            && r.compareIntr == (s.compareIntr || crossed)
  {
    hide CheckInterrupt, TimerRegs, PollTimer, CheckCompare;
    var s1 := CheckInterrupt(env, s);
    CheckKeepsTimer(env, s);
    PollTimerIs(env, s1);
    TimerPart(s1);
    CheckRespects(s1.cop0, s.cop0, s.total / 2);
    CheckKeepsTimer(env, TimerLatched(s1));
  }

  lemma PollMoves(env: Env, s: Cpu)
    ensures TimerMoves(s.core, Poll(env, s.core), ActOps(env, s, PollNow))
  {
    hide CheckInterrupt, PollTimer, CheckCompare;
    Timer.OneOp(s.core.cop0, s.core.total, Timer.Check);
    if Reaches(env, s.core) {
      PollChecks(env, s.core);
    } else {
      CheckKeepsTimer(env, s.core);
    }
  }

  lemma ActMoves(env: Env, s: Cpu, a: Action)
    ensures TimerMoves(s.core, Act(env, s, a).core, ActOps(env, s, a))
  {
    match a
    case Execute => StepMoves(env, s);
    case PollNow => PollMoves(env, s);
    case World(_, _, n) => Timer.OneOp(s.core.cop0, s.core.total, Timer.Advance(n));
  }

  lemma ActAnswers(env: Env, s: Cpu, a: Action)
    ensures var ops := ActOps(env, s, a);
            var polled := a.PollNow? && Reaches(env, s.core);
            && Timer.Answers(s.core.cop0, s.core.total, ops) == (if polled then [Latches(env, s.core)] else [])
            && Timer.CheckTimes(s.core.cop0, s.core.total, ops) == (if polled then [s.core.total / 2] else [])
  {
    hide Timer.Answers, Timer.CheckTimes, CheckCompare, CheckInterrupt, ExecOps, Latches, Step, FetchWord;
    var c, total := s.core.cop0, s.core.total;
    if a.PollNow? && Reaches(env, s.core) {
      Timer.OneAnswer(c, total);
      PollChecks(env, s.core);
    } else {
      var word := FetchWord(env, s.core.pc);
      if word.Some? { ExecOpsTakeNoTime(s, word.value); }
      Timer.NoChecks(c, total, ActOps(env, s, a));
    }
  }

  lemma NothingMoves(s: Core)
    ensures TimerMoves(s, s, [])
    ensures Timer.Answers(s.cop0, s.total, []) == [] && Timer.CheckTimes(s.cop0, s.total, []) == []
  {
  }

  lemma Compose(s: Core, q: Core, r: Core, a: seq<Timer.TimerOp>, b: seq<Timer.TimerOp>)
    requires TimerMoves(s, q, a) && TimerMoves(q, r, b)
    ensures TimerMoves(s, r, a + b)
    ensures Timer.Answers(s.cop0, s.total, a + b)
            == Timer.Answers(s.cop0, s.total, a) + Timer.Answers(q.cop0, q.total, b)
    ensures Timer.CheckTimes(s.cop0, s.total, a + b)
            == Timer.CheckTimes(s.cop0, s.total, a) + Timer.CheckTimes(q.cop0, q.total, b)
  {
    hide Timer.Run, Timer.Answers, Timer.CheckTimes;
    Timer.RunAppend(s.cop0, s.total, a, b);
    Timer.AnswersAppend(s.cop0, s.total, a, b);
    RunRespects(q.cop0, After(s, a), q.total, b);
  }

  /**
   * Every run of the CPU is a run of timer operations: of its moves to and from Count and Compare, the cost of
   * its instructions, and one check for each poll.
   */
  lemma {:induction false} RunIsTimerRun(env: Env, s: Cpu, acts: seq<Action>)
    ensures TimerMoves(s.core, ActAll(env, s, acts).core, RunOps(env, s, acts))
    ensures PollAnswers(env, s, acts) == Timer.Answers(s.core.cop0, s.core.total, RunOps(env, s, acts))
    ensures PollTimes(env, s, acts) == Timer.CheckTimes(s.core.cop0, s.core.total, RunOps(env, s, acts))
    decreases |acts|
  {
    hide Act, ActOps, TimerMoves, Reaches, Latches, Timer.Answers, Timer.CheckTimes;
    if acts == [] {
      NothingMoves(s.core);
    } else {
      var before, a := acts[..|acts| - 1], acts[|acts| - 1];
      var q := ActAll(env, s, before);
      RunIsTimerRun(env, s, before);
      ActMoves(env, q, a);
      ActAnswers(env, q, a);
      Compose(s.core, q.core, Act(env, q, a).core, RunOps(env, s, before), ActOps(env, q, a));
    }
  }

  /** From a reset on, no run of the CPU records an instant in its future, so reads of Count repair nothing. */
  lemma CpuIsCausal(env: Env, s: Cpu, acts: seq<Action>)
    requires Timer.Causal(s.core.cop0, s.core.total)
    ensures var r := ActAll(env, s, acts).core;
            && Timer.Causal(r.cop0, r.total) && s.core.total <= r.total && ReadCount(r.cop0, r.total / 2).0 == r.cop0
  {
    hide ActAll, RunOps, Timer.Run;
    RunIsTimerRun(env, s, acts);
    Timer.RunsAreCausal(s.core.cop0, s.core.total, RunOps(env, s, acts));
  }

  /**
   * While the program writes neither Count nor Compare, the i-th poll of its run latches the timer's line exactly
   * when Count has met Compare since the poll before, for polls at most one revolution of Count apart.
   */
  lemma PollsReportExactly(env: Env, s: Cpu, acts: seq<Action>, i: nat)
    requires Timer.Causal(s.core.cop0, s.core.total) && !s.core.cop0.suppress && Timer.Quiet(RunOps(env, s, acts))
    requires Timer.Paced(s.core.cop0, PollTimes(env, s, acts)) && i < |PollTimes(env, s, acts)|
    ensures |PollAnswers(env, s, acts)| == |PollTimes(env, s, acts)|
    ensures var c, times := s.core.cop0, PollTimes(env, s, acts);
            PollAnswers(env, s, acts)[i] <==> Timer.MatchIn(c, Timer.Before(c, times, i), times[i])
  {
    hide *;
    RunIsTimerRun(env, s, acts);
    Timer.QuietRunReports(s.core.cop0, s.core.total, RunOps(env, s, acts));
    Timer.ReportsAreExact(s.core.cop0, PollTimes(env, s, acts), i);
  }
}
