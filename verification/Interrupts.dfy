/**
 * Interrupts are precise: over whole runs the delay-slot flag is, a poll takes at most one interrupt, and an
 * interrupt with its handler and ERET is invisible to a program that does not look.
 */
module Interrupts {
  import opened Words
  import opened Decoder
  import opened Cop0
  import opened Handlers
  import opened Machine
  import opened Masking
  import opened Precision

  // ---------------------------------------------------------------- polls

  predicate Takes(s: Core) { InterruptEnabled(s) && InterruptPending(s) }

  /** Where an interrupted program resumes: at the branch when its delay slot is pending. */
  function ResumeAt(s: Core): U64 { if s.hasBd then Wrap64(s.pc - 4) else s.pc }

  function Unwound(s: Core): Core {
    s.(pc := ResumeAt(s), hasBd := false)
  }

  /** What ERET makes of a state inside an exception handler. */
  function Returning(s: Core): Core {
    s.(pc := s.cop0.epc, cop0 := s.cop0.(sr := ClearExl(s.cop0.sr)))
  }

  /** An exception taken at a boundary does not panic, and saves the resume address unless EXL is set. */
  lemma TakenException(env: Env, s: Core, cause: Cause)
    requires s.status == Running && (s.hasBd ==> SlotHolder(env, s.pc))
    ensures var t := TriggerException(env, s, cause);
            && t.status == Running && !t.hasBd && t.pc == VECTOR && t.cop0.sr == SetExl(s.cop0.sr)
            && t.cop0.epc == (if Exl(s.cop0.sr) then s.cop0.epc else ResumeAt(s))
  {
    hide FetchWord, Wrap64, NewCause, SetExl, Exl, DoesInstHaveDelaySlot;
  }

  lemma ExlStaysSet(sr: U32)
    ensures Exl(SetExl(sr)) && (Ie(sr) && !Exl(sr) && !Erl(sr) ==> !Erl(SetExl(sr)) && ClearExl(SetExl(sr)) == sr)
  {
  }

  /** Inside a handler that ERET leaves for the interrupted program. */
  predicate InHandler(s: Core, r: Core) {
    && r.status == Running && !r.hasBd && r.pc == VECTOR && Exl(r.cop0.sr) && !Erl(r.cop0.sr)
    && r.cop0.epc == ResumeAt(s) && Boundary(Returning(r), false) == Boundary(Unwound(s), false)
  }

  lemma TakenInterrupt(env: Env, s: Core)
    requires s.status == Running && (s.hasBd ==> SlotHolder(env, s.pc)) && InterruptEnabled(s)
    ensures InHandler(s, TriggerException(env, s, Interrupt))
  {
    hide FetchWord, Wrap64, NewCause, SetExl, ClearExl, Exl, Erl, Ie, DoesInstHaveDelaySlot, ResumeAt, SlotHolder;
    TakenException(env, s, Interrupt);
    ExlStaysSet(s.cop0.sr);
    TakenFields(env, s, Interrupt);
    hide TriggerException;
  }

  /** An exception changes nothing else a program can see. */
  lemma TakenFields(env: Env, s: Core, cause: Cause)
    requires TriggerException(env, s, cause).status == Running
    ensures var t := TriggerException(env, s, cause);
            t == s.(cop0 := s.cop0.(cause := t.cop0.cause, epc := t.cop0.epc, sr := t.cop0.sr), pc := t.pc,
                    nextPc := t.nextPc, hasBd := t.hasBd)
  {
    hide FetchWord, Wrap64, NewCause, SetExl, Exl, DoesInstHaveDelaySlot;
  }

  /** The part of CheckCompare that precedes its interrupt check changes no architectural state. */
  lemma TimerUpdate(s: Core, c: Cop0Regs, intr: bool)
    requires c == CheckCompare(s.cop0.(cause := RefreshPending(s)), s.total / 2).0
    ensures Boundary(s.(cop0 := c, compareIntr := intr), true) == Boundary(s, true)
    ensures c.sr == s.cop0.sr && c.epc == s.cop0.epc
  {
    hide RefreshPending, Crossed;
  }

  /** A check for interrupts changes nothing a program can see, or it takes one. */
  predicate Checked(s: Core, r: Core) {
    Boundary(r, true) == Boundary(s, true) || (InterruptEnabled(s) && InHandler(s, r))
  }

  lemma UnwoundSame(s: Core, s': Core)
    requires Boundary(s, true) == Boundary(s', true)
    ensures Boundary(Unwound(s), false) == Boundary(Unwound(s'), false) && ResumeAt(s) == ResumeAt(s')
  {
    hide Wrap64;
  }

  lemma ReturningSame(r: Core, r': Core)
    requires Boundary(r, true) == Boundary(r', true)
    ensures Boundary(Returning(r), false) == Boundary(Returning(r'), false)
  {
    hide ClearExl;
  }

  /** Checked composes with invisible changes on either side. */
  lemma CheckedCompose(s: Core, s1: Core, r: Core)
    requires (Boundary(s1, true) == Boundary(s, true) && Checked(s1, r)) ||
            (Checked(s, s1) && Boundary(r, true) == Boundary(s1, true))
    ensures Checked(s, r)
  {
    hide Boundary, Unwound, Returning, Exl, Erl, Ie, ResumeAt;
    if Boundary(s1, true) == Boundary(s, true) {
      BoundaryFields(s1, s, true);
      UnwoundSame(s1, s);
    }
    if Boundary(r, true) == Boundary(s1, true) {
      BoundaryFields(r, s1, true);
      ReturningSame(r, s1);
    }
  }

  lemma CheckCases(env: Env, s: Core)
    requires s.status == Running && (s.hasBd ==> SlotHolder(env, s.pc))
    ensures Checked(s, CheckInterrupt(env, s))
    ensures Exl(s.cop0.sr) ==> CheckInterrupt(env, s) == s
  {
    hide TriggerException, InterruptPending, Exl, SlotHolder, Boundary, InHandler;
    if Takes(s) { TakenInterrupt(env, s); }
  }

  lemma TimerCases(env: Env, s: Core)
    requires s.status == Running && (s.hasBd ==> SlotHolder(env, s.pc))
    ensures Checked(s, PollTimer(env, s))
    ensures Exl(s.cop0.sr) ==> Boundary(PollTimer(env, s), true) == Boundary(s, true)
  {
    hide CheckInterrupt, RefreshPending, CheckCompare, Exl, SlotHolder, Boundary, InterruptPending, InHandler;
    PollTimerIs(env, s);
    var (c, crossed) := TimerRegs(s);
    var s1 := s.(cop0 := c, compareIntr := true);
    TimerUpdate(s, c, true);
    TimerUpdate(s, c, s.compareIntr);
    BoundaryFields(s1, s, true);
    assert s.(cop0 := c, compareIntr := s.compareIntr) == s.(cop0 := c);
    if crossed {
      CheckCases(env, s1);
      CheckedCompose(s, s1, CheckInterrupt(env, s1));
    }
  }

  /**
   * No nested interrupt: a poll takes at most one, saving the address at which to resume the interrupted
   * program, and takes none while EXL is set. It never panics when the flag is precise.
   */
  lemma AtMostOneInterrupt(env: Env, s: Core)
    requires s.status == Running && (s.hasBd ==> SlotHolder(env, s.pc))
    ensures var r := Poll(env, s); Checked(s, r) && r.status == Running
    ensures Exl(s.cop0.sr) ==> Boundary(Poll(env, s), true) == Boundary(s, true)
  {
    hide CheckInterrupt, PollTimer, Exl, Erl, Ie, SlotHolder, Boundary, Returning, Unwound, ResumeAt;
    CheckCases(env, s);
    var s1 := CheckInterrupt(env, s);
    if Boundary(s1, true) == Boundary(s, true) {
      BoundaryFields(s1, s, true);
    }
    TimerCases(env, s1);
    var r := PollTimer(env, s1);
    CheckedCompose(s, s1, r);
    if Boundary(r, true) == Boundary(s, true) {
      BoundaryFields(r, s, true);
    }
  }

  /** The registers of the timer's own check, with its line latched. */
  function TimerLatched(s: Core): Core { s.(cop0 := TimerRegs(s).0, compareIntr := true) }

  /** A poll of s takes an interrupt, at once or because the timer crosses Compare in it. */
  predicate Taken(s: Core) {
    Takes(s) || (TimerRegs(s).1 && Takes(TimerLatched(s)))
  }

  lemma CheckPanicsExactly(env: Env, s: Core)
    requires s.status == Running
    ensures CheckInterrupt(env, s).status == Running <==> (Takes(s) && s.hasBd ==> SlotHolder(env, s.pc))
  {
    hide FetchWord, DoesInstHaveDelaySlot, EnterException, InterruptEnabled, InterruptPending, Wrap64;
  }

  /**
   * A poll panics exactly when it takes an interrupt while a branch is pending and the word at pc - 4 cannot be
   * fetched or has no delay slot ("NON BRANCH ON BD").
   */
  lemma PollPanicsExactly(env: Env, s: Core)
    requires s.status == Running
    ensures Poll(env, s).status == Running <==> (Taken(s) && s.hasBd ==> SlotHolder(env, s.pc))
  {
    hide SlotHolder, CheckInterrupt, PollTimer, Takes, TimerRegs, Checked, Exl, Boundary;
    if s.hasBd && !SlotHolder(env, s.pc) {
      CheckPanicsExactly(env, s);
      CheckPanicsExactly(env, TimerLatched(s));
      PollTimerIs(env, s);
      NotTaken(env, s);
    } else {
      AtMostOneInterrupt(env, s);
    }
  }

  lemma NotTaken(env: Env, s: Core)
    ensures !Takes(s) ==> CheckInterrupt(env, s) == s
  {
    hide InterruptEnabled, InterruptPending, TriggerException;
  }

  /**
   * After a branch in a delay slot has set the flag, a poll panics exactly when it takes an interrupt and the
   * word before the outer branch's target has no delay slot.
   */
  lemma SlotBranchPanicsExactly(env: Env, s: Cpu, raw: U32)
    requires s.core.status == Running && s.core.hasBd && FetchWord(env, s.core.pc) == Some(raw)
    requires Step(env, s).core.status == Running && Step(env, s).core.hasBd
    ensures var r := Step(env, s).core;
            Poll(env, r).status == Running <==> (Taken(r) ==> SlotHolder(env, s.core.bdDst))
  {
    hide Step, Poll, FetchWord, SlotHolder, Precise, Rebuilds, Taken;
    SlotBranchExactly(env, s, raw);
    PollPanicsExactly(env, Step(env, s).core);
  }

  // ---------------------------------------------------------------- the flag over whole runs

  /** The CPU executes, polls, or the outside world changes the interrupt line, halts it or lets time pass. */
  datatype Action = Execute | PollNow | World(irq: bool, halt: bool, elapsed: nat)

  function Act(env: Env, s: Cpu, a: Action): Cpu {
    match a
    case Execute => Step(env, s)
    case PollNow => s.(core := Poll(env, s.core))
    case World(irq, halt, n) => s.(core := s.core.(irq := irq, halt := halt, total := s.core.total + n))
  }

  function ActAll(env: Env, s: Cpu, acts: seq<Action>): Cpu
    decreases |acts|
  {
    if acts == [] then s else Act(env, ActAll(env, s, acts[..|acts| - 1]), acts[|acts| - 1])
  }

  lemma WorldIsInvisible(s: Cpu, irq: bool, halt: bool, n: nat)
    ensures Equivalent(s, s.(core := s.core.(irq := irq, halt := halt, total := s.core.total + n)), true)
  {
    hide MaskedCop0;
  }

  lemma PollPrecise(env: Env, s: Cpu)
    requires s.core.status == Running && Precise(env, s)
    ensures Precise(env, s.(core := Poll(env, s.core))) && Poll(env, s.core).status == Running
  {
    hide Poll, Boundary, Step, SlotHolder, Returning, Unwound;
    AtMostOneInterrupt(env, s.core);
    var r := s.(core := Poll(env, s.core));
    if Boundary(r.core, true) == Boundary(s.core, true) {
      PreciseRespects(env, s, r, true);
    }
  }

  lemma ActPrecise(env: Env, s: Cpu, a: Action)
    requires Precise(env, s) && (a.Execute? ==> ReplaysOrStopped(env, s))
    ensures Precise(env, Act(env, s, a))
  {
    hide Poll, Precise, NextReplays;
    if s.core.status == Running {
      match a
      case Execute => StepPrecise(env, s);
      case PollNow => PollPrecise(env, s);
      case World(irq, halt, n) =>
        WorldIsInvisible(s, irq, halt, n);
        PreciseRespects(env, s, Act(env, s, a), true);
    } else {
      StoppedAct(env, s, a);
      StoppedPrecise(env, Act(env, s, a));
    }
  }

  lemma StoppedAct(env: Env, s: Cpu, a: Action)
    requires s.core.status != Running
    ensures Act(env, s, a).core.status == s.core.status
  {
  }

  lemma StoppedPrecise(env: Env, s: Cpu)
    requires s.core.status != Running
    ensures Precise(env, s)
  {
  }

  /** Every instruction the run executes replays. */
  ghost predicate RunReplays(env: Env, s: Cpu, acts: seq<Action>) {
    forall k :: 0 <= k < |acts| && acts[k].Execute? ==> ReplaysOrStopped(env, ActAll(env, s, acts[..k]))
  }

  predicate ReplaysOrStopped(env: Env, s: Cpu) {
    s.core.status == Running ==> NextReplays(env, s)
  }

  lemma PrefixReplays(env: Env, s: Cpu, acts: seq<Action>, n: nat)
    requires RunReplays(env, s, acts) && n <= |acts|
    ensures RunReplays(env, s, acts[..n])
  {
    hide ReplaysOrStopped, ActAll;
    var before := acts[..n];
    forall k | 0 <= k < n && before[k].Execute? ensures ReplaysOrStopped(env, ActAll(env, s, before[..k])) {
      assert before[..k] == acts[..k] && acts[k].Execute?;
    }
  }

  /**
   * In every run whose instructions replay, a pending branch is the instruction at pc - 4 and replaying it
   * rebuilds the state; so no poll ends in the "NON BRANCH ON BD" panic.
   */
  lemma {:induction false} FlagIsAlwaysPrecise(env: Env, s: Cpu, acts: seq<Action>)
    requires Precise(env, s) && RunReplays(env, s, acts)
    ensures var r := ActAll(env, s, acts);
            Precise(env, r) && (r.core.status == Running ==> Poll(env, r.core).status == Running)
    decreases |acts|
  {
    hide Act, Poll, ReplaysOrStopped, NextReplays, Precise;
    if acts != [] {
      PrefixReplays(env, s, acts, |acts| - 1);
      assert acts[|acts| - 1].Execute? ==> ReplaysOrStopped(env, ActAll(env, s, acts[..|acts| - 1]));
      FlagIsAlwaysPrecise(env, s, acts[..|acts| - 1]);
      ActPrecise(env, ActAll(env, s, acts[..|acts| - 1]), acts[|acts| - 1]);
    }
    var r := ActAll(env, s, acts);
    if r.core.status == Running { PollPrecise(env, r); }
  }

  ghost predicate AlwaysPrecise(env: Env, s: Cpu, acts: seq<Action>) {
    forall k :: 0 <= k <= |acts| ==> Precise(env, ActAll(env, s, acts[..k]))
  }

  /** The flag is precise throughout a run exactly when each of its instructions replays. */
  lemma FlagIsPreciseExactly(env: Env, s: Cpu, acts: seq<Action>)
    requires Precise(env, s)
    ensures AlwaysPrecise(env, s, acts) <==> RunReplays(env, s, acts)
  {
    hide Precise, NextReplays, Act;
    if RunReplays(env, s, acts) {
      forall k | 0 <= k <= |acts| ensures Precise(env, ActAll(env, s, acts[..k])) {
        PrefixReplays(env, s, acts, k);
        FlagIsAlwaysPrecise(env, s, acts[..k]);
      }
    }
    if AlwaysPrecise(env, s, acts) {
      forall k | 0 <= k < |acts| && acts[k].Execute? ensures ReplaysOrStopped(env, ActAll(env, s, acts[..k])) {
        assert Precise(env, ActAll(env, s, acts[..k + 1]));
        ExecutedAt(env, s, acts, k);
        var q := ActAll(env, s, acts[..k]);
        if q.core.status == Running { StepPreciseExactly(env, q); }
      }
    }
  }

  lemma ExecutedAt(env: Env, s: Cpu, acts: seq<Action>, k: nat)
    requires k < |acts| && acts[k].Execute?
    ensures ActAll(env, s, acts[..k + 1]) == Step(env, ActAll(env, s, acts[..k]))
  {
    hide Step;
    assert acts[..k + 1][..k] == acts[..k];
  }

  /** Every run of a replayable program is such a run. */
  lemma {:induction false} ProgramRunReplays(env: Env, s: Cpu, acts: seq<Action>)
    requires env.tlb.Normal? && ReplayableProgram(env) && Precise(env, s)
    ensures RunReplays(env, s, acts)
    decreases |acts|
  {
    hide Act, NextReplays, Precise, ReplayableProgram;
    forall k | 0 <= k < |acts| && acts[k].Execute? ensures ReplaysOrStopped(env, ActAll(env, s, acts[..k])) {
      ProgramRunReplays(env, s, acts[..k]);
      FlagIsAlwaysPrecise(env, s, acts[..k]);
      AnyProgramReplays(env, ActAll(env, s, acts[..k]));
    }
  }

  lemma AnyProgramReplays(env: Env, s: Cpu)
    requires env.tlb.Normal? && ReplayableProgram(env) && Precise(env, s)
    ensures ReplaysOrStopped(env, s)
  {
    hide NextReplays, Precise, ReplayableProgram;
    if s.core.status == Running { ProgramReplays(env, s); }
  }

  // ---------------------------------------------------------------- interrupt transparency

  /**
   * The handler entered at t ends at h, about to execute ERET: registers, memory and Cop0 are as they were,
   * and only llbit, Cause and the clocks may differ.
   */
  predicate HandlerEnd(env: Env, t: Cpu, h: Cpu) {
    && h.data == t.data && Boundary(h.core.(pc := t.core.pc), true) == Boundary(t.core, true)
    && FetchWord(env, h.core.pc).Some? && IsEret(FetchWord(env, h.core.pc).value)
  }

  /** ERET and, when the interrupt fell between a branch and its slot, the branch again. */
  function Resumed(env: Env, q: Cpu, h: Cpu): Cpu {
    Steps(env, h, if q.core.hasBd then 2 else 1)
  }

  /** A poll of q takes an interrupt, its handler runs, and r is where the program resumes. */
  ghost predicate Episode(env: Env, q: Cpu, r: Cpu) {
    && q.core.status == Running
    && InHandler(q.core, Poll(env, q.core))
    && exists h: Cpu :: HandlerEnd(env, q.(core := Poll(env, q.core)), h) && r == Resumed(env, q, h)
  }

  lemma EretIs(env: Env, h: Cpu, raw: U32)
    requires IsEret(raw)
    ensures Exec(env, h, raw) == h.(core := ExecCommand(h.core, raw))
  {
    hide ExecCommand, Decode, CopId;
  }

  lemma EretReturns(env: Env, h: Cpu)
    requires h.core.status == Running && !h.core.hasBd && !Erl(h.core.cop0.sr)
    requires FetchWord(env, h.core.pc).Some? && IsEret(FetchWord(env, h.core.pc).value)
    ensures var r := Step(env, h);
            && r.data == h.data && r.core.status == Running && !r.core.hasBd
            && Boundary(r.core, false) == Boundary(Returning(h.core), false)
  {
    var raw := FetchWord(env, h.core.pc).value;
    StepIs(env, h, raw);
    EretIs(env, h.(core := Prepare(h.core)), raw);
    hide Step, Exec, FetchWord, ClearExl, Erl, Wrap64, IsEret, Decode;
    assert raw % 64 == 0x18 by { assert IsEret(raw); EretCommand(raw); }
  }

  lemma EretCommand(raw: U32)
    requires IsEret(raw)
    ensures raw % 64 == 0x18
  {
    hide Decode;
  }

  /** Returning from the handler of an interrupt of q leads back to q's resume address. */
  lemma ReturnUnwinds(env: Env, q: Cpu, t: Cpu, h: Cpu)
    requires q.core.status == Running && InHandler(q.core, t.core) && t.data == q.data && HandlerEnd(env, t, h)
    ensures Equivalent(Step(env, h), q.(core := Unwound(q.core)), false)
    ensures h.core.status == Running && !h.core.hasBd
  {
    var h' := h.core.(pc := t.core.pc);
    BoundaryFields(h', t.core, true);
    ReturningSame(h', t.core);
    EretReturns(env, h);
    hide Step, FetchWord, Boundary, IsEret, Erl, Exl, Unwound, ClearExl;
    assert Returning(h') == Returning(h.core);
    BoundaryStatus(Unwound(q.core), Step(env, h).core);
  }

  lemma BoundaryStatus(a: Core, b: Core)
    requires Boundary(a, false) == Boundary(b, false)
    ensures a.status == b.status
  {
  }

  lemma TwoSteps(env: Env, h: Cpu)
    ensures Steps(env, h, 1) == Step(env, h) && Steps(env, h, 2) == Step(env, Step(env, h))
  {
    hide Step;
    assert Steps(env, Step(env, h), 0) == Step(env, h);
    assert Steps(env, Step(env, h), 1) == Steps(env, Step(env, Step(env, h)), 0);
  }

  lemma BranchAtResume(env: Env, q: Cpu)
    requires q.core.status == Running && q.core.hasBd && SlotHolder(env, q.core.pc)
    ensures !NextObserves(env, Rewound(q), false) && Rewound(q).core == Unwound(q.core)
  {
    hide FetchWord, Observes, DoesInstHaveDelaySlot, Wrap64;
    var b := Wrap64(q.core.pc - 4);
    BranchesDoNotObserve(Rewound(q).core, FetchWord(env, b).value, false);
  }

  lemma ResumedIsEquivalent(env: Env, q: Cpu, h: Cpu)
    requires q.core.status == Running && Precise(env, q)
    requires InHandler(q.core, Poll(env, q.core)) && HandlerEnd(env, q.(core := Poll(env, q.core)), h)
    ensures Equivalent(Resumed(env, q, h), q, false)
  {
    hide Poll, Step, HandlerEnd, InHandler, NextKeep, NextObserves, SlotHolder, Boundary;
    TwoSteps(env, h);
    ReturnUnwinds(env, q, q.(core := Poll(env, q.core)), h);
    if q.core.hasBd {
      BranchAtResume(env, q);
      assert Rewound(q) == q.(core := Unwound(q.core));
      var h1, b := Step(env, h), Rewound(q);
      Flip(h1, b, false);
      StepEquivalent(env, b, h1, false);
      AnyKeep(Step(env, b), Step(env, h1), NextKeep(env, b, false));
      Flip(Step(env, b), Step(env, h1), false);
      AnyKeep(Step(env, b), q, true);
      EquivalentTrans(Step(env, h1), Step(env, b), q, false, false);
    } else {
      assert Unwound(q.core) == q.core;
    }
  }

  lemma StoppedStep(env: Env, r: Cpu)
    requires r.core.status != Running
    ensures Step(env, r) == r
  {
  }

  /** One interrupt, wherever it falls, is invisible up to llbit, Cause, EPC and the clocks. */
  lemma EpisodeIsTransparent(env: Env, q: Cpu, r: Cpu)
    requires Precise(env, q) && Episode(env, q, r)
    ensures Equivalent(q, r, false) && Precise(env, r)
  {
    hide Poll, Precise, InHandler, HandlerEnd, Resumed;
    var t := q.(core := Poll(env, q.core));
    var h: Cpu :| HandlerEnd(env, t, h) && r == Resumed(env, q, h);
    ResumedIsEquivalent(env, q, h);
    Flip(r, q, false);
    PreciseRespects(env, q, r, false);
  }

  // ---------------------------------------------------------------- any number of interrupts

  /** What happens to the interrupted CPU between two states of its run. */
  datatype Kind = Executes | Unnoticed | Interrupted

  /** Unnoticed covers polls that take nothing, changes of the lines, and the passing of time. */
  ghost predicate Happens(env: Env, kind: Kind, q: Cpu, r: Cpu) {
    match kind
    case Executes => r == Step(env, q)
    case Unnoticed => Equivalent(q, r, true)
    case Interrupted => Episode(env, q, r)
  }

  ghost predicate InterruptedRun(env: Env, qs: seq<Cpu>, kinds: seq<Kind>) {
    |qs| == |kinds| + 1 && forall i :: 0 <= i < |kinds| ==> Happens(env, kinds[i], qs[i], qs[i + 1])
  }

  /** Instructions of the program itself that the interrupted run executes. */
  function Executed(kinds: seq<Kind>): nat {
    if kinds == [] then 0 else Executed(kinds[..|kinds| - 1]) + (if kinds[|kinds| - 1].Executes? then 1 else 0)
  }

  /** Whether EPC is the same with and without the interrupts. */
  predicate EpcKnown(env: Env, s: Cpu, kinds: seq<Kind>)
    decreases |kinds|
  {
    if kinds == [] then true
    else
      var before := kinds[..|kinds| - 1];
      match kinds[|kinds| - 1]
      case Executes => NextKeep(env, Steps(env, s, Executed(before)), EpcKnown(env, s, before))
      case Unnoticed => EpcKnown(env, s, before)
      case Interrupted => false
  }

  /**
   * The program never reads Count or Cause, nor EPC after an interrupt until it is set again, and each of its
   * instructions replays.
   */
  predicate Discreet(env: Env, s: Cpu, kinds: seq<Kind>)
    decreases |kinds|
  {
    kinds == [] ||
    var before := kinds[..|kinds| - 1];
    && Discreet(env, s, before)
    && (kinds[|kinds| - 1].Executes? ==> Unseeing(env, Steps(env, s, Executed(before)), EpcKnown(env, s, before)))
  }

  predicate Unseeing(env: Env, a: Cpu, keep: bool) {
    a.core.status == Running ==> !NextObserves(env, a, keep) && NextReplays(env, a)
  }

  lemma ReplaysAlike(env: Env, a: Cpu, q: Cpu, keep: bool)
    requires Equivalent(a, q, keep) && a.core.status == Running && NextReplays(env, a)
    ensures NextReplays(env, q)
  {
    hide FetchWord, Destination, Linked, Rebuilds, LinkKept, Boundary, Wrap64;
    BoundaryFields(a.core, q.core, keep);
    var word := FetchWord(env, a.core.pc);
    if word.Some? {
      DestinationSame(env, a.data, a.core, q.core, word.value);
      LinkKeptSame(a, q, word.value);
      var t := Destination(env, a.data, a.core, word.value);
      if t.Some? && a.core.hasBd {
        var d := Linked(a.data, a.core.pc, word.value);
        RebuildsSame(env, d, a.core, q.core, Wrap64(a.core.bdDst - 4), t.value);
      }
    }
  }

  lemma LinkKeptSame(a: Cpu, q: Cpu, raw: U32)
    requires a.data == q.data && a.core.pc == q.core.pc
    ensures LinkKept(a, raw) == LinkKept(q, raw)
  {
    hide LinksItsSource, LinkValue, TakenOn, Decode, Rs;
  }

  lemma HappensAlike(env: Env, kind: Kind, a: Cpu, q: Cpu, r: Cpu, keep: bool)
    requires Precise(env, q) && Equivalent(a, q, keep)
    requires Happens(env, kind, q, r) && (kind.Executes? ==> Unseeing(env, a, keep))
    ensures Precise(env, r)
    ensures match kind
            case Executes => Equivalent(Step(env, a), r, NextKeep(env, a, keep))
            case Unnoticed => Equivalent(a, r, keep)
            case Interrupted => Equivalent(a, r, false)
  {
    hide Precise, Step, Boundary, NextKeep, NextObserves, Episode, NextReplays;
    match kind
    case Executes =>
      if a.core.status == Running {
        StepEquivalent(env, a, q, keep);
        ReplaysAlike(env, a, q, keep);
        StepPrecise(env, q);
      } else {
        StoppedStep(env, a);
        StoppedStep(env, q);
      }
    case Unnoticed =>
      PreciseRespects(env, q, r, true);
      Flip(q, r, true);
      EquivalentTrans(r, q, a, true, keep) by { Flip(a, q, keep); }
    case Interrupted =>
      EpisodeIsTransparent(env, q, r);
      AnyKeep(a, q, keep);
      EquivalentTrans(a, q, r, false, false);
  }

  /**
   * Interrupt transparency: after any run with any number of interrupts at any boundaries, the CPU is where
   * it would be without them, up to llbit, Cause, EPC and the clocks, if the program is discreet.
   */
  lemma {:induction false} InterruptsAreTransparent(env: Env, s: Cpu, qs: seq<Cpu>, kinds: seq<Kind>)
    requires Precise(env, s) && InterruptedRun(env, qs, kinds) && qs[0] == s && Discreet(env, s, kinds)
    ensures Equivalent(Steps(env, s, Executed(kinds)), qs[|kinds|], EpcKnown(env, s, kinds))
    ensures Precise(env, qs[|kinds|])
    decreases |kinds|
  {
    hide Happens, Precise, Step, Boundary, NextKeep, Unseeing;
    if kinds != [] {
      var n := |kinds| - 1;
      var before := kinds[..n];
      assert InterruptedRun(env, qs[..n + 1], before) by {
        forall i | 0 <= i < n ensures Happens(env, before[i], qs[..n + 1][i], qs[..n + 1][i + 1]) {
          assert Happens(env, kinds[i], qs[i], qs[i + 1]);
        }
      }
      InterruptsAreTransparent(env, s, qs[..n + 1], before);
      var a := Steps(env, s, Executed(before));
      HappensAlike(env, kinds[n], a, qs[n], qs[n + 1], EpcKnown(env, s, before));
      StepsOneMore(env, s, Executed(before));
    }
  }

  /** In a replayable program only observing instructions matter. */
  lemma {:induction false} ProgramStepsReplay(env: Env, s: Cpu, n: nat)
    requires env.tlb.Normal? && ReplayableProgram(env) && Precise(env, s)
    ensures var a := Steps(env, s, n); Precise(env, a) && (a.core.status == Running ==> NextReplays(env, a))
  {
    hide Step, Precise, NextReplays, ReplayableProgram;
    if n > 0 {
      ProgramStepsReplay(env, s, n - 1);
      StepsOneMore(env, s, n - 1);
      var a := Steps(env, s, n - 1);
      if a.core.status == Running { StepPrecise(env, a); } else { StoppedStep(env, a); }
    }
    AnyProgramReplays(env, Steps(env, s, n));
  }
}
