/** Inside an exception handler: while EXL is set EPC keeps the address of the interrupted program. */
module InHandlers {
  import opened Words
  import opened Decoder
  import opened Cop0
  import opened Handlers
  import opened Machine
  import opened Masking
  import opened Precision
  import opened Interrupts

  predicate SameEpc(s: Core, r: Core) { r.cop0.epc == s.cop0.epc }

  lemma TriggerKeepsEpc(env: Env, s: Core, cause: Cause)
    requires Exl(s.cop0.sr)
    ensures SameEpc(s, TriggerException(env, s, cause))
  {
    hide FetchWord, NewCause, SetExl, DoesInstHaveDelaySlot;
  }

  lemma BonusKeepsEpc(env: Env, s: Core)
    ensures SameEpc(s, IdleBonus(env, s))
  {
    hide FetchWord;
  }

  lemma BranchKeepsEpc(env: Env, s: Core, id: InstId, raw: U32, taken: bool)
    requires Exl(s.cop0.sr)
    ensures SameEpc(s, BranchCore(env, s, id, raw, taken))
  {
    hide TriggerException, IdleBonus, CopId, Exl, RaisesCop, IsLikely, BranchOffset;
    BonusKeepsEpc(env, s);
    TriggerKeepsEpc(env, s.(copCause := CopId(raw)), CopUnusable);
  }

  lemma JumpKeepsEpc(env: Env, s: Core, id: InstId, raw: U32, reg: U64)
    ensures SameEpc(s, JumpCore(env, s, id, raw, reg))
  {
    hide IdleBonus, JumpTarget;
    BonusKeepsEpc(env, Jump(s, JumpTarget(s.pc, raw)));
  }

  lemma CommandKeepsEpc(s: Core, raw: U32)
    ensures SameEpc(s, ExecCommand(s, raw))
  {
    hide ClearExl, ClearErl, Erl;
  }

  lemma MoveFromKeepsEpc(s: Cpu, is32: bool, idx: RegIndex, rt: RegIndex)
    ensures SameEpc(s.core, ExecMoveFrom(s, is32, idx, rt).core)
  {
    hide SetReg, Low32, Sext32;
  }

  lemma MoveToKeepsEpc(s: Core, is32: bool, idx: RegIndex, value: U64)
    requires idx != 14
    ensures SameEpc(s, ExecMoveTo(s, is32, idx, value))
  {
    hide Low32, SoftwareBits;
  }

  lemma MoveKeepsEpc(s: Cpu, id: InstId, raw: U32)
    requires (IsMoveFrom(id) || IsMoveTo(id) || id.KCfc? || id.KCtc?) && (IsMoveTo(id) ==> Rd(raw) != 14)
    ensures SameEpc(s.core, ExecMove(s, id, raw).core)
  {
    hide ExecMoveFrom, ExecMoveTo, SetReg, Rd, Rt;
    MoveFromKeepsEpc(s, Is32BitMove(id), Rd(raw), Rt(raw));
    if IsMoveTo(id) { MoveToKeepsEpc(s.core, Is32BitMove(id), Rd(raw), s.data.gpr[Rt(raw)]); }
  }

  lemma CopKeepsEpc(env: Env, s: Cpu, id: InstId, raw: U32)
    requires id == Decode(raw) && IsCopInst(id) && Exl(s.core.cop0.sr) && !WritesEpc(raw)
    ensures SameEpc(s.core, ExecCop(env, s, id, raw).core)
  {
    hide Decode, ExecMove, ExecCommand, CopEnabled, CopId, TriggerException, Exl, IsCopInst;
    CommandKeepsEpc(s.core, raw);
    TriggerKeepsEpc(env, s.core.(copCause := CopId(raw)), CopUnusable);
    if CopId(raw) == 0 && !id.KCop? {
      NoCop0Memory(id, raw);
      MoveKeepsEpc(s, id, raw);
    }
  }

  lemma CommitKeepsEpc(env: Env, s: Core, o: Outcome)
    requires Exl(s.cop0.sr)
    ensures SameEpc(s, CommitCore(env, s, o))
  {
    hide TriggerException, Exl;
    if o.Raise? { TriggerKeepsEpc(env, SetBadVAddr(s, o.bad), o.cause); }
  }

  lemma ExecKeepsEpc(env: Env, s: Cpu, raw: U32)
    requires Exl(s.core.cop0.sr) && !WritesEpc(raw)
    ensures SameEpc(s.core, Exec(env, s, raw).core)
  {
    hide Decode, BranchCore, JumpCore, ExecCop, CommitCore, TriggerException, Compute, HasDelaySlot, IsCopInst, Exl;
    hide BranchTaken, LinkForJump, CopId, IsLinkingBranch, WritesEpc;
    var id := Decode(raw);
    if IsNoOp(id) {
    } else if IsCondBranch(id) {
      BranchKeepsEpc(env, s.core, id, raw, BranchTaken(id, raw, s.data.gpr, CopFlag(s.core, CopId(raw))));
    } else if HasDelaySlot(id) {
      JumpKeepsEpc(env, s.core, id, raw, s.data.gpr[Rs(raw)]);
    } else if id.KSyscall? || id.KBreak? {
      TriggerKeepsEpc(env, s.core, if id.KSyscall? then Syscall else Breakpoint);
    } else if IsCopInst(id) {
      CopKeepsEpc(env, s, id, raw);
    } else {
      CommitKeepsEpc(env, s.core, Compute(env.tlb, env.config.strict, raw, s.data));
    }
  }

  /** The next instruction is not an mtc0/dmtc0 of EPC. */
  predicate NextWritesEpc(env: Env, s: Core) {
    var word := FetchWord(env, s.pc);
    word.Some? && WritesEpc(word.value)
  }

  /** While EXL is set a step overwrites EPC only when it is told to, exceptions included. */
  lemma StepKeepsEpc(env: Env, s: Cpu)
    requires Exl(s.core.cop0.sr) && !NextWritesEpc(env, s.core)
    ensures SameEpc(s.core, Step(env, s).core)
  {
    hide Exec, FetchWord, Exl, WritesEpc;
    if s.core.status == Running && FetchWord(env, s.core.pc).Some? {
      var raw := FetchWord(env, s.core.pc).value;
      ExecKeepsEpc(env, s.(core := Prepare(s.core)), raw);
    }
  }

  lemma PollKeepsEpc(env: Env, s: Core)
    requires Exl(s.cop0.sr)
    ensures SameEpc(s, Poll(env, s)) && Poll(env, s).pc == s.pc && Poll(env, s).hasBd == s.hasBd
  {
    hide TriggerException, RefreshPending, Crossed, Exl, InterruptPending;
  }

  /** A run that stays inside one handler: EXL set before every action, and no write of EPC. */
  ghost predicate StaysInHandler(env: Env, s: Cpu, acts: seq<Action>) {
    forall k :: 0 <= k < |acts| ==> HandlerAction(env, ActAll(env, s, acts[..k]), acts[k])
  }

  predicate HandlerAction(env: Env, s: Cpu, a: Action) {
    Exl(s.core.cop0.sr) && (a.Execute? ==> !NextWritesEpc(env, s.core))
  }

  /** However many polls, line changes and nested exceptions a handler sees, ERET still finds its EPC. */
  lemma {:induction false} HandlerKeepsEpc(env: Env, s: Cpu, acts: seq<Action>)
    requires StaysInHandler(env, s, acts)
    ensures SameEpc(s.core, ActAll(env, s, acts).core)
    decreases |acts|
  {
    hide Step, Poll, Exl, NextWritesEpc;
    if acts != [] {
      var n := |acts| - 1;
      var before := acts[..n];
      assert StaysInHandler(env, s, before) by {
        forall k | 0 <= k < n ensures HandlerAction(env, ActAll(env, s, before[..k]), before[k]) {
          assert before[..k] == acts[..k];
        }
      }
      HandlerKeepsEpc(env, s, before);
      var q := ActAll(env, s, before);
      assert HandlerAction(env, ActAll(env, s, acts[..n]), acts[n]);
      if acts[n].Execute? {
        StepKeepsEpc(env, q);
      } else if acts[n].PollNow? {
        PollKeepsEpc(env, q.core);
      }
    }
  }

  // ---------------------------------------------------------------- interrupts serviced by executed handlers

  /** The handler that ran from t to h gave back registers, memory and all of Cop0 but EPC, Cause and the timer. */
  predicate Restores(t: Cpu, h: Cpu) {
    h.data == t.data && Boundary(h.core.(pc := t.core.pc), false) == Boundary(t.core, false)
  }

  predicate AtEret(env: Env, h: Cpu) {
    var word := FetchWord(env, h.core.pc);
    word.Some? && IsEret(word.value)
  }

  /** A poll of q takes an interrupt, and the actions are a handler for it, up to its ERET. */
  ghost predicate Services(env: Env, q: Cpu, acts: seq<Action>) {
    var t := q.(core := Poll(env, q.core));
    var h := ActAll(env, t, acts);
    && q.core.status == Running && InHandler(q.core, t.core)
    && StaysInHandler(env, t, acts) && Restores(t, h) && AtEret(env, h)
  }

  lemma EpcRestored(t: Core, h: Core)
    requires Boundary(h.(pc := t.pc), false) == Boundary(t, false) && h.cop0.epc == t.cop0.epc
    ensures Boundary(h.(pc := t.pc), true) == Boundary(t, true)
  {
  }

  /** Such a run is an interrupt episode: that EPC survives it is proved, not assumed. */
  lemma ServiceIsEpisode(env: Env, q: Cpu, acts: seq<Action>)
    requires Services(env, q, acts)
    ensures Episode(env, q, Resumed(env, q, ActAll(env, q.(core := Poll(env, q.core)), acts)))
  {
    hide Poll, ActAll, StaysInHandler, Boundary, InHandler, Resumed, FetchWord, IsEret;
    var t := q.(core := Poll(env, q.core));
    var h := ActAll(env, t, acts);
    HandlerKeepsEpc(env, t, acts);
    EpcRestored(t.core, h.core);
    assert HandlerEnd(env, t, h);
  }

  /** One leg of an interrupted run: an action of the program's own, or an interrupt and its whole handler. */
  datatype Leg = Own(action: Action) | Service(acts: seq<Action>)

  function RunLeg(env: Env, q: Cpu, leg: Leg): Cpu {
    match leg
    case Own(a) => Act(env, q, a)
    case Service(acts) => Resumed(env, q, ActAll(env, q.(core := Poll(env, q.core)), acts))
  }

  function RunLegs(env: Env, s: Cpu, legs: seq<Leg>): Cpu
    decreases |legs|
  {
    if legs == [] then s else RunLeg(env, RunLegs(env, s, legs[..|legs| - 1]), legs[|legs| - 1])
  }

  /** An own poll takes no interrupt; a serviced one does. */
  ghost predicate LegFits(env: Env, q: Cpu, leg: Leg) {
    match leg
    case Own(a) => a.PollNow? && q.core.status == Running ==> !InHandler(q.core, Poll(env, q.core))
    case Service(acts) => Services(env, q, acts)
  }

  ghost predicate LegsFit(env: Env, s: Cpu, legs: seq<Leg>) {
    forall k :: 0 <= k < |legs| ==> LegFits(env, RunLegs(env, s, legs[..k]), legs[k])
  }

  function KindOf(leg: Leg): Kind {
    if leg.Service? then Interrupted else if leg.action.Execute? then Executes else Unnoticed
  }

  function Kinds(legs: seq<Leg>): seq<Kind> {
    if legs == [] then [] else Kinds(legs[..|legs| - 1]) + [KindOf(legs[|legs| - 1])]
  }

  lemma ReflexiveEquivalent(q: Cpu)
    ensures Equivalent(q, q, true)
  {
  }

  /** A poll that takes no interrupt is unnoticed. */
  lemma QuietPoll(env: Env, q: Cpu)
    requires Precise(env, q) && (q.core.status == Running ==> !InHandler(q.core, Poll(env, q.core)))
    ensures Equivalent(q, q.(core := Poll(env, q.core)), true)
  {
    if q.core.status == Running {
      hide Poll, SlotHolder, Boundary, Step, InHandler;
      AtMostOneInterrupt(env, q.core);
    } else {
      hide Boundary;
      assert Poll(env, q.core) == q.core;
    }
  }

  lemma LegHappens(env: Env, q: Cpu, leg: Leg)
    requires Precise(env, q) && LegFits(env, q, leg)
    ensures Happens(env, KindOf(leg), q, RunLeg(env, q, leg))
  {
    hide Poll, Precise, Services, Equivalent, Episode, InHandler, ActAll, Resumed, Step;
    match leg
    case Own(Execute) =>
    case Own(PollNow) => QuietPoll(env, q);
    case Own(World(irq, halt, n)) => WorldIsInvisible(q, irq, halt, n);
    case Service(acts) => ServiceIsEpisode(env, q, acts);
  }

  /**
   * Interrupt transparency for the machine itself: a run of instructions, polls and outside events, with any
   * number of interrupts and their executed handlers, ends where the program alone would.
   */
  lemma {:induction false} MachineRunsAreTransparent(env: Env, s: Cpu, legs: seq<Leg>)
    requires Precise(env, s) && LegsFit(env, s, legs) && Discreet(env, s, Kinds(legs))
    ensures Equivalent(Steps(env, s, Executed(Kinds(legs))), RunLegs(env, s, legs), EpcKnown(env, s, Kinds(legs)))
    ensures Precise(env, RunLegs(env, s, legs))
    decreases |legs|
  {
    hide Precise, LegFits, Happens, Unseeing, RunLeg, Step, NextKeep, Equivalent;
    if legs == [] {
      ReflexiveEquivalent(s);
    } else {
      var n := |legs| - 1;
      var before, kinds := legs[..n], Kinds(legs);
      assert kinds[..|kinds| - 1] == Kinds(before);
      assert LegsFit(env, s, before) by {
        forall k | 0 <= k < n ensures LegFits(env, RunLegs(env, s, before[..k]), before[k]) {
          assert before[..k] == legs[..k];
        }
      }
      MachineRunsAreTransparent(env, s, before);
      var q, a := RunLegs(env, s, before), Steps(env, s, Executed(Kinds(before)));
      assert LegFits(env, RunLegs(env, s, legs[..n]), legs[n]);
      LegHappens(env, q, legs[n]);
      HappensAlike(env, KindOf(legs[n]), a, q, RunLegs(env, s, legs), EpcKnown(env, s, Kinds(before)));
      StepsOneMore(env, s, Executed(Kinds(before)));
    }
  }

  // ---------------------------------------------------------------- exceptions raised by instructions

  /** r is inside a handler that believes the exception came from the instruction at pc itself. */
  predicate RaisedAt(pc: U64, r: Core) {
    r.status == Running && r.nextPc == VECTOR && r.cop0.epc == pc && r.cop0.cause < 0x8000_0000
  }

  lemma TriggerRaises(env: Env, s: Core, cause: Cause)
    requires s.status == Running && !s.hasBd && !Exl(s.cop0.sr)
    ensures RaisedAt(s.pc, TriggerException(env, s, cause))
  {
    hide Exl, SetExl;
  }

  lemma TrapRaises(env: Env, s: Cpu, raw: U32)
    requires s.core.status == Running && !s.core.hasBd && !Exl(s.core.cop0.sr)
    requires Decode(raw).KSyscall? || Decode(raw).KBreak?
    ensures RaisedAt(s.core.pc, Exec(env, s, raw).core)
  {
    hide Decode, TriggerException, Exl, RaisedAt;
    TriggerRaises(env, s.core, if Decode(raw).KSyscall? then Syscall else Breakpoint);
  }

  lemma CopTrapRaises(env: Env, s: Core, cop: int)
    requires s.status == Running && !s.hasBd && !Exl(s.cop0.sr)
    ensures RaisedAt(s.pc, RaiseCop(env, s, cop))
  {
    hide TriggerException, Exl, RaisedAt;
    TriggerRaises(env, s.(copCause := cop), CopUnusable);
  }

  lemma CopBranchRaises(env: Env, s: Cpu, raw: U32)
    requires s.core.status == Running && !s.core.hasBd && !Exl(s.core.cop0.sr)
    requires IsCopBranch(Decode(raw)) && !CopEnabled(s.core, CopId(raw))
    ensures RaisedAt(s.core.pc, Exec(env, s, raw).core)
  {
    var id := Decode(raw);
    assert IsCondBranch(id) && !IsNoOp(id);
    CopTrapRaises(env, s.core, CopId(raw));
    hide Decode, RaiseCop, Exl, RaisedAt, TakeBranch, IdleBonus, CopEnabled, BranchTaken, CopId, IsLinkingBranch;
    hide LinkForJump, IsCondBranch, IsNoOp;
  }

  lemma CopInstRaises(env: Env, s: Cpu, raw: U32)
    requires s.core.status == Running && !s.core.hasBd && !Exl(s.core.cop0.sr)
    requires IsCopInst(Decode(raw)) && !CopEnabled(s.core, CopId(raw))
    ensures RaisedAt(s.core.pc, Exec(env, s, raw).core)
  {
    CopInstIs(Decode(raw));
    CopTrapRaises(env, s.core, CopId(raw));
    hide Decode, RaiseCop, Exl, RaisedAt, CopEnabled, CopId, IsCopInst, IsCondBranch, HasDelaySlot, IsNoOp;
    hide ExecCommand, ExecMove;
  }

  lemma CopInstIs(id: InstId)
    requires IsCopInst(id)
    ensures !IsNoOp(id) && !HasDelaySlot(id) && !IsCondBranch(id) && !id.KSyscall? && !id.KBreak?
  {
  }

  lemma RegularRaises(env: Env, s: Cpu, raw: U32)
    requires s.core.status == Running && !s.core.hasBd && !Exl(s.core.cop0.sr)
    requires var id := Decode(raw); !IsCopInst(id) && !HasDelaySlot(id) && !IsNoOp(id) && !id.KSyscall? && !id.KBreak?
    requires Compute(env.tlb, env.config.strict, raw, s.data).Raise?
    ensures RaisedAt(s.core.pc, Exec(env, s, raw).core)
  {
    hide Decode, CommitCore, Exl, RaisedAt, Compute, HasDelaySlot, IsCopInst;
    CommitRaises(env, s.core, Compute(env.tlb, env.config.strict, raw, s.data));
  }

  lemma CommitRaises(env: Env, s: Core, o: Outcome)
    requires s.status == Running && !s.hasBd && !Exl(s.cop0.sr) && o.Raise?
    ensures RaisedAt(s.pc, CommitCore(env, s, o))
  {
    hide TriggerException, Exl, RaisedAt;
    TriggerRaises(env, SetBadVAddr(s, o.bad), o.cause);
  }

  lemma ExecRaises(env: Env, s: Cpu, raw: U32)
    requires s.core.status == Running && !s.core.hasBd && !Exl(s.core.cop0.sr) && Raises(env, s, raw)
    ensures RaisedAt(s.core.pc, Exec(env, s, raw).core)
  {
    hide Decode, Exec, Compute, HasDelaySlot, IsCopInst, IsCopBranch, IsNoOp, Exl, RaisedAt, CopEnabled, CopId;
    if Decode(raw).KSyscall? || Decode(raw).KBreak? {
      TrapRaises(env, s, raw);
    } else if IsCopBranch(Decode(raw)) && !CopEnabled(s.core, CopId(raw)) {
      CopBranchRaises(env, s, raw);
    } else if IsCopInst(Decode(raw)) && !CopEnabled(s.core, CopId(raw)) {
      CopInstRaises(env, s, raw);
    } else {
      RegularRaises(env, s, raw);
    }
  }

  predicate NextRaises(env: Env, s: Cpu) {
    var word := FetchWord(env, s.core.pc);
    word.Some? && Raises(env, s.(core := Prepare(s.core)), word.value)
  }

  /**
   * An exception raised by an instruction always reports that instruction, with BD clear, even in a delay
   * slot. So it reports the address from which the program can resume exactly outside delay slots; only
   * polled interrupts are transparent everywhere.
   */
  lemma SynchronousExceptionsLoseTheBranch(env: Env, s: Cpu)
    requires s.core.status == Running && !Exl(s.core.cop0.sr) && NextRaises(env, s)
    ensures var r := Step(env, s).core;
            && r.status == Running && r.pc == VECTOR && r.cop0.epc == s.core.pc && r.cop0.cause < 0x8000_0000
            && (r.cop0.epc == ResumeAt(s.core) <==> !s.core.hasBd)
  {
    hide Exec, FetchWord, Exl, Raises;
    var raw := FetchWord(env, s.core.pc).value;
    ExecRaises(env, s.(core := Prepare(s.core)), raw);
  }
}
