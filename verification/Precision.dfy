/**
 * States between instructions, equal up to what an interrupt may disturb, and the delay-slot flag: when it is
 * set, the instruction at pc - 4 is a branch and replaying it gives this very state.
 */
module Precision {
  import opened Words
  import opened Decoder
  import opened Cop0
  import opened Handlers
  import opened Machine
  import opened Blocks
  import Simulation
  import opened Masking

  // ---------------------------------------------------------------- states between instructions

  /** Between instructions next_pc_ is dead. */
  function Boundary(s: Core, keep: bool): Core {
    Masked(s, keep).(nextPc := 0)
  }

  /** Equal registers, memory, control flow and Cop0, up to what an interrupt may disturb. */
  predicate Equivalent(a: Cpu, b: Cpu, keep: bool) {
    && a.core.status == b.core.status
    && (a.core.status == Running ==> a.data == b.data && Boundary(a.core, keep) == Boundary(b.core, keep))
  }

  lemma EquivalentTrans(a: Cpu, b: Cpu, c: Cpu, keep: bool, keep': bool)
    requires Equivalent(a, b, keep) && Equivalent(b, c, keep') && (keep' ==> keep)
    ensures Equivalent(a, c, keep')
    ensures Equivalent(c, a, keep')
  {
    hide Boundary;
    if a.core.status == Running && keep {
      Forget(a.core, b.core);
    }
  }

  /** Agreement with EPC implies agreement without. */
  lemma Forget(a: Core, b: Core)
    requires Boundary(a, true) == Boundary(b, true)
    ensures Boundary(a, false) == Boundary(b, false)
  {
  }

  lemma BoundaryFields(a: Core, b: Core, keep: bool)
    requires Boundary(a, keep) == Boundary(b, keep)
    ensures a.pc == b.pc && a.hasBd == b.hasBd && (a.hasBd ==> a.bdDst == b.bdDst) && a.cop0.sr == b.cop0.sr
    ensures a.status == b.status && a.fpFlag == b.fpFlag && (keep ==> a.cop0.epc == b.cop0.epc)
  {
  }

  lemma PrepareEquivalent(a: Core, b: Core, keep: bool)
    requires Boundary(a, keep) == Boundary(b, keep)
    ensures Prepare(a).pc == a.pc && !Prepare(a).hasBd && Prepare(a).cop0 == a.cop0 && Prepare(a).status == a.status
    ensures Alike(Prepare(a), Prepare(b), keep)
  {
    hide MaskedCop0;
  }

  // ---------------------------------------------------------------- equivalent states step alike

  lemma KeptSame(env: Env, a: Cpu, b: Cpu, raw: U32, keep: bool)
    requires a.data == b.data && a.core.cop0.sr == b.core.cop0.sr
    ensures Kept(env, a, raw, keep) == Kept(env, b, raw, keep) &&
            Observes(a.core, raw, keep) == Observes(b.core, raw, keep)
  {
    hide Decode, Compute, Exl, Erl, Rd, CopId, IsCopInst, HasDelaySlot, IsCopBranch, IsMoveFrom;
  }

  lemma ExecEquivalent(env: Env, a: Cpu, b: Cpu, raw: U32, keep: bool)
    requires Alike(a.core, b.core, keep) && a.data == b.data && !a.core.hasBd && !Observes(a.core, raw, keep)
    ensures AlikeCpu(Exec(env, a, raw), Exec(env, b, raw), Kept(env, a, raw, keep))
  {
    AlikeStatus(a.core, b.core, keep);
    KeptSame(env, a, b, raw, keep);
    ExecAlike(env, a, raw, keep);
    ExecAlike(env, b, raw, keep);
    assert a.(core := Masked(a.core, keep)) == b.(core := Masked(b.core, keep)) by { hide Masked; }
    var r, m, q := Exec(env, a, raw), Exec(env, a.(core := Masked(a.core, keep)), raw), Exec(env, b, raw);
    hide *;
    JoinAlike(r, m, q, Kept(env, a, raw, keep));
  }

  lemma JoinAlike(r: Cpu, m: Cpu, q: Cpu, keep: bool)
    requires AlikeCpu(r, m, keep) && AlikeCpu(q, m, keep)
    ensures AlikeCpu(r, q, keep)
  {
    AlikeStatus(r.core, m.core, keep);
    AlikeStatus(q.core, m.core, keep);
    hide Masked;
  }

  lemma RetireEquivalent(r: Core, q: Core, n: nat, keep: bool)
    requires Alike(r, q, keep)
    ensures Retire(r, n).status == r.status == q.status == Retire(q, n).status
    ensures r.status == Running ==> Boundary(Retire(r, n), keep) == Boundary(Retire(q, n), keep)
  {
    hide MaskedCop0;
  }

  /** Whether EPC is known after the next instruction. */
  predicate NextKeep(env: Env, s: Cpu, keep: bool) {
    var word := FetchWord(env, s.core.pc);
    if word.Some? then Kept(env, s, word.value, keep) else keep
  }

  predicate NextObserves(env: Env, s: Cpu, keep: bool) {
    var word := FetchWord(env, s.core.pc);
    word.Some? && Observes(s.core, word.value, keep)
  }

  /** Steps cannot tell equivalent states apart unless the instruction observes. */
  lemma StepEquivalent(env: Env, a: Cpu, b: Cpu, keep: bool)
    requires Equivalent(a, b, keep) && a.core.status == Running && !NextObserves(env, a, keep)
    ensures Equivalent(Step(env, a), Step(env, b), NextKeep(env, a, keep))
  {
    BoundaryFields(a.core, b.core, keep);
    PrepareEquivalent(a.core, b.core, keep);
    PrepareEquivalent(b.core, a.core, keep);
    var word := FetchWord(env, a.core.pc);
    hide Exec, Kept, Alike, Boundary, Prepare, Retire, FetchWord, Observes;
    if word.Some? {
      var raw := word.value;
      var a1, b1 := a.(core := Prepare(a.core)), b.(core := Prepare(b.core));
      KeptSame(env, a, a1, raw, keep);
      ExecEquivalent(env, a1, b1, raw, keep);
      RetireEquivalent(Exec(env, a1, raw).core, Exec(env, b1, raw).core, env.config.cpi, Kept(env, a, raw, keep));
    }
  }

  // ---------------------------------------------------------------- the delay-slot flag is precise

  /** A link register that is also the branch's source: replaying the branch would read the link. */
  predicate LinksItsSource(raw: U32) {
    var id := Decode(raw);
    || (IsLinkingBranch(id) && Rs(raw) == 31)
    || (id.KJalr? && Rd(raw) == Rs(raw) && Rd(raw) != 0)
  }

  /** The value a link register gets at pc. */
  function LinkValue(pc: U64): U64 { Sext32(Wrap32(pc + 8)) }

  predicate TakenOn(id: InstId, x: U64) {
    if id.KBgezal? || id.KBgezall? then Signed64(x) >= 0 else Signed64(x) < 0
  }

  /** Where the branch raw at s.pc goes on registers d: None when it is not taken, traps or panics. */
  function Destination(env: Env, d: Data, s: Core, raw: U32): Option<U64> {
    var id, slotMisses := Decode(raw), FetchWord(env, Wrap64(s.pc + 4)).None?;
    if IsCondBranch(id) then
      if || RaisesCop(s, id, raw) || !BranchTaken(id, raw, d.gpr, CopFlag(s, CopId(raw)))
         || (raw == IDLE_BRANCH && slotMisses)
      then None
      else Some(Wrap64(s.pc + 4 + BranchOffset(raw)))
    else if id.KJ? then
      if JumpTarget(s.pc, raw) == s.pc && slotMisses then None else Some(JumpTarget(s.pc, raw))
    else if id.KJal? then Some(JumpTarget(s.pc, raw))
    else if (id.KJr? || id.KJalr?) && d.gpr[Rs(raw)] % 4 == 0 then Some(d.gpr[Rs(raw)])
    else None
  }

  /** The registers after the link of raw at pc. */
  function Linked(d: Data, pc: U64, raw: U32): Data {
    var id := Decode(raw);
    if IsLinkingBranch(id) || id.KJal? then LinkForJump(d, pc, 31)
    else if id.KJalr? then LinkForJump(d, pc, Rd(raw))
    else d
  }

  /** The branch goes to the same place whether it reads its source or, on replay, the link it wrote there. */
  predicate LinkKept(s: Cpu, raw: U32) {
    var id, x, y := Decode(raw), s.data.gpr[Rs(raw)], LinkValue(s.core.pc);
    LinksItsSource(raw) ==> if id.KJalr? then x == y else TakenOn(id, x) ==> TakenOn(id, y)
  }

  /** The word at b is a branch that, on registers d, goes to t and links nothing new. */
  predicate Rebuilds(env: Env, d: Data, s: Core, b: U64, t: U64) {
    var word := FetchWord(env, b);
    word.Some? && Destination(env, d, s.(pc := b), word.value) == Some(t) && Linked(d, b, word.value) == d
  }

  /**
   * The instruction leaves the flag precise. It does not set it; or, outside a delay slot, its link keeps its
   * target; or, in a delay slot, the word before the pending target is a branch to its own target.
   */
  predicate Replays(env: Env, s: Cpu, raw: U32) {
    var t := Destination(env, s.data, s.core, raw);
    t.Some? ==>
      if s.core.hasBd then Rebuilds(env, Linked(s.data, s.core.pc, raw), s.core, Wrap64(s.core.bdDst - 4), t.value)
      else LinkKept(s, raw)
  }

  predicate NextReplays(env: Env, s: Cpu) {
    var word := FetchWord(env, s.core.pc);
    word.Some? ==> Replays(env, s, word.value)
  }

  /** A program in which that holds everywhere: no branch in a delay slot, no link register equal to its source. */
  ghost predicate ReplayableProgram(env: Env) {
    && StraightSlots(env)
    && forall a: nat :: WordAt(env, a).Some? ==> !LinksItsSource(WordAt(env, a).value)
  }

  /** The state in which the pending branch is about to execute again. */
  function Rewound(s: Cpu): Cpu {
    s.(core := s.core.(pc := Wrap64(s.core.pc - 4), hasBd := false))
  }

  predicate SlotHolder(env: Env, pc: U64) {
    var word := FetchWord(env, Wrap64(pc - 4));
    word.Some? && DoesInstHaveDelaySlot(word.value)
  }

  /** A pending branch is the instruction at pc - 4, and replaying it gives this very state. */
  predicate Precise(env: Env, s: Cpu) {
    s.core.status == Running && s.core.hasBd ==>
      SlotHolder(env, s.core.pc) && Equivalent(Step(env, Rewound(s)), s, true)
  }

  lemma WordsAtPc(env: Env, pc: U64)
    requires env.tlb.Normal?
    ensures FetchWord(env, pc) == WordAt(env, Low32(pc))
    ensures FetchWord(env, pc) == WordAt(env, Low32(Wrap64(pc - 4)) + 4)
    ensures FetchWord(env, Wrap64(pc - 4)) == WordAt(env, Low32(Wrap64(pc - 4)))
  {
    var b := Wrap64(pc - 4);
    LowOfLow(pc);
    LowOfLow(b);
    Simulation.LowOfSum(b, 4);
    BackAndForth(pc);
    Simulation.SameFetch(env, pc, Low32(pc));
    Simulation.SameFetch(env, b, Low32(b));
  }

  lemma BackAndForth(pc: U64)
    ensures Wrap64(Wrap64(pc - 4) + 4) == pc && Wrap64(Wrap64(pc + 4) - 4) == pc
  {
  }

  /** The instruction in a delay slot is not a branch. */
  lemma SlotIsStraight(env: Env, pc: U64)
    requires env.tlb.Normal? && StraightSlots(env) && SlotHolder(env, pc) && FetchWord(env, pc).Some?
    ensures !DoesInstHaveDelaySlot(FetchWord(env, pc).value)
  {
    hide FetchWord, WordAt, DoesInstHaveDelaySlot, Low32;
    WordsAtPc(env, pc);
    var a: nat := Low32(Wrap64(pc - 4));
    assert BranchAt(env, a) && !BranchAt(env, a + 4);
  }

  /** What a branch leaves: the flag and its target, over an otherwise equal state. */
  predicate OnlyFlag(s: Core, r: Core) {
    Masked(r.(hasBd := false), true) == Masked(s, true)
  }

  lemma TriggerSetsNoFlag(env: Env, s: Core, cause: Cause)
    requires !s.hasBd
    ensures !TriggerException(env, s, cause).hasBd
  {
    hide EnterException;
  }

  lemma BonusFlag(env: Env, s: Core)
    ensures var r := IdleBonus(env, s);
            && r.hasBd == s.hasBd && r.pc == s.pc
            && (r.status == Running ==> Masked(r.(hasBd := false), true) == Masked(s.(hasBd := false), true))
  {
    hide FetchWord, Masked, Wrap64;
    var n := s.total + 100;
    MaskedTime(s.(hasBd := false), n, true);
    assert s.(total := n).(hasBd := false) == s.(hasBd := false).(total := n);
  }

  lemma JumpFlag(s: Core, r: Core, dst: U64)
    requires Masked(r.(hasBd := false), true) == Masked(s, true) && !s.hasBd
    ensures Jump(r, dst).hasBd && Jump(r, dst).status == s.status && OnlyFlag(s, Jump(r, dst))
  {
    hide MaskedCop0;
  }

  lemma TakenFlag(s: Core, r: Core, id: InstId, raw: U32, taken: bool)
    requires !r.hasBd && (r.status == Running ==> Masked(r.(hasBd := false), true) == Masked(s, true)) && !s.hasBd
    ensures var q := TakeBranch(r, id, raw, taken); q.hasBd ==> q.status == Running && OnlyFlag(s, q)
  {
    hide IsLikely, BranchOffset, Wrap64, Masked, OnlyFlag;
    if r.status == Running && taken {
      JumpFlag(s, r, Wrap64(r.pc + 4 + BranchOffset(raw)));
    }
  }

  lemma NoFlag(s: Core)
    requires !s.hasBd
    ensures s.(hasBd := false) == s
  {
  }

  lemma CopTrapSetsNoFlag(env: Env, s: Core, cop: int)
    requires !s.hasBd
    ensures !RaiseCop(env, s, cop).hasBd
  {
    hide TriggerException;
    TriggerSetsNoFlag(env, s.(copCause := cop), CopUnusable);
  }

  lemma BranchSetsFlag(env: Env, s: Core, id: InstId, raw: U32, taken: bool)
    requires !s.hasBd
    ensures var r := BranchCore(env, s, id, raw, taken); r.hasBd ==> r.status == Running && OnlyFlag(s, r)
  {
    NoFlag(s);
    if RaisesCop(s, id, raw) {
      CopTrapSetsNoFlag(env, s, CopId(raw));
      hide RaiseCop, TakeBranch, RaisesCop, OnlyFlag, IdleBonus, CopId;
    } else {
      var r := if raw == IDLE_BRANCH then IdleBonus(env, s) else s;
      BonusFlag(env, s);
      hide RaiseCop, TakeBranch, RaisesCop, OnlyFlag, Masked, IdleBonus, CopId;
      TakenFlag(s, r, id, raw, taken);
    }
  }

  lemma JumpSetsFlag(env: Env, s: Core, id: InstId, raw: U32, reg: U64)
    requires !s.hasBd
    ensures var r := JumpCore(env, s, id, raw, reg);
            r.hasBd && r.status == Running ==> OnlyFlag(s, r)
  {
    hide JumpTarget, IdleBonus, Jump, Masked;
    NoFlag(s);
    var dst := JumpTarget(s.pc, raw);
    JumpFlag(s, s, dst);
    JumpFlag(s, s, reg);
    BonusFlag(env, Jump(s, dst));
  }

  lemma CommandSetsNoFlag(s: Core, raw: U32)
    requires !s.hasBd
    ensures !ExecCommand(s, raw).hasBd
  {
    hide Eret, Rfe;
  }

  lemma MoveFromSetsNoFlag(s: Cpu, is32: bool, idx: RegIndex, rt: RegIndex)
    ensures ExecMoveFrom(s, is32, idx, rt).core.hasBd == s.core.hasBd
  {
    hide Read, SetReg, Low32, Sext32;
  }

  lemma MoveSetsNoFlag(s: Cpu, id: InstId, raw: U32)
    requires !s.core.hasBd
    ensures !ExecMove(s, id, raw).core.hasBd
  {
    hide Write, SetReg, Low32, Rd, Rt, ExecMoveFrom;
    MoveFromSetsNoFlag(s, Is32BitMove(id), Rd(raw), Rt(raw));
  }

  lemma CopSetsNoFlag(env: Env, s: Cpu, id: InstId, raw: U32)
    requires !s.core.hasBd
    ensures !ExecCop(env, s, id, raw).core.hasBd
  {
    hide ExecCommand, ExecMove, CopEnabled, CopId, TriggerException;
    CommandSetsNoFlag(s.core, raw);
    MoveSetsNoFlag(s, id, raw);
    TriggerSetsNoFlag(env, s.core.(copCause := CopId(raw)), CopUnusable);
  }

  lemma CommitSetsNoFlag(env: Env, s: Core, o: Outcome)
    requires !s.hasBd
    ensures !CommitCore(env, s, o).hasBd
  {
    hide TriggerException;
    if o.Raise? { TriggerSetsNoFlag(env, SetBadVAddr(s, o.bad), o.cause); }
  }

  /** Only an opcode that decodes to a branch or jump sets the flag. */
  lemma OnlyBranchesSetFlag(env: Env, s: Cpu, raw: U32)
    requires !s.core.hasBd
    ensures var r := Exec(env, s, raw);
            r.core.hasBd && r.core.status == Running ==> DoesInstHaveDelaySlot(raw) && OnlyFlag(s.core, r.core)
  {
    hide Decode, BranchCore, JumpCore, ExecCop, CommitCore, TriggerException, Compute, HasDelaySlot, IsCopInst;
    hide OnlyFlag, BranchTaken, LinkForJump, CopId, IsLinkingBranch;
    var id := Decode(raw);
    if IsCondBranch(id) {
      BranchSetsFlag(env, s.core, id, raw, BranchTaken(id, raw, s.data.gpr, CopFlag(s.core, CopId(raw))));
    } else if HasDelaySlot(id) {
      JumpSetsFlag(env, s.core, id, raw, s.data.gpr[Rs(raw)]);
    } else if id.KSyscall? || id.KBreak? {
      TriggerSetsNoFlag(env, s.core, if id.KSyscall? then Syscall else Breakpoint);
    } else if IsCopInst(id) {
      CopSetsNoFlag(env, s, id, raw);
    } else {
      CommitSetsNoFlag(env, s.core, Compute(env.tlb, env.config.strict, raw, s.data));
    }
  }

  // ---------------------------------------------------------------- where a branch goes

  lemma TakenIs(id: InstId, raw: U32, gpr: Regs, flag: bool)
    requires IsLinkingBranch(id)
    ensures BranchTaken(id, raw, gpr, flag) == TakenOn(id, gpr[Rs(raw)])
  {
    hide Rs, Rt, Signed64;
  }

  lemma LinkIs(d: Data, pc: U64, reg: RegIndex)
    ensures reg != 0 ==> LinkForJump(d, pc, reg).gpr[reg] == LinkValue(pc)
  {
    hide Sext32, Wrap32;
  }

  lemma LinkingKinds(id: InstId)
    requires IsLinkingBranch(id)
    ensures !id.KJalr? && !id.KJal? && IsCondBranch(id)
  {
  }

  lemma BranchKinds(id: InstId)
    ensures IsCondBranch(id) ==> HasDelaySlot(id) && !IsNoOp(id)
    ensures id.KJ? || id.KJal? || id.KJr? || id.KJalr? ==> HasDelaySlot(id) && !IsNoOp(id) && !IsCondBranch(id)
    ensures HasDelaySlot(id) ==> IsCondBranch(id) || id.KJ? || id.KJal? || id.KJr? || id.KJalr?
  {
  }

  /** A linking branch that is taken is taken again on its own link exactly when the link is kept. */
  lemma TakenAgain(s: Cpu, id: InstId, raw: U32, flag: bool)
    requires id == Decode(raw) && IsLinkingBranch(id) && BranchTaken(id, raw, s.data.gpr, flag)
    ensures BranchTaken(id, raw, LinkForJump(s.data, s.core.pc, 31).gpr, flag) <==> LinkKept(s, raw)
  {
    hide LinkForJump, Rs, Rd, Rt, TakenOn, LinkValue, Decode, BranchTaken, IsLinkingBranch;
    LinkingKinds(id);
    TakenIs(id, raw, s.data.gpr, flag);
    TakenIs(id, raw, LinkForJump(s.data, s.core.pc, 31).gpr, flag);
    LinkIs(s.data, s.core.pc, 31);
    if Rs(raw) != 31 { LinkKeeps(s.data, s.core.pc, 31, Rs(raw)); }
  }

  lemma LinkTwice(d: Data, pc: U64, reg: RegIndex)
    ensures LinkForJump(LinkForJump(d, pc, reg), pc, reg) == LinkForJump(d, pc, reg)
  {
    hide Sext32, Wrap32;
  }

  lemma LinkKeeps(d: Data, pc: U64, reg: RegIndex, i: RegIndex)
    requires i != reg || i == 0
    ensures LinkForJump(d, pc, reg).gpr[i] == d.gpr[i]
  {
    hide Sext32, Wrap32;
  }

  lemma LinkedTwice(d: Data, pc: U64, raw: U32)
    ensures Linked(Linked(d, pc, raw), pc, raw) == Linked(d, pc, raw)
  {
    hide LinkForJump, Decode, Rd, IsLinkingBranch;
    LinkTwice(d, pc, 31);
    LinkTwice(d, pc, Rd(raw));
  }

  lemma BonusStatus(env: Env, s: Core)
    requires s.status == Running
    ensures IdleBonus(env, s).status == Running <==> FetchWord(env, Wrap64(s.pc + 4)).Some?
  {
    hide FetchWord, Wrap64;
  }

  lemma TakeGoes(r: Core, id: InstId, raw: U32, taken: bool)
    requires !r.hasBd
    ensures var q := TakeBranch(r, id, raw, taken);
            && (q.hasBd && q.status == Running <==> r.status == Running && taken)
            && (q.hasBd ==> q.bdDst == Wrap64(r.pc + 4 + BranchOffset(raw)))
  {
    hide IsLikely, BranchOffset, Wrap64;
  }

  lemma BranchGoes(env: Env, s: Core, id: InstId, raw: U32, taken: bool)
    requires s.status == Running && !s.hasBd
    ensures var q := BranchCore(env, s, id, raw, taken);
            var goes := !RaisesCop(s, id, raw) && taken
                        && (raw == IDLE_BRANCH ==> FetchWord(env, Wrap64(s.pc + 4)).Some?);
            && (q.hasBd && q.status == Running <==> goes)
            && (goes ==> q.bdDst == Wrap64(s.pc + 4 + BranchOffset(raw)))
  {
    hide RaisesCop, TakeBranch, IdleBonus, RaiseCop, CopId, FetchWord, Wrap64, BranchOffset;
    CopTrapSetsNoFlag(env, s, CopId(raw));
    BonusFlag(env, s);
    BonusStatus(env, s);
    TakeGoes(s, id, raw, taken);
    TakeGoes(IdleBonus(env, s), id, raw, taken);
  }

  lemma JumpGoes(env: Env, s: Core, id: InstId, raw: U32, d: Data)
    requires s.status == Running && !s.hasBd && id == Decode(raw) && (id.KJ? || id.KJal? || id.KJr? || id.KJalr?)
    ensures var q, t := JumpCore(env, s, id, raw, d.gpr[Rs(raw)]), Destination(env, d, s, raw);
            && (q.hasBd && q.status == Running <==> t.Some?)
            && (t.Some? ==> q.bdDst == t.value)
  {
    hide IdleBonus, JumpTarget, FetchWord, Wrap64, Decode, IsCondBranch, Rs;
    BranchKinds(id);
    var dst := JumpTarget(s.pc, raw);
    JumpIsSet(s, dst);
    JumpIsSet(s, d.gpr[Rs(raw)]);
    BonusKeepsTarget(env, Jump(s, dst));
    BonusStatus(env, Jump(s, dst));
    hide Jump;
  }

  lemma JumpIsSet(s: Core, dst: U64)
    ensures var r := Jump(s, dst); r.hasBd && r.bdDst == dst && r.pc == s.pc && r.status == s.status
  {
  }

  lemma BonusKeepsTarget(env: Env, s: Core)
    ensures IdleBonus(env, s).hasBd == s.hasBd && IdleBonus(env, s).bdDst == s.bdDst
  {
    hide FetchWord;
  }

  /** An instruction sets the flag exactly when it has a destination; then it links and changes nothing else. */
  lemma ExecGoes(env: Env, s: Cpu, raw: U32)
    requires s.core.status == Running && !s.core.hasBd
    ensures var r, t := Exec(env, s, raw), Destination(env, s.data, s.core, raw);
            && (r.core.status == Running && r.core.hasBd <==> t.Some?)
            && (t.Some? ==> && r.core.bdDst == t.value && r.data == Linked(s.data, s.core.pc, raw)
                            && OnlyFlag(s.core, r.core))
  {
    hide Decode, Exec, OnlyFlag, HasDelaySlot, Destination, Linked;
    OnlyBranchesSetFlag(env, s, raw);
    BranchKinds(Decode(raw));
    if IsCondBranch(Decode(raw)) {
      CondGoes(env, s, raw);
    } else if HasDelaySlot(Decode(raw)) {
      ExecJumpGoes(env, s, raw);
    } else {
      NoDestination(env, s.data, s.core, raw);
    }
  }

  lemma NoDestination(env: Env, d: Data, s: Core, raw: U32)
    requires !DoesInstHaveDelaySlot(raw)
    ensures Destination(env, d, s, raw) == None
  {
    hide Decode, FetchWord, HasDelaySlot;
    BranchKinds(Decode(raw));
    hide IsCondBranch;
  }

  lemma CondGoes(env: Env, s: Cpu, raw: U32)
    requires s.core.status == Running && !s.core.hasBd && IsCondBranch(Decode(raw))
    ensures var r, t := Exec(env, s, raw), Destination(env, s.data, s.core, raw);
            && (r.core.status == Running && r.core.hasBd <==> t.Some?)
            && (t.Some? ==> r.core.bdDst == t.value && r.data == Linked(s.data, s.core.pc, raw))
  {
    hide Decode, BranchCore, BranchTaken, CopId, LinkForJump, IsLinkingBranch, RaisesCop, FetchWord, Wrap64;
    hide BranchOffset, HasDelaySlot, IsNoOp, IsCondBranch;
    var id := Decode(raw);
    BranchKinds(id);
    CondIsNoJump(id);
    BranchGoes(env, s.core, id, raw, BranchTaken(id, raw, s.data.gpr, CopFlag(s.core, CopId(raw))));
  }

  lemma CondIsNoJump(id: InstId)
    requires IsCondBranch(id)
    ensures !id.KJ? && !id.KJal? && !id.KJr? && !id.KJalr?
  {
    hide HasDelaySlot;
  }

  lemma ExecJumpGoes(env: Env, s: Cpu, raw: U32)
    requires s.core.status == Running && !s.core.hasBd && HasDelaySlot(Decode(raw)) && !IsCondBranch(Decode(raw))
    ensures var r, t := Exec(env, s, raw), Destination(env, s.data, s.core, raw);
            && (r.core.status == Running && r.core.hasBd <==> t.Some?)
            && (t.Some? ==> r.core.bdDst == t.value && r.data == Linked(s.data, s.core.pc, raw))
  {
    hide Decode, JumpCore, LinkForJump, IsNoOp, IsCondBranch, HasDelaySlot, Destination, Rd, Rs;
    BranchKinds(Decode(raw));
    JumpsDoNotLinkLikeBranches(Decode(raw));
    hide IsLinkingBranch;
    JumpGoes(env, s.core, Decode(raw), raw, s.data);
  }

  lemma JumpsDoNotLinkLikeBranches(id: InstId)
    requires id.KJ? || id.KJal? || id.KJr? || id.KJalr?
    ensures !IsLinkingBranch(id)
  {
  }

  /** Where a branch goes depends on the registers, pc, Status and the FPU's flag. */
  lemma DestinationSame(env: Env, d: Data, x: Core, y: Core, raw: U32)
    requires x.pc == y.pc && x.cop0.sr == y.cop0.sr && x.fpFlag == y.fpFlag
    ensures Destination(env, d, x, raw) == Destination(env, d, y, raw)
  {
    hide Decode, FetchWord, Wrap64, BranchTaken, IsCondBranch, IsCopBranch, JumpTarget, BranchOffset, Rs, CopId;
  }

  /** On its own link a branch goes to the same place exactly when the link is kept. */
  lemma LinkedDestination(env: Env, s: Cpu, raw: U32)
    requires Destination(env, s.data, s.core, raw).Some?
    ensures Destination(env, Linked(s.data, s.core.pc, raw), s.core, raw) == Destination(env, s.data, s.core, raw)
            <==> LinkKept(s, raw)
  {
    hide Decode, FetchWord, Wrap64, LinkForJump, BranchTaken, RaisesCop, JumpTarget, BranchOffset, CopId, Rs, Rd;
    hide IsCondBranch, IsLinkingBranch, TakenOn, LinkValue;
    var id, flag := Decode(raw), CopFlag(s.core, CopId(raw));
    BranchKinds(id);
    LinkingIsCond(id);
    if IsLinkingBranch(id) {
      TakenAgain(s, id, raw, flag);
    } else if id.KJalr? {
      LinkIs(s.data, s.core.pc, Rd(raw));
      if Rd(raw) != Rs(raw) || Rd(raw) == 0 { LinkKeeps(s.data, s.core.pc, Rd(raw), Rs(raw)); }
    }
  }

  lemma LinkingIsCond(id: InstId)
    ensures IsLinkingBranch(id) ==> !id.KJalr? && !id.KJal? && IsCondBranch(id)
  {
    if IsLinkingBranch(id) { LinkingKinds(id); }
  }

  // ---------------------------------------------------------------- precision, exactly

  lemma OnlyFlagFields(s: Core, r: Core)
    requires OnlyFlag(s, r)
    ensures r.pc == s.pc && r.nextPc == s.nextPc && r.cop0.sr == s.cop0.sr && r.fpFlag == s.fpFlag
    ensures r.cop0.epc == s.cop0.epc
  {
  }

  lemma RunningRetire(r: Core, n: nat)
    ensures var q := Retire(r, n);
            q.status == r.status && q.hasBd == r.hasBd && q.bdDst == r.bdDst && q.cop0 == r.cop0 && q.fpFlag == r.fpFlag
    ensures r.status == Running ==> Retire(r, n).pc == r.nextPc
  {
  }

  /** What replaying the branch before s leaves, given its target. */
  lemma ReplayedFlag(s: Core, x: Core, n: nat)
    requires s.status == Running && s.hasBd && x.status == Running && x.hasBd
    requires OnlyFlag(Prepare(s.(pc := Wrap64(s.pc - 4), hasBd := false)), x)
    ensures Boundary(Retire(x, n), true) == Boundary(s.(bdDst := x.bdDst), true)
  {
    BackAndForth(s.pc);
    hide Wrap64, MaskedCop0;
  }

  lemma SameTarget(s: Core, t: U64)
    requires s.hasBd
    ensures Boundary(s.(bdDst := t), true) == Boundary(s, true) <==> t == s.bdDst
  {
    hide MaskedCop0;
  }

  lemma SameBranch(a: Cpu, b: Cpu)
    requires Equivalent(a, b, true) && b.core.status == Running
    ensures a.core.status == Running && a.core.hasBd == b.core.hasBd
  {
    hide Boundary;
    BoundaryFields(a.core, b.core, true);
  }

  /** The pending branch of s is the word before pc, with s's target and links. */
  predicate Rebuilt(env: Env, s: Cpu) {
    Rebuilds(env, s.data, s.core, Wrap64(s.core.pc - 4), s.core.bdDst)
  }

  lemma HolderHasSlot(env: Env, d: Data, s: Core, raw: U32)
    requires Destination(env, d, s, raw).Some?
    ensures DoesInstHaveDelaySlot(raw)
  {
    hide Destination, DoesInstHaveDelaySlot;
    if !DoesInstHaveDelaySlot(raw) { NoDestination(env, d, s, raw); }
  }

  lemma PreparedFields(s: Cpu)
    ensures var p := s.(core := Prepare(s.core));
            && !p.core.hasBd && p.core.pc == s.core.pc && p.core.cop0 == s.core.cop0 && p.core.fpFlag == s.core.fpFlag
            && p.core.status == s.core.status && p.data == s.data
            && p.core.nextPc == if s.core.hasBd then s.core.bdDst else Wrap64(s.core.pc + 4)
  {
  }

  lemma RewoundFields(s: Cpu)
    ensures var b := Rewound(s);
            && b.core.pc == Wrap64(s.core.pc - 4) && !b.core.hasBd && b.core.cop0 == s.core.cop0
            && b.core.fpFlag == s.core.fpFlag && b.core.status == s.core.status && b.data == s.data
  {
  }

  /** The replay of a pending branch, in terms of where it goes. */
  lemma ReplayGoes(env: Env, s: Cpu, raw: U32)
    requires s.core.status == Running && s.core.hasBd && FetchWord(env, Wrap64(s.core.pc - 4)) == Some(raw)
    ensures var q := Step(env, Rewound(s));
            var t := Destination(env, s.data, s.core.(pc := Wrap64(s.core.pc - 4)), raw);
            && (q.core.status == Running && q.core.hasBd <==> t.Some?)
            && (t.Some? ==> q.data == Linked(s.data, Wrap64(s.core.pc - 4), raw)
                            && Boundary(q.core, true) == Boundary(s.core.(bdDst := t.value), true))
  {
    hide Step, Exec, FetchWord, Destination, Linked, OnlyFlag, Boundary, Retire, Prepare, Wrap64;
    var b := Rewound(s);
    var p := b.(core := Prepare(b.core));
    RewoundFields(s);
    PreparedFields(b);
    StepIs(env, b, raw);
    ExecGoes(env, p, raw);
    DestinationSame(env, s.data, p.core, s.core.(pc := Wrap64(s.core.pc - 4)), raw);
    RunningRetire(Exec(env, p, raw).core, env.config.cpi);
    if Destination(env, s.data, p.core, raw).Some? {
      ReplayedFlag(s.core, Exec(env, p, raw).core, env.config.cpi);
    }
  }

  /**
   * A pending branch is precise exactly when the word at pc - 4 is a branch that goes to the pending target
   * and whose link is already in place.
   */
  lemma PreciseExactly(env: Env, s: Cpu)
    requires s.core.status == Running && s.core.hasBd
    ensures Precise(env, s) <==> Rebuilt(env, s)
  {
    hide Step, FetchWord, Destination, Linked, Boundary, DoesInstHaveDelaySlot, Wrap64, Rewound;
    var word := FetchWord(env, Wrap64(s.core.pc - 4));
    if word.Some? {
      var t := Destination(env, s.data, s.core.(pc := Wrap64(s.core.pc - 4)), word.value);
      ReplayGoes(env, s, word.value);
      if t.Some? {
        HolderHasSlot(env, s.data, s.core.(pc := Wrap64(s.core.pc - 4)), word.value);
        SameTarget(s.core, t.value);
      } else if Equivalent(Step(env, Rewound(s)), s, true) {
        SameBranch(Step(env, Rewound(s)), s);
      }
    }
  }

  lemma RebuildsSame(env: Env, d: Data, x: Core, y: Core, b: U64, t: U64)
    requires x.cop0.sr == y.cop0.sr && x.fpFlag == y.fpFlag
    ensures Rebuilds(env, d, x, b, t) == Rebuilds(env, d, y, b, t)
  {
    hide FetchWord, Destination, Linked;
    var word := FetchWord(env, b);
    if word.Some? { DestinationSame(env, d, x.(pc := b), y.(pc := b), word.value); }
  }

  /** What a step that sets the flag leaves. */
  lemma StepGoes(env: Env, s: Cpu, raw: U32)
    requires s.core.status == Running && FetchWord(env, s.core.pc) == Some(raw)
    ensures var r, t := Step(env, s), Destination(env, s.data, s.core, raw);
            && (r.core.status == Running && r.core.hasBd <==> t.Some?)
            && (t.Some? ==>
                  && r.core.bdDst == t.value && r.data == Linked(s.data, s.core.pc, raw)
                  && r.core.pc == (if s.core.hasBd then s.core.bdDst else Wrap64(s.core.pc + 4))
                  && r.core.cop0.sr == s.core.cop0.sr && r.core.fpFlag == s.core.fpFlag)
  {
    hide Step, Exec, FetchWord, Destination, Linked, OnlyFlag, Retire, Prepare, Wrap64;
    var p := s.(core := Prepare(s.core));
    PreparedFields(s);
    StepIs(env, s, raw);
    ExecGoes(env, p, raw);
    DestinationSame(env, s.data, p.core, s.core, raw);
    RunningRetire(Exec(env, p, raw).core, env.config.cpi);
    if Destination(env, s.data, p.core, raw).Some? { OnlyFlagFields(p.core, Exec(env, p, raw).core); }
  }

  /** Outside a delay slot the replayed word is the branch itself, on its own link. */
  lemma ReplaysItself(env: Env, s: Cpu, raw: U32)
    requires FetchWord(env, s.core.pc) == Some(raw) && Destination(env, s.data, s.core, raw).Some?
    ensures var t := Destination(env, s.data, s.core, raw).value;
            Rebuilds(env, Linked(s.data, s.core.pc, raw), s.core, s.core.pc, t) <==> LinkKept(s, raw)
  {
    hide FetchWord, Destination, Linked, LinkKept;
    LinkedTwice(s.data, s.core.pc, raw);
    LinkedDestination(env, s, raw);
    assert s.core.(pc := s.core.pc) == s.core;
  }

  /** A step leaves the flag precise if and only if its instruction replays. */
  lemma StepPreciseExactly(env: Env, s: Cpu)
    requires s.core.status == Running
    ensures Precise(env, Step(env, s)) <==> NextReplays(env, s)
  {
    hide Step, FetchWord, Destination, Linked, LinkKept, Rebuilds, SlotHolder, Equivalent, Wrap64;
    var word, r := FetchWord(env, s.core.pc), Step(env, s);
    if word.None? {
      MissedStep(env, s);
    } else {
      var raw := word.value;
      StepGoes(env, s, raw);
      if Destination(env, s.data, s.core, raw).Some? {
        var t := Destination(env, s.data, s.core, raw).value;
        PreciseExactly(env, r);
        RebuildsSame(env, r.data, r.core, s.core, Wrap64(r.core.pc - 4), t);
        BackAndForth(s.core.pc);
        ReplaysItself(env, s, raw);
      }
    }
  }

  lemma MissedStep(env: Env, s: Cpu)
    requires FetchWord(env, s.core.pc).None? && s.core.status == Running
    ensures Step(env, s).core.status == Panicked
  {
    hide FetchWord;
  }

  lemma StepPrecise(env: Env, s: Cpu)
    requires s.core.status == Running && NextReplays(env, s)
    ensures Precise(env, Step(env, s))
  {
    hide Step, Precise, NextReplays;
    StepPreciseExactly(env, s);
  }

  /**
   * Outside a delay slot: a branch that sets the flag leaves it precise exactly when it would go to the same
   * place on the link it wrote.
   */
  lemma SelfLinkExactly(env: Env, s: Cpu, raw: U32)
    requires s.core.status == Running && !s.core.hasBd && FetchWord(env, s.core.pc) == Some(raw)
    requires DoesInstHaveDelaySlot(raw) && Step(env, s).core.status == Running && Step(env, s).core.hasBd
    ensures Precise(env, Step(env, s)) <==> LinkKept(s, raw)
  {
    hide Step, Precise, FetchWord, Destination, LinkKept, Linked, Rebuilds, DoesInstHaveDelaySlot;
    StepPreciseExactly(env, s);
    StepGoes(env, s, raw);
  }

  /**
   * In a delay slot: a branch that sets the flag runs on at the pending target, and leaves the flag precise
   * exactly when the word before that target is a branch that goes where this one goes and links nothing new.
   */
  lemma SlotBranchExactly(env: Env, s: Cpu, raw: U32)
    requires s.core.status == Running && s.core.hasBd && FetchWord(env, s.core.pc) == Some(raw)
    requires Step(env, s).core.status == Running && Step(env, s).core.hasBd
    ensures var r := Step(env, s);
            && r.core.pc == s.core.bdDst
            && (Precise(env, r) <==> Rebuilds(env, r.data, s.core, Wrap64(s.core.bdDst - 4), r.core.bdDst))
  {
    hide Step, Precise, FetchWord, Destination, Linked, Rebuilds, LinkKept;
    StepPreciseExactly(env, s);
    StepGoes(env, s, raw);
  }

  // ---------------------------------------------------------------- programs

  lemma LinkSafeAt(env: Env, pc: U64)
    requires env.tlb.Normal? && ReplayableProgram(env) && FetchWord(env, pc).Some?
    ensures !LinksItsSource(FetchWord(env, pc).value)
  {
    hide FetchWord, WordAt, LinksItsSource, StraightSlots;
    WordsAtPc(env, pc);
  }

  /** In a replayable program every instruction replays. */
  lemma ProgramReplays(env: Env, s: Cpu)
    requires env.tlb.Normal? && ReplayableProgram(env) && s.core.status == Running && Precise(env, s)
    ensures NextReplays(env, s)
  {
    hide FetchWord, Equivalent, LinksItsSource, WordAt, DoesInstHaveDelaySlot, StraightSlots, Destination;
    hide Rebuilds, Step;
    var word := FetchWord(env, s.core.pc);
    if word.Some? {
      LinkSafeAt(env, s.core.pc);
      if s.core.hasBd {
        SlotIsStraight(env, s.core.pc);
        NoDestination(env, s.data, s.core, word.value);
      }
    }
  }

  // ---------------------------------------------------------------- equal states are precise alike

  lemma BranchesDoNotObserve(s: Core, raw: U32, keep: bool)
    requires DoesInstHaveDelaySlot(raw)
    ensures !Observes(s, raw, keep)
  {
    var id := Decode(raw);
    hide Decode;
    assert !id.KMfc? && !id.KDmfc? && !id.KCop?;
  }

  lemma PreciseRespects(env: Env, a: Cpu, b: Cpu, keep: bool)
    requires Equivalent(a, b, keep) && Precise(env, a)
    ensures Precise(env, b)
  {
    hide Rebuilds, Boundary, SlotHolder, Step;
    if b.core.status == Running && b.core.hasBd {
      BoundaryFields(a.core, b.core, keep);
      PreciseExactly(env, a);
      PreciseExactly(env, b);
      RebuildsSame(env, b.data, a.core, b.core, Wrap64(b.core.pc - 4), b.core.bdDst);
    }
  }

  lemma Flip(a: Cpu, b: Cpu, keep: bool)
    requires Equivalent(a, b, keep)
    ensures Equivalent(b, a, keep)
  {
    hide Boundary;
  }

  lemma AnyKeep(a: Cpu, b: Cpu, keep: bool)
    requires Equivalent(a, b, keep)
    ensures Equivalent(a, b, false)
  {
    hide Boundary;
    if a.core.status == Running && keep { Forget(a.core, b.core); }
  }
}
