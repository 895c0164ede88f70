/**
 * One CPU of the 64-bit configuration (Cop0, real TLB, exceptions on, no load delay), as a state and
 * functions over it: exceptions, interrupt polls, and the plain step (src/mips_base.cpp:443-562, 945-1029).
 *
 * The code that Fetch sees and the TLB mapping are fixed in `Env`. `total` is the CPU timestamp.
 */
module Machine {
  import opened Words
  import opened Decoder
  import opened Tlb
  import opened Cop0
  import opened Handlers

  /** cpi is in 1/256 cycles; strict is !allow_misaligned_access. */
  datatype Config = Config(cpi: U16, strict: bool)

  datatype Env = Env(config: Config, tlb: TlbView, code: U64 -> U32)

  datatype Status =
    | Running
    | Panicked    // PANIC was reached
    | Unmodelled  // an instruction outside the modelled subset was reached

  /** Everything but registers and memory: control flow, Cop0, interrupt lines and clocks. */
  datatype Core = Core(
    cop0: Cop0Regs, pc: U64, nextPc: U64, llbit: bool, hasBd: bool, bdDst: U64,
    compareIntr: bool, copCause: int, fpFlag: bool, irq: bool, halt: bool,
    total: nat, cpiCounter: nat, status: Status)

  datatype Cpu = Cpu(data: Data, core: Core)

  const VECTOR: U64 := 0x8000_0180

  const IDLE_BRANCH: U32 := 0x1000_FFFF

  /** Fetch through the TLB; a miss raises a TLB exception, which panics. */
  function FetchWord(env: Env, a: U64): Option<U32> {
    var r := Translate(env.tlb, a);
    if r.found then Some(env.code(r.address)) else None
  }

  function Panic(s: Core): Core { s.(status := Panicked) }

  // ---------------------------------------------------------------- exceptions and interrupts

  function BoolInt(b: bool): int { if b then 1 else 0 }

  /** The Cause register an exception leaves: only the software interrupt bits survive. */
  function NewCause(s: Core, cause: Cause, bd: bool): U32 {
    CauseCode(cause) * 4 + BoolInt(s.irq) * 0x400 + BoolInt(s.compareIntr) * 0x8000
    + SoftwareBits(s.cop0.cause) * 0x100
    + (if cause == CopUnusable then s.copCause % 4 * 0x1000_0000 else 0) + BoolInt(bd) * 0x8000_0000
  }

  /** Cop0 after an exception at `epc`; EPC is kept while EXL is set. */
  function EnterException(s: Core, cause: Cause, epc: U64, bd: bool): Cop0Regs {
    s.cop0.(cause := NewCause(s, cause, bd),
            epc := if Exl(s.cop0.sr) then s.cop0.epc else epc,
            sr := SetExl(s.cop0.sr))
  }

  function TriggerException(env: Env, s: Core, cause: Cause): Core {
    if !s.hasBd then
      s.(cop0 := EnterException(s, cause, s.pc, false), pc := VECTOR, nextPc := VECTOR)
    else
      var epc := Wrap64(s.pc - 4);
      match FetchWord(env, epc)
      case None => Panic(s)
      case Some(opcode) =>
        if !DoesInstHaveDelaySlot(opcode) then Panic(s)
        else s.(hasBd := false, cop0 := EnterException(s, cause, epc, true), pc := VECTOR, nextPc := VECTOR)
  }

  predicate InterruptEnabled(s: Core) {
    Ie(s.cop0.sr) && !Exl(s.cop0.sr) && !Erl(s.cop0.sr)
  }

  /** An unmasked source is raised: two software bits, the bus line (IP2) and the timer (IP7). */
  predicate InterruptPending(s: Core) {
    var im, ip := s.cop0.sr / 0x100, SoftwareBits(s.cop0.cause);
    || (im % 2 == 1 && ip % 2 == 1)
    || (im / 2 % 2 == 1 && ip / 2 == 1)
    || (im / 4 % 2 == 1 && s.irq)
    || (im / 128 % 2 == 1 && s.compareIntr)
  }

  function CheckInterrupt(env: Env, s: Core): Core {
    if InterruptEnabled(s) && InterruptPending(s) then TriggerException(env, s, Interrupt) else s
  }

  /** Interrupt bits 8 to 15 of Cause: the timer, the bus line and the two software bits. */
  function PendingByte(cause: U32, irq: bool, timer: bool): (r: int)
    ensures 0 <= r < 0x100
  {
    BoolInt(timer) * 0x80 + BoolInt(irq) * 4 + SoftwareBits(cause)
  }

  function WithPending(cause: U32, irq: bool, timer: bool): U32 {
    cause / 0x1_0000 * 0x1_0000 + PendingByte(cause, irq, timer) * 0x100 + cause % 0x100
  }

  /** Cause with its pending bits refreshed from the lines. */
  function RefreshPending(s: Core): U32 {
    WithPending(s.cop0.cause, s.irq, s.compareIntr)
  }

  function PollTimer(env: Env, s: Core): Core {
    var s1 := s.(cop0 := s.cop0.(cause := RefreshPending(s)));
    var (c, crossed) := CheckCompare(s1.cop0, s.total / 2);
    var s2 := s1.(cop0 := c);
    if crossed then CheckInterrupt(env, s2.(compareIntr := true)) else s2
  }

  /** PollTimer in two halves: the register updates, then the interrupt. */
  function TimerRegs(s: Core): (Cop0Regs, bool) {
    CheckCompare(s.cop0.(cause := RefreshPending(s)), s.total / 2)
  }

  /** PollTimer from the registers it computes. */
  lemma PollTimerIs(env: Env, s: Core)
    ensures var (c, crossed) := TimerRegs(s);
            PollTimer(env, s) == if crossed then CheckInterrupt(env, s.(cop0 := c, compareIntr := true))
                else s.(cop0 := c)
  {
    hide CheckInterrupt, CheckCompare, RefreshPending;
  }

  /** One poll: CheckInterrupt then CheckCompare. A panic ends it. */
  function Poll(env: Env, s: Core): Core {
    if s.status != Running then s
    else
      var s1 := CheckInterrupt(env, s);
      if s1.status != Running then s1 else PollTimer(env, s1)
  }

  // ---------------------------------------------------------------- instructions

  predicate CopEnabled(s: Core, cop: int)
    requires 0 <= cop < 4
  {
    cop == 0 || s.cop0.sr / (if cop == 1 then 0x2000_0000 else if cop == 2 then 0x4000_0000 else 0x8000_0000) % 2 == 1
  }

  function RaiseCop(env: Env, s: Core, cop: int): Core {
    TriggerException(env, s.(copCause := cop), CopUnusable)
  }

  function BranchOffset(raw: U32): int { ImmSigned(raw) * 4 }

  function JumpRel(s: Core, offset: int): Core {
    s.(hasBd := true, bdDst := Wrap64(s.pc + 4 + offset))
  }

  function Jump(s: Core, dst: U64): Core {
    s.(hasBd := true, bdDst := dst)
  }

  /** Link registers hold the sign-extended low word of the return address. */
  function LinkForJump(d: Data, pc: U64, reg: RegIndex): Data {
    d.(gpr := SetReg(d.gpr, reg, Sext32(Wrap32(pc + 8))))
  }

  predicate IsCopBranch(id: InstId) {
    id.KBcf? || id.KBcfl? || id.KBct? || id.KBctl?
  }

  predicate IsCondBranch(id: InstId) {
    HasDelaySlot(id) && !id.KJ? && !id.KJal? && !id.KJr? && !id.KJalr?
  }

  predicate IsLikely(id: InstId) {
    match id
    case KBcfl | KBctl | KBeql | KBnel | KBgezl | KBgezall | KBgtzl | KBlezl | KBltzl | KBltzall => true
    case _ => false
  }

  predicate IsLinkingBranch(id: InstId) {
    id.KBgezal? || id.KBltzal? || id.KBgezall? || id.KBltzall?
  }

  predicate BranchTaken(id: InstId, raw: U32, gpr: Regs, flag: bool) {
    var rs, rt := Signed64(gpr[Rs(raw)]), Signed64(gpr[Rt(raw)]);
    match id
    case KBeq | KBeql => rs == rt
    case KBne | KBnel => rs != rt
    case KBgtz | KBgtzl => rs > 0
    case KBlez | KBlezl => rs <= 0
    case KBgez | KBgezal | KBgezl | KBgezall => rs >= 0
    case KBltz | KBltzal | KBltzl | KBltzall => rs < 0
    case KBct | KBctl => flag
    case _ => !flag
  }

  /** The condition flag of a coprocessor: only the FPU has one. */
  predicate CopFlag(s: Core, cop: int) {
    cop == 1 && s.fpFlag
  }

  /** Credit for spinning: 100 cycles when the delay slot is a nop. */
  function IdleBonus(env: Env, s: Core): Core {
    match FetchWord(env, Wrap64(s.pc + 4))
    case None => Panic(s)
    case Some(slot) => if slot == 0 then s.(total := s.total + 100) else s
  }

  /** A conditional branch whose condition is known. */
  function TakeBranch(s: Core, id: InstId, raw: U32, taken: bool): Core {
    if s.status != Running then s
    else if taken then JumpRel(s, BranchOffset(raw))
    else if IsLikely(id) then s.(nextPc := Wrap64(s.pc + 8))
    else s
  }

  predicate RaisesCop(s: Core, id: InstId, raw: U32) {
    IsCopBranch(id) && !CopEnabled(s, CopId(raw))
  }

  function BranchCore(env: Env, s: Core, id: InstId, raw: U32, taken: bool): Core {
    if RaisesCop(s, id, raw) then RaiseCop(env, s, CopId(raw))
    else TakeBranch(if raw == IDLE_BRANCH then IdleBonus(env, s) else s, id, raw, taken)
  }

  function ExecCondBranch(env: Env, s: Cpu, id: InstId, raw: U32): Cpu {
    var taken := BranchTaken(id, raw, s.data.gpr, CopFlag(s.core, CopId(raw)));
    var core := BranchCore(env, s.core, id, raw, taken);
    Cpu(if IsLinkingBranch(id) && core.status == Running then LinkForJump(s.data, s.core.pc, 31) else s.data, core)
  }

  /** The 28-bit target in the segment of the delay slot. */
  function JumpTarget(pc: U64, raw: U32): U32 {
    Wrap32(pc + 4) / 0x1000_0000 * 0x1000_0000 + raw % 0x400_0000 * 4
  }

  /** J, JAL, JR and JALR given the value of the register operand; an unaligned target panics. */
  function JumpCore(env: Env, s: Core, id: InstId, raw: U32, reg: U64): Core {
    var dst := JumpTarget(s.pc, raw);
    if id.KJ? then (if dst == s.pc then IdleBonus(env, Jump(s, dst)) else Jump(s, dst))
    else if id.KJal? then Jump(s, dst)
    else if reg % 4 != 0 then Panic(s)
    else Jump(s, reg)
  }

  function ExecJump(env: Env, s: Cpu, id: InstId, raw: U32): Cpu {
    var core := JumpCore(env, s.core, id, raw, s.data.gpr[Rs(raw)]);
    var linked :=
      if core.status != Running then s.data
      else if id.KJal? then LinkForJump(s.data, s.core.pc, 31)
      else if id.KJalr? then LinkForJump(s.data, s.core.pc, Rd(raw))
      else s.data;
    Cpu(linked, core)
  }

  /** Commands to coprocessor 0; the TLB commands are modelled with the TLB. */
  function ExecCommand(s: Core, raw: U32): Core {
    var command := raw % 64;
    if command == 0x18 then
      var (c, target) := Eret(s.cop0);
      s.(cop0 := c, pc := target, nextPc := target, llbit := false)
    else if command == 0x10 then s.(cop0 := Rfe(s.cop0))
    else if command == 1 || command == 2 || command == 6 || command == 8 then s.(status := Unmodelled)
    else s
  }

  predicate Is32BitMove(id: InstId) { id.KMfc? || id.KMtc? }

  predicate IsMoveFrom(id: InstId) { id.KMfc? || id.KDmfc? }

  predicate IsMoveTo(id: InstId) { id.KMtc? || id.KDmtc? }

  /** mfc0/dmfc0; the 32-bit form sign-extends the low word. */
  function ExecMoveFrom(s: Cpu, is32: bool, idx: RegIndex, rt: RegIndex): Cpu {
    if IsTlbRegister(idx) then s.(core := s.core.(status := Unmodelled))
    else
      var (c, v) := Read(s.core.cop0, idx, s.core.total / 2);
      var w: U64 := if is32 then Sext32(Low32(v)) else v;
      Cpu(s.data.(gpr := SetReg(s.data.gpr, rt, w)), s.core.(cop0 := c))
  }

  /** mtc0/dmtc0; writing Compare drops the latched timer interrupt. */
  function ExecMoveTo(s: Core, is32: bool, idx: RegIndex, value: U64): Core {
    if IsTlbRegister(idx) then s.(status := Unmodelled)
    else
      var v: U64 := if is32 then Low32(value) else value;
      s.(cop0 := Write(s.cop0, idx, v, is32, s.total / 2), compareIntr := s.compareIntr && idx != 11)
  }

  function ExecMove(s: Cpu, id: InstId, raw: U32): Cpu {
    if id.KCfc? then s.(data := s.data.(gpr := SetReg(s.data.gpr, Rt(raw), 0)))
    else if id.KCtc? then s
    else if id.KMfc? || id.KDmfc? then ExecMoveFrom(s, Is32BitMove(id), Rd(raw), Rt(raw))
    else s.(core := ExecMoveTo(s.core, Is32BitMove(id), Rd(raw), s.data.gpr[Rt(raw)]))
  }

  /** Coprocessor instructions; only coprocessor 0 is modelled beyond the usability check. */
  function ExecCop(env: Env, s: Cpu, id: InstId, raw: U32): Cpu {
    if !CopEnabled(s.core, CopId(raw)) then s.(core := RaiseCop(env, s.core, CopId(raw)))
    else if CopId(raw) != 0 then s.(core := s.core.(status := Unmodelled))
    else if id.KCop? then s.(core := ExecCommand(s.core, raw))
    else ExecMove(s, id, raw)
  }

  function SetBadVAddr(s: Core, bad: Option<U64>): Core {
    if bad.Some? then s.(cop0 := s.cop0.(badVAddr := bad.value)) else s
  }

  function CommitCore(env: Env, s: Core, o: Outcome): Core {
    match o
    case Done(_) => s
    case Fatal => Panic(s)
    case Raise(cause, bad) => TriggerException(env, SetBadVAddr(s, bad), cause)
  }

  function Commit(env: Env, s: Cpu, o: Outcome): Cpu {
    Cpu(if o.Done? then o.data else s.data, CommitCore(env, s.core, o))
  }

  /** An instruction that only computes on registers and memory. */
  function ExecRegular(env: Env, s: Cpu, raw: U32): Cpu {
    Commit(env, s, Compute(env.tlb, env.config.strict, raw, s.data))
  }

  function ExecUnaligned(env: Env, s: Cpu, id: InstId, raw: U32): Cpu
    requires IsUnalignedLoad(id) || IsUnalignedStore(id)
  {
    Commit(env, s, Unaligned(env.tlb, id, raw, s.data))
  }

  predicate IsCopInst(id: InstId) {
    match id
    case KCop | KMfc | KDmfc | KCfc | KMtc | KDmtc | KCtc | KLwc | KSwc | KLdc | KSdc => true
    case _ => false
  }

  predicate IsNoOp(id: InstId) {
    id.KNop? || id.KSync? || id.KCache?
  }

  /** The handler that GetInstFuncPtr selects for an opcode. Invalidation by CACHE is the block cache's. */
  function Exec(env: Env, s: Cpu, raw: U32): Cpu {
    var id := Decode(raw);
    if IsNoOp(id) then s
    else if IsCondBranch(id) then ExecCondBranch(env, s, id, raw)
    else if HasDelaySlot(id) then ExecJump(env, s, id, raw)
    else if id.KSyscall? then s.(core := TriggerException(env, s.core, Syscall))
    else if id.KBreak? then s.(core := TriggerException(env, s.core, Breakpoint))
    else if IsCopInst(id) then ExecCop(env, s, id, raw)
    else ExecRegular(env, s, raw)
  }

  /** Equal states, except that a stopped CPU's registers and memory are not observed. */
  predicate SameRun(r: Cpu, q: Cpu) {
    r.core == q.core && (r.core.status == Running ==> r.data == q.data)
  }

  // ---------------------------------------------------------------- the plain step

  /** Consume a pending branch. */
  function Prepare(s: Core): Core {
    if s.hasBd then s.(nextPc := s.bdDst, hasBd := false) else s.(nextPc := Wrap64(s.pc + 4))
  }

  function Charge(s: Core, n: nat): Core {
    s.(total := s.total + (s.cpiCounter + n) / 256, cpiCounter := (s.cpiCounter + n) % 256)
  }

  /** Advance to the next instruction and account for this one. */
  function Retire(s: Core, n: nat): Core {
    if s.status != Running then s else Charge(s.(pc := s.nextPc), n)
  }

  /** RunInst: fetch, execute, advance, charge. */
  function Step(env: Env, s: Cpu): Cpu {
    if s.core.status != Running then s
    else
      match FetchWord(env, s.core.pc)
      case None => s.(core := Panic(s.core))
      case Some(raw) =>
        var s1 := Exec(env, s.(core := Prepare(s.core)), raw);
        s1.(core := Retire(s1.core, env.config.cpi))
  }

  lemma StepIs(env: Env, s: Cpu, raw: U32)
    requires s.core.status == Running && FetchWord(env, s.core.pc) == Some(raw)
    ensures var r := Exec(env, s.(core := Prepare(s.core)), raw);
            Step(env, s) == r.(core := Retire(r.core, env.config.cpi))
  {
    hide Exec, FetchWord, Prepare, Retire;
  }

  function Steps(env: Env, s: Cpu, n: nat): Cpu
    decreases n
  {
    if n == 0 then s else Steps(env, Step(env, s), n - 1)
  }

  lemma {:induction false} StepsAdd(env: Env, s: Cpu, m: nat, n: nat)
    ensures Steps(env, s, m + n) == Steps(env, Steps(env, s, m), n)
    decreases m
  {
    hide Step;
    if m > 0 { StepsAdd(env, Step(env, s), m - 1, n); }
  }

  lemma {:induction false} StepsOneMore(env: Env, s: Cpu, n: nat)
    ensures Steps(env, s, n + 1) == Step(env, Steps(env, s, n))
  {
    hide Step;
    StepsAdd(env, s, n, 1);
    assert Steps(env, Steps(env, s, n), 1) == Steps(env, Step(env, Steps(env, s, n)), 0);
  }

  /** A halted CPU lets time pass. */
  function Idle(s: Cpu, cycles: nat): Cpu {
    s.(core := s.core.(total := s.core.total + cycles))
  }
}
