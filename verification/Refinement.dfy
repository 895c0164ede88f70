/**
 * The cached interpreter executes the plain one: the simulation between a CPU in the middle of a block
 * and a CPU that steps one instruction at a time, at block boundaries and polls, and what a block can earn.
 */
module Refinement {
  import opened Words
  import opened Decoder
  import opened Cop0
  import opened Handlers
  import opened Machine
  import opened Blocks
  import opened Simulation
  import opened Parting
  import opened Cycles

  /** next_pc_ is dead between instructions. */
  function Arch(s: Core): Core { Mid(s).(nextPc := 0) }

  /**
   * c has executed n instructions of a block that are not charged yet; p has been charged for them.
   * Registers, memory, Cop0, pending branch and lines agree, addresses modulo 2^32.
   */
  predicate InBlock(env: Env, c: Cpu, p: Cpu, n: nat) {
    && c.core.status == p.core.status
    && (c.core.status == Running ==>
          && c.data == p.data && Arch(c.core) == Arch(p.core)
          && Credit(p.core) == Credit(c.core) + n * env.config.cpi
          && c.core.cpiCounter < 256 && p.core.cpiCounter < 256)
  }

  /** At a block boundary the clocks agree exactly. */
  predicate Similar(env: Env, c: Cpu, p: Cpu) {
    InBlock(env, c, p, 0)
  }

  /** A cached CPU may be compared with itself. */
  lemma SimilarToItself(env: Env, s: Cpu)
    requires s.core.status == Running ==> s.core.cpiCounter < 256
    ensures Similar(env, s, s)
  {
    hide Arch;
  }

  /** The program uses only instructions the two interpreters are compared on. */
  ghost predicate ComparableProgram(env: Env) {
    forall v: U32, raw: U32 :: WordAt(env, v) == Some(raw) ==> Comparable(env, v, raw)
  }

  // ---------------------------------------------------------------- one entry of a block

  /** One pass of the entry loop: no fetch, a masked pc, and no charge (src/mips_base.cpp:344-357). */
  function EntryStep(env: Env, s: Cpu, raw: U32): Cpu {
    var r := Exec(env, s.(core := Prepare(s.core)), raw);
    if r.core.status != Running then r else r.(core := r.core.(pc := Low32(r.core.nextPc)))
  }

  lemma PrepareAgrees(c: Core, p: Core)
    requires Arch(c) == Arch(p)
    ensures Mid(Prepare(c)) == Mid(Prepare(p))
    ensures Prepare(c).pc == c.pc && Prepare(p).pc == p.pc && Prepare(c).status == c.status
    ensures Prepare(c).total == c.total && Prepare(c).cpiCounter == c.cpiCounter
  {
    hide Low32, Wrap64;
    LowOfSum(c.pc, 4);
    LowOfSum(p.pc, 4);
  }

  lemma RetireCredit(s: Core, n: nat)
    requires s.status == Running
    ensures Credit(Retire(s, n)) == Credit(s) + n && Retire(s, n).cpiCounter < 256
    ensures Retire(s, n) == s.(pc := s.nextPc, total := Retire(s, n).total, cpiCounter := Retire(s, n).cpiCounter)
  {
  }

  lemma AdvanceAlike(r: Core, q: Core, n: nat)
    requires Mid(r) == Mid(q) && q.status == Running
    ensures Arch(r.(pc := Low32(r.nextPc))) == Arch(Retire(q, n))
  {
    RetireCredit(q, n);
    hide Retire, Low32;
    LowOfLow(r.nextPc);
  }

  /** The clocks of a block in progress are at most 64 charges apart. */
  lemma ClockBounds(env: Env, c: Cpu, p: Cpu, n: nat)
    requires InBlock(env, c, p, n) && n < MAX_LENGTH && c.core.status == Running
    ensures c.core.total <= p.core.total < c.core.total + 0x1_0000_0000
  {
    hide Arch;
    assert n * env.config.cpi <= MAX_LENGTH * 0x1_0000 by { SmallProduct(n, env.config.cpi); }
  }

  lemma SmallProduct(n: nat, k: nat)
    requires n <= MAX_LENGTH && k <= 0x1_0000
    ensures 0 <= n * k <= MAX_LENGTH * 0x1_0000
  {
    assert n * k <= MAX_LENGTH * k;
  }

  lemma PreparedMeets(env: Env, c: Cpu, p: Cpu, raw: U32)
    ensures Meets(env, c.(core := Prepare(c.core)), p.(core := Prepare(p.core)), raw) == Meets(env, c, p, raw)
  {
    hide IsIdleJump, ReadsClockOrWideEpc, Low32, Wrap64, Decode, Rd, Rt;
  }

  /** Two completed instructions that left the CPUs together. */
  lemma AdvanceTogether(env: Env, c: Cpu, p: Cpu, r: Cpu, q: Cpu, n: nat)
    requires Together(c, p, r, q) && r.core.status == Running && c.core.cpiCounter < 256
    requires Credit(p.core) == Credit(c.core) + n * env.config.cpi
    ensures InBlock(env, r.(core := r.core.(pc := Low32(r.core.nextPc))), q.(core := Retire(q.core, env.config.cpi)),
            n + 1)
  {
    hide Arch, Mid, Retire, Low32;
    RetireCredit(q.core, env.config.cpi);
    AdvanceAlike(r.core, q.core, env.config.cpi);
    assert (n + 1) * env.config.cpi == n * env.config.cpi + env.config.cpi;
  }

  /** ... and two that left them apart. */
  lemma AdvanceApart(env: Env, c: Cpu, p: Cpu, r: Cpu, q: Cpu, n: nat)
    requires Apart(c, p, r, q) && r.core.status == q.core.status
    requires Credit(p.core) == Credit(c.core) + n * env.config.cpi
    ensures !InBlock(env, r.(core := r.core.(pc := Low32(r.core.nextPc))), q.(core := Retire(q.core, env.config.cpi)),
            n + 1)
  {
    hide Retire, Low32, LowEpc;
    RetireCredit(q.core, env.config.cpi);
    assert (n + 1) * env.config.cpi == n * env.config.cpi + env.config.cpi;
  }

  /**
   * One entry of a block keeps the cached CPU in step with one plain step exactly when the instruction meets
   * the condition.
   */
  lemma EntryRefinesStep(env: Env, c: Cpu, p: Cpu, n: nat, raw: U32)
    requires env.tlb.Normal? && InBlock(env, c, p, n) && n < MAX_LENGTH && c.core.status == Running
    requires FetchWord(env, c.core.pc) == Some(raw)
    ensures Meets(env, c, p, raw) <==> InBlock(env, EntryStep(env, c, raw), Step(env, p), n + 1)
  {
    hide Exec, Mid, Low32, Prepare, FetchWord, Retire, Meets;
    ArchKeeps(c.core, p.core);
    SameFetch(env, c.core.pc, p.core.pc);
    PrepareAgrees(c.core, p.core);
    PrepareAgrees(p.core, c.core);
    PreparedMeets(env, c, p, raw);
    ClockBounds(env, c, p, n);
    StepIs(env, p, raw);
    var c1, p1 := c.(core := Prepare(c.core)), p.(core := Prepare(p.core));
    ExecMeetsExactly(env, c1, p1, raw);
    var r, q := Exec(env, c1, raw), Exec(env, p1, raw);
    hide Arch, Together, Apart, Step, InBlock;
    SettledEntry(env, c, p, r, q, n, Meets(env, c, p, raw)) by { CreditGap(env, c, p, n); }
  }

  lemma CreditGap(env: Env, c: Cpu, p: Cpu, n: nat)
    requires InBlock(env, c, p, n) && c.core.status == Running
    ensures Credit(p.core) == Credit(c.core) + n * env.config.cpi && c.core.cpiCounter < 256
  {
    hide Arch;
  }

  lemma SettledEntry(env: Env, c: Cpu, p: Cpu, r: Cpu, q: Cpu, n: nat, meets: bool)
    requires Settled(c.(core := Prepare(c.core)), p.(core := Prepare(p.core)), r, q, meets)
    requires Credit(p.core) == Credit(c.core) + n * env.config.cpi && c.core.cpiCounter < 256
    ensures var x := if r.core.status != Running then r else r.(core := r.core.(pc := Low32(r.core.nextPc)));
            meets <==> InBlock(env, x, q.(core := Retire(q.core, env.config.cpi)), n + 1)
  {
    hide Arch, Low32, Retire, Mid, LowEpc;
    var c1, p1 := c.(core := Prepare(c.core)), p.(core := Prepare(p.core));
    PrepareKeepsClock(c.core);
    PrepareKeepsClock(p.core);
    StoppedOrCharged(q.core, env.config.cpi);
    if r.core.status == Running && q.core.status == Running {
      if meets {
        AdvanceTogether(env, c1, p1, r, q, n);
      } else {
        AdvanceApart(env, c1, p1, r, q, n);
      }
    }
  }

  lemma PrepareKeepsClock(s: Core)
    ensures Credit(Prepare(s)) == Credit(s) && Prepare(s).cpiCounter == s.cpiCounter
  {
  }

  lemma StoppedOrCharged(s: Core, n: nat)
    ensures Retire(s, n).status == s.status
  {
  }

  lemma ArchKeeps(c: Core, p: Core)
    requires Arch(c) == Arch(p)
    ensures Low32(c.pc) == Low32(p.pc) && c.status == p.status && c.hasBd == p.hasBd && c.halt == p.halt
  {
    hide Low32;
  }

  /** Charging the whole block at its end gives the clocks of charging each instruction. */
  lemma BlockEnd(env: Env, c: Cpu, p: Cpu, n: nat)
    requires InBlock(env, c, p, n) && c.core.status == Running
    ensures Similar(env, c.(core := Charge(c.core, n * env.config.cpi)), p)
  {
    hide Low32;
  }

  // ---------------------------------------------------------------- polls

  lemma TriggerIgnoresNext(env: Env, s: Core, cause: Cause)
    requires s.status == Running
    ensures var (r, q) := (TriggerException(env, s, cause), TriggerException(env, s.(nextPc := 0), cause));
            r.status == q.status && (r.status == Running ==> r == q)
    ensures var r := TriggerException(env, s, cause);
            r.total == s.total && r.cpiCounter == s.cpiCounter
  {
    hide FetchWord, Wrap64, DoesInstHaveDelaySlot, EnterException;
    EntryIgnoresNext(s, cause, s.pc, false);
    EntryIgnoresNext(s, cause, Wrap64(s.pc - 4), true);
  }

  lemma EntryIgnoresNext(s: Core, cause: Cause, epc: U64, bd: bool)
    ensures EnterException(s, cause, epc, bd) == EnterException(s.(nextPc := 0), cause, epc, bd)
  {
  }

  /** Two boundary states that agree on everything the poll looks at. */
  predicate Twins(c: Core, p: Core) {
    && c.status == p.status
    && (c.status == Running ==> Arch(c) == Arch(p))
    && c.total == p.total
  }

  /** r came from s without touching the clocks. */
  predicate KeepsClock(s: Core, r: Core) {
    r.total == s.total && r.cpiCounter == s.cpiCounter
  }

  lemma TriggerTwins(env: Env, c: Core, p: Core, cause: Cause)
    requires env.tlb.Normal? && Twins(c, p) && c.status == Running
    ensures Twins(TriggerException(env, c, cause), TriggerException(env, p, cause))
    ensures KeepsClock(c, TriggerException(env, c, cause)) && KeepsClock(p, TriggerException(env, p, cause))
  {
    hide TriggerException, Low32;
    var c0, p0 := c.(nextPc := 0), p.(nextPc := 0);
    TriggerIgnoresNext(env, c, cause);
    TriggerIgnoresNext(env, p, cause);
    TriggerAgrees(env, c0, cause);
    TriggerAgrees(env, p0, cause);
    ZeroNext(c);
    ZeroNext(p);
  }

  lemma ZeroNext(c: Core)
    ensures Mid(c.(nextPc := 0)) == Arch(c)
  {
    LowOfZero();
    hide Low32;
  }

  lemma LowOfZero()
    ensures Low32(0) == 0
  {
  }

  lemma InterruptTwins(env: Env, c: Core, p: Core)
    requires env.tlb.Normal? && Twins(c, p) && c.status == Running
    ensures Twins(CheckInterrupt(env, c), CheckInterrupt(env, p))
    ensures KeepsClock(c, CheckInterrupt(env, c)) && KeepsClock(p, CheckInterrupt(env, p))
  {
    hide TriggerException, Low32, Ie, Exl, Erl, SoftwareBits;
    TriggerTwins(env, c, p, Interrupt);
  }

  lemma TimerTwins(c: Cop0Regs, p: Cop0Regs, now: nat)
    requires LowEpc(c) == LowEpc(p)
    ensures CheckCompare(c, now).1 == CheckCompare(p, now).1
    ensures LowEpc(CheckCompare(c, now).0) == LowEpc(CheckCompare(p, now).0)
  {
    hide Low32, Crossed, CountAt;
    CountsAgree(c, p, now);
    CountsAgree(c, p, c.lastCheck);
  }

  lemma CountsAgree(c: Cop0Regs, p: Cop0Regs, now: int)
    requires c.countStart == p.countStart
    ensures CountAt(c, now) == CountAt(p, now)
  {
  }

  lemma SetCop0Twins(c: Core, p: Core, x: Cop0Regs, y: Cop0Regs, intr: bool)
    requires Twins(c, p) && c.status == Running && LowEpc(x) == LowEpc(y)
    ensures Twins(c.(cop0 := x, compareIntr := c.compareIntr || intr),
            p.(cop0 := y, compareIntr := p.compareIntr || intr))
  {
    hide Low32;
  }

  lemma RefreshTwins(c: Core, p: Core)
    requires Twins(c, p) && c.status == Running
    ensures LowEpc(TimerRegs(c).0) == LowEpc(TimerRegs(p).0) && TimerRegs(c).1 == TimerRegs(p).1
  {
    hide Low32, CheckCompare, SoftwareBits;
    var x, y := c.cop0.(cause := RefreshPending(c)), p.cop0.(cause := RefreshPending(p));
    assert c.cop0.cause == p.cop0.cause && c.irq == p.irq && c.compareIntr == p.compareIntr;
    TimerTwins(x, y, c.total / 2);
  }

  lemma PollTimerTwins(env: Env, c: Core, p: Core)
    requires env.tlb.Normal? && Twins(c, p) && c.status == Running
    ensures Twins(PollTimer(env, c), PollTimer(env, p))
    ensures KeepsClock(c, PollTimer(env, c)) && KeepsClock(p, PollTimer(env, p))
  {
    hide CheckInterrupt, TimerRegs, Arch, LowEpc, PollTimer;
    PollTimerIs(env, c);
    PollTimerIs(env, p);
    RefreshTwins(c, p);
    var x, y := TimerRegs(c), TimerRegs(p);
    SetCop0Twins(c, p, x.0, y.0, x.1);
    if x.1 {
      InterruptTwins(env, c.(cop0 := x.0, compareIntr := true), p.(cop0 := y.0, compareIntr := true));
    } else {
      NoNewLine(c, x.0);
      NoNewLine(p, y.0);
    }
  }

  lemma NoNewLine(s: Core, c: Cop0Regs)
    ensures s.(cop0 := c, compareIntr := s.compareIntr || false) == s.(cop0 := c)
  {
  }

  lemma PollTwins(env: Env, c: Core, p: Core)
    requires env.tlb.Normal? && Twins(c, p) && c.status == Running
    ensures Twins(Poll(env, c), Poll(env, p))
    ensures KeepsClock(c, Poll(env, c)) && KeepsClock(p, Poll(env, p))
  {
    hide CheckInterrupt, PollTimer, Arch;
    InterruptTwins(env, c, p);
    var c1, p1 := CheckInterrupt(env, c), CheckInterrupt(env, p);
    if c1.status == Running {
      PollTimerTwins(env, c1, p1);
    }
  }

  lemma PollIsSimilar(env: Env, c: Cpu, p: Cpu)
    requires env.tlb.Normal? && Similar(env, c, p) && c.core.status == Running
    ensures Similar(env, c.(core := Poll(env, c.core)), p.(core := Poll(env, p.core)))
  {
    hide Poll, Arch;
    PollTwins(env, c.core, p.core);
  }

  // ---------------------------------------------------------------- idle hits inside a block

  /** The most idle hits one block can have. */
  ghost function MaxHits(env: Env): nat {
    if StraightSlots(env) then 1 else 2
  }

  /** Cycles earned by idle hits when i entries of a block have been executed. */
  ghost predicate BonusSoFar(env: Env, es: seq<Entry>, i: nat, bonus: int) {
    || bonus == 0
    || (bonus == 100 && |es| - 1 <= i <= |es| && (i == |es| - 1 ==> i >= 1 && DoesInstHaveDelaySlot(es[i - 1].opcode)))
    || (bonus == 200 && i == |es| && !StraightSlots(env))
  }

  lemma BonusStep(env: Env, v: nat, es: seq<Entry>, i: nat, bonus: int, pc: U64)
    requires MatchesCode(env, v, es) && WellEnded(es) && i < |es| && BonusSoFar(env, es, i, bonus)
    ensures BonusSoFar(env, es, i + 1, bonus + (if Spins(env, pc, es[i].opcode) then 100 else 0))
    ensures bonus + (if Spins(env, pc, es[i].opcode) then 100 else 0) <= 100 * MaxHits(env)
  {
    hide Spins, WordAt, DoesInstHaveDelaySlot, IsInstBranch;
    if Spins(env, pc, es[i].opcode) {
      SpinHasSlot(env, pc, es[i].opcode);
      assert i >= |es| - 2;
      if bonus == 100 {
        assert BranchAt(env, v + 4 * (i - 1)) && BranchAt(env, v + 4 * i);
        assert v + 4 * i == v + 4 * (i - 1) + 4;
      }
    }
  }

  lemma SpinHasSlot(env: Env, pc: U64, raw: U32)
    requires Spins(env, pc, raw)
    ensures DoesInstHaveDelaySlot(raw) && IsInstBranch(raw)
  {
    hide Spins, Decode;
    OnlyBranchesSpin(env, pc, raw);
  }

  lemma EntryTime(env: Env, s: Cpu, raw: U32)
    ensures Elapsed(s.core, EntryStep(env, s, raw).core, if Spins(env, s.core.pc, raw) then 100 else 0)
  {
    hide Exec, Spins;
    ExecTime(env, s.(core := Prepare(s.core)), raw);
  }

  /** The account stays bounded, entry by entry. */
  lemma EntryEarns(env: Env, c: Cpu, r: Cpu, v: nat, es: seq<Entry>, i: nat, bonus: int)
    requires i < |es| && MatchesCode(env, v, es) && WellEnded(es) && BonusSoFar(env, es, i, bonus) && bonus >= 0
    requires SameRun(r, EntryStep(env, c, es[i].opcode))
    ensures BonusSoFar(env, es, i + 1, bonus + r.core.total - c.core.total)
    ensures 0 <= bonus + r.core.total - c.core.total <= 100 * MaxHits(env)
  {
    hide EntryStep, BonusSoFar, MatchesCode, WellEnded, MaxHits, Spins;
    EntryTime(env, c, es[i].opcode);
    BonusStep(env, v, es, i, bonus, c.core.pc);
  }

  /** Charging a finished block: the gain is bounded and positive. */
  lemma ChargeGain(env: Env, c: Core, n: nat, cost: nat)
    requires c.cpiCounter < 256 && 1 <= n <= MAX_LENGTH && cost == n * env.config.cpi
    ensures var r := Charge(c, cost);
            && c.total <= r.total <= c.total + MaxGain(env, MAX_LENGTH, 0) && r.status == c.status
            && Credit(c) + env.config.cpi <= Credit(r) && r.cpiCounter < 256
  {
    Scaled(n, MAX_LENGTH, env.config.cpi);
  }

  lemma Scaled(n: nat, m: nat, k: nat)
    requires 1 <= n <= m
    ensures k <= n * k <= m * k
  {
    assert n * k == k + (n - 1) * k && m * k == n * k + (m - n) * k;
  }

  lemma NoBonusYet(env: Env, es: seq<Entry>)
    ensures BonusSoFar(env, es, 0, 0) && MaxHits(env) >= 1
  {
  }
}
