/**
 * Where the cached and the plain interpreter part. The plain CPU p has been charged for instructions that
 * the cached CPU c has executed in its block but not paid for, and only c masks pc; an instruction has the
 * same effect on both exactly under the condition `Meets`, which can be checked before it executes.
 */
module Parting {
  import opened Words
  import opened Decoder
  import opened Cop0
  import opened Handlers
  import opened Machine
  import opened Simulation

  /** c and p are about to execute the same instruction. */
  predicate Ready(c: Cpu, p: Cpu) {
    && c.core.status == Running && c.data == p.data && Mid(c.core) == Mid(p.core)
    && c.core.total <= p.core.total < c.core.total + 0x1_0000_0000
  }

  function Now(s: Cpu): nat { s.core.total / 2 }

  /**
   * Reads and writes of Count need equal clocks, unless the value goes to r0 or the write happens to land on
   * the same base; dmfc0 of EPC needs equal upper halves; a spinning J needs both pcs, or neither, to
   * be without upper half.
   */
  predicate Meets(env: Env, c: Cpu, p: Cpu, raw: U32) {
    var id, regs, m, n := Decode(raw), c.core.cop0, Now(c), Now(p);
    if IsIdleJump(env, Low32(c.core.pc), raw) then c.core.pc < 0x1_0000_0000 <==> p.core.pc < 0x1_0000_0000
    else if !ReadsClockOrWideEpc(raw) then true
    else if Rd(raw) == 14 then Rt(raw) == 0 || regs.epc == p.core.cop0.epc
    else if IsMoveFrom(id) then m == n || (Rt(raw) == 0 && regs.countStart <= m)
    else
      var v := Low32(c.data.gpr[Rt(raw)]);
      m == n || (regs.suppress && m < v <= n && n - v == m)
  }

  /** Programs without such instructions never part. */
  lemma ComparableMeets(env: Env, c: Cpu, p: Cpu, raw: U32)
    requires Comparable(env, Low32(c.core.pc), raw)
    ensures Meets(env, c, p, raw)
  {
    hide IsIdleJump, ReadsClockOrWideEpc, Low32;
  }

  /** r and q are what one instruction makes of c and p; they agree again. */
  predicate Together(c: Cpu, p: Cpu, r: Cpu, q: Cpu) {
    && r.core.status == q.core.status
    && (r.core.status == Running ==> r.data == q.data && Mid(r.core) == Mid(q.core))
    && r.core.total - c.core.total == q.core.total - p.core.total
    && r.core.cpiCounter == c.core.cpiCounter && q.core.cpiCounter == p.core.cpiCounter
  }

  /** They differ in the status, a register, coprocessor 0, or the time the instruction took. */
  predicate Apart(c: Cpu, p: Cpu, r: Cpu, q: Cpu) {
    || r.core.status != q.core.status
    || (r.core.status == Running
        && (|| r.data != q.data
            || LowEpc(r.core.cop0) != LowEpc(q.core.cop0)
            || (&& r.core.total - c.core.total != q.core.total - p.core.total
                && r.core.cpiCounter == c.core.cpiCounter && q.core.cpiCounter == p.core.cpiCounter)))
  }

  predicate Settled(c: Cpu, p: Cpu, r: Cpu, q: Cpu, meets: bool) {
    if meets then Together(c, p, r, q) else Apart(c, p, r, q)
  }

  // ---------------------------------------------------------------- a spinning jump

  lemma SelfJump(env: Env, s: Core, raw: U32, reg: U64)
    requires JumpTarget(s.pc, raw) == Low32(s.pc)
    ensures var r := Jump(s, Low32(s.pc));
            JumpCore(env, s, KJ, raw, reg) == if s.pc < 0x1_0000_0000 then IdleBonus(env, r) else r
  {
    hide JumpTarget, IdleBonus, Jump;
  }

  lemma JumpFields(s: Core, dst: U64)
    ensures var r := Jump(s, dst);
            r.pc == s.pc && r.status == s.status && r.total == s.total && r.cpiCounter == s.cpiCounter
  {
  }

  lemma JumpsMeet(s: Core, q: Core, dst: U64)
    requires Mid(s) == Mid(q)
    ensures Mid(Jump(s, dst)) == Mid(Jump(q, dst))
  {
    hide Low32;
  }

  lemma MidFields(s: Core, q: Core)
    requires Mid(s) == Mid(q)
    ensures Low32(s.pc) == Low32(q.pc) && s.status == q.status && LowEpc(s.cop0) == LowEpc(q.cop0)
    ensures s.compareIntr == q.compareIntr
  {
    hide Low32;
  }

  /** What the idle test grants at a spinning jump. */
  lemma SpinEffect(env: Env, s: Core, raw: U32, reg: U64)
    requires env.tlb.Normal? && s.status == Running && IsIdleJump(env, Low32(s.pc), raw)
    ensures var r := JumpCore(env, s, KJ, raw, reg);
            var low := s.pc < 0x1_0000_0000;
            var miss := FetchWord(env, Low32(s.pc) + 4).None?;
            && r.status == (if low && miss then Panicked else Running)
            && (r.status == Running ==> Mid(r) == Mid(Jump(s, Low32(s.pc))))
            && r.total == s.total + (if low && !miss then 100 else 0) && r.cpiCounter == s.cpiCounter
  {
    hide JumpTarget, FetchWord, Wrap64, Low32, Decode, IdleBonus, Mid, JumpCore, Jump;
    JumpTargetLow(s.pc, raw);
    IdleSlot(env, s.pc);
    SelfJump(env, s, raw, reg);
    JumpFields(s, Low32(s.pc));
    IdleBonusEffect(env, Jump(s, Low32(s.pc)));
  }

  lemma JumpIs(env: Env, s: Cpu, raw: U32)
    requires Decode(raw).KJ?
    ensures Exec(env, s, raw) == Cpu(s.data, JumpCore(env, s.core, KJ, raw, s.data.gpr[Rs(raw)]))
  {
    hide Decode, JumpCore;
  }

  lemma SpinMeets(env: Env, c: Cpu, p: Cpu, raw: U32)
    requires env.tlb.Normal? && Ready(c, p) && IsIdleJump(env, Low32(c.core.pc), raw)
    ensures Settled(c, p, Exec(env, c, raw), Exec(env, p, raw),
                    c.core.pc < 0x1_0000_0000 <==> p.core.pc < 0x1_0000_0000)
  {
    hide JumpTarget, FetchWord, Low32, Decode, Mid, JumpCore, Exec, IsIdleJump, Rs;
    MidFields(c.core, p.core);
    SpinIsJump(env, Low32(c.core.pc), raw);
    JumpIs(env, c, raw);
    JumpIs(env, p, raw);
    SpinEffect(env, c.core, raw, c.data.gpr[Rs(raw)]);
    SpinEffect(env, p.core, raw, p.data.gpr[Rs(raw)]);
    JumpsMeet(c.core, p.core, Low32(c.core.pc));
  }

  lemma SpinIsJump(env: Env, v: U32, raw: U32)
    requires IsIdleJump(env, v, raw)
    ensures Decode(raw).KJ?
  {
    hide Decode;
  }

  // ---------------------------------------------------------------- moves

  lemma MoveIsCop(id: InstId)
    requires IsMoveFrom(id) || IsMoveTo(id)
    ensures IsCopInst(id) && !id.KCop? && !id.KCfc? && !id.KCtc? && !(IsMoveFrom(id) && IsMoveTo(id))
  {
  }

  lemma CopIsNothingElse(id: InstId)
    requires IsCopInst(id)
    ensures !IsNoOp(id) && !HasDelaySlot(id) && !IsCondBranch(id) && !id.KSyscall? && !id.KBreak?
  {
  }

  lemma MoveKinds(id: InstId)
    requires IsMoveFrom(id) || IsMoveTo(id)
    ensures IsCopInst(id) && !id.KCop? && !id.KCfc? && !id.KCtc? && !IsNoOp(id) && !HasDelaySlot(id)
    ensures !IsCondBranch(id) && !id.KSyscall? && !id.KBreak? && !(IsMoveFrom(id) && IsMoveTo(id))
  {
    MoveIsCop(id);
    CopIsNothingElse(id);
    hide *;
  }

  lemma MoveIs(env: Env, s: Cpu, raw: U32)
    requires CopId(raw) == 0 && (IsMoveFrom(Decode(raw)) || IsMoveTo(Decode(raw)))
    ensures Exec(env, s, raw) == ExecMove(s, Decode(raw), raw)
  {
    MoveKinds(Decode(raw));
    hide Decode, ExecMove, CopId, IsCopInst, IsNoOp, HasDelaySlot, IsCondBranch, IsMoveFrom, IsMoveTo;
  }

  lemma MoveFromIs(env: Env, s: Cpu, raw: U32)
    requires CopId(raw) == 0 && IsMoveFrom(Decode(raw)) && (Rd(raw) == 9 || Rd(raw) == 14)
    ensures var (regs, v) := Read(s.core.cop0, Rd(raw), Now(s));
            var w: U64 := if Is32BitMove(Decode(raw)) then Sext32(Low32(v)) else v;
            Exec(env, s, raw) == Cpu(s.data.(gpr := SetReg(s.data.gpr, Rt(raw), w)), s.core.(cop0 := regs))
  {
    MoveIs(env, s, raw);
    MoveKinds(Decode(raw));
    hide Exec, Decode, CopId, Read, SetReg, Sext32, Low32, Rd, Rt, IsMoveTo, IsCopInst;
  }

  lemma MoveToIs(env: Env, s: Cpu, raw: U32)
    requires CopId(raw) == 0 && IsMoveTo(Decode(raw)) && Rd(raw) == 9
    ensures Exec(env, s, raw)
            == s.(core := s.core.(cop0 := WriteCount(s.core.cop0, Low32(s.data.gpr[Rt(raw)]), Now(s))))
  {
    MoveIs(env, s, raw);
    MoveKinds(Decode(raw));
    var v := s.data.gpr[Rt(raw)];
    assert Low32(Low32(v)) == Low32(v) by { LowOfLow(v); }
    hide Exec, Decode, CopId, WriteCount, Low32, Rd, Rt, IsMoveFrom, IsCopInst;
    assert s.core.(cop0 := s.core.cop0, compareIntr := s.core.compareIntr && true) == s.core;
  }

  /** Reads of Count at two times from the same base. */
  lemma CountReadsMeet(x: Cop0Regs, y: Cop0Regs, m: nat, n: nat)
    requires LowEpc(x) == LowEpc(y) && m <= n < m + 0x8000_0001
    ensures LowEpc(ReadCount(x, m).0) == LowEpc(ReadCount(y, n).0) <==> m == n || x.countStart <= m
    ensures (ReadCount(x, m).1 == ReadCount(y, n).1 && LowEpc(ReadCount(x, m).0) == LowEpc(ReadCount(y, n).0)) <==>
            m == n
  {
    hide Low32;
    assert x.countStart == y.countStart;
    WrapsDiffer(m - x.countStart, n - x.countStart);
  }

  lemma WrapsDiffer(x: int, y: int)
    requires x <= y < x + 0x1_0000_0000
    ensures Wrap32(x) == Wrap32(y) <==> x == y
  {
  }

  lemma CountWritesMeet(x: Cop0Regs, y: Cop0Regs, v: U32, m: nat, n: nat)
    requires LowEpc(x) == LowEpc(y) && m <= n
    ensures LowEpc(WriteCount(x, v, m)) == LowEpc(WriteCount(y, v, n))
            <==> m == n || (x.suppress && m < v <= n && n - v == m)
  {
    hide Low32;
  }

  /** The moved word determines the register it came from. */
  lemma MovedWords(x: U32, y: U32)
    ensures Sext32(Low32(x)) == Sext32(Low32(y)) <==> x == y
  {
  }

  lemma SetRegDiffers(gpr: Regs, i: RegIndex, x: U64, y: U64)
    ensures SetReg(gpr, i, x) == SetReg(gpr, i, y) <==> i == 0 || x == y
  {
    if i != 0 { assert SetReg(gpr, i, x)[i] == x && SetReg(gpr, i, y)[i] == y; }
  }

  lemma SetCop0Meets(s: Core, q: Core, x: Cop0Regs, y: Cop0Regs)
    requires Mid(s) == Mid(q)
    ensures Mid(s.(cop0 := x)) == Mid(q.(cop0 := y)) <==> LowEpc(x) == LowEpc(y)
  {
    hide LowEpc, Low32;
  }

  lemma Halves(x: nat, y: nat)
    requires x <= y < x + 0x1_0000_0000
    ensures x / 2 <= y / 2 < x / 2 + 0x8000_0001
  {
  }

  lemma ReadMeets(env: Env, c: Cpu, p: Cpu, raw: U32)
    requires Ready(c, p) && CopId(raw) == 0 && IsMoveFrom(Decode(raw)) && Rd(raw) == 9
    ensures Settled(c, p, Exec(env, c, raw), Exec(env, p, raw),
                    Now(c) == Now(p) || (Rt(raw) == 0 && c.core.cop0.countStart <= Now(c)))
  {
    hide Exec, Decode, CopId, SetReg, Sext32, Low32, Rt, Mid, LowEpc, ReadCount, Rd, Is32BitMove, IsMoveFrom;
    MoveFromIs(env, c, raw);
    MoveFromIs(env, p, raw);
    var (x, v) := ReadCount(c.core.cop0, Now(c));
    var (y, w) := ReadCount(p.core.cop0, Now(p));
    MidFields(c.core, p.core);
    Halves(c.core.total, p.core.total);
    CountReadsMeet(c.core.cop0, p.core.cop0, Now(c), Now(p));
    SetCop0Meets(c.core, p.core, x, y);
    MovedWords(v, w);
    SetRegDiffers(c.data.gpr, Rt(raw), Sext32(Low32(v)), Sext32(Low32(w)));
    SetRegDiffers(c.data.gpr, Rt(raw), v, w);
  }

  lemma EpcMeets(env: Env, c: Cpu, p: Cpu, raw: U32)
    requires Ready(c, p) && CopId(raw) == 0 && Decode(raw).KDmfc? && Rd(raw) == 14
    ensures Settled(c, p, Exec(env, c, raw), Exec(env, p, raw), Rt(raw) == 0 || c.core.cop0.epc == p.core.cop0.epc)
  {
    hide Exec, Decode, CopId, SetReg, Sext32, Low32, Rt, Mid, LowEpc, Rd;
    MoveFromIs(env, c, raw);
    MoveFromIs(env, p, raw);
    MidFields(c.core, p.core);
    SetCop0Meets(c.core, p.core, c.core.cop0, p.core.cop0);
    SetRegDiffers(c.data.gpr, Rt(raw), c.core.cop0.epc, p.core.cop0.epc);
  }

  lemma WriteMeets(env: Env, c: Cpu, p: Cpu, raw: U32)
    requires Ready(c, p) && CopId(raw) == 0 && IsMoveTo(Decode(raw)) && Rd(raw) == 9
    ensures var v := Low32(c.data.gpr[Rt(raw)]);
            Settled(c, p, Exec(env, c, raw), Exec(env, p, raw),
                    Now(c) == Now(p) || (c.core.cop0.suppress && Now(c) < v <= Now(p) && Now(p) - v == Now(c)))
  {
    hide Exec, Decode, CopId, Low32, Rt, Mid, LowEpc, WriteCount, Rd, IsMoveTo;
    MoveToIs(env, c, raw);
    MoveToIs(env, p, raw);
    var v := Low32(c.data.gpr[Rt(raw)]);
    MidFields(c.core, p.core);
    Halves(c.core.total, p.core.total);
    CountWritesMeet(c.core.cop0, p.core.cop0, v, Now(c), Now(p));
    SetCop0Meets(c.core, p.core, WriteCount(c.core.cop0, v, Now(c)), WriteCount(p.core.cop0, v, Now(p)));
  }

  // ---------------------------------------------------------------- every instruction

  /** Comparable instructions have the same effect on both. */
  lemma ExecAlike(env: Env, c: Cpu, p: Cpu, raw: U32)
    requires env.tlb.Normal? && Ready(c, p) && Comparable(env, Low32(c.core.pc), raw)
    ensures Together(c, p, Exec(env, c, raw), Exec(env, p, raw))
  {
    hide Exec, Mid, Comparable, Low32;
    MidKeeps(c.core);
    MidKeeps(p.core);
    ExecAgrees(env, c, raw);
    ExecAgrees(env, p, raw);
  }

  /** Every instruction keeps the two CPUs together exactly when it meets the condition. */
  lemma ExecMeetsExactly(env: Env, c: Cpu, p: Cpu, raw: U32)
    requires env.tlb.Normal? && Ready(c, p)
    ensures Settled(c, p, Exec(env, c, raw), Exec(env, p, raw), Meets(env, c, p, raw))
  {
    hide Exec, Mid, Low32, Decode, IsIdleJump, Rt, Rd, CopId, Together, Apart, Now, IsMoveFrom, IsMoveTo;
    if IsIdleJump(env, Low32(c.core.pc), raw) {
      SpinMeets(env, c, p, raw);
    } else if !ReadsClockOrWideEpc(raw) {
      ExecAlike(env, c, p, raw);
    } else if Rd(raw) == 14 {
      EpcMeets(env, c, p, raw);
    } else if IsMoveFrom(Decode(raw)) {
      ReadMeets(env, c, p, raw);
    } else {
      WriteMeets(env, c, p, raw);
    }
  }
}
