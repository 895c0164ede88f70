/**
 * What exceptions and polls do, in numbers: the fields of Cause, Status and EPC after an exception, which sources
 * an interrupt is taken for, and what an instruction that only computes makes of the CPU
 * (src/mips_base.cpp:443-562, 945-1029).
 */
module ExceptionMeaning {
  import opened Words
  import opened Bits
  import opened Decoder
  import opened Encoding
  import opened Cop0
  import opened Handlers
  import opened Machine
  import opened Precision
  import opened Interrupts
  import opened TimerRuns
  import Timer

  // ---------------------------------------------------------------- fields of Cause

  function Number(b: bool): int { if b then 1 else 0 }

  /** Cause by its fields: BD, CE, the pending timer and bus interrupts, the software interrupts, ExcCode. */
  predicate CauseIs(c: U32, bd: bool, ce: int, timer: bool, irq: bool, soft: int, code: int) {
    && c / 0x8000_0000 == Number(bd) && c / 0x4000_0000 % 2 == 0 && c / 0x1000_0000 % 4 == ce
    && c / 0x1_0000 % 0x1000 == 0
    && c / 0x8000 % 2 == Number(timer) && c / 0x800 % 16 == 0 && c / 0x400 % 2 == Number(irq)
    && c / 0x100 % 4 == soft && c / 0x80 % 2 == 0 && c / 4 % 32 == code && c % 4 == 0
  }

  lemma CauseFields(bd: bool, ce: int, timer: bool, irq: bool, soft: int, code: int)
    requires 0 <= ce < 4 && 0 <= soft < 4 && 0 <= code < 32
    ensures var c := code * 4 + Number(irq) * 0x400 + Number(timer) * 0x8000 + soft * 0x100
                     + ce * 0x1000_0000 + Number(bd) * 0x8000_0000;
            0 <= c < 0x1_0000_0000 && CauseIs(c, bd, ce, timer, irq, soft, code)
  {
    TopFields(Number(bd), ce, Number(timer) * 0x8000 + Number(irq) * 0x400 + soft * 0x100 + code * 4);
    LineFields(Number(bd) * 8 + ce, Number(timer), Number(irq), soft * 0x100 + code * 4);
    LowFields(Number(bd) * 0x20_0000 + ce * 0x4_0000 + Number(timer) * 32 + Number(irq), soft, code);
  }

  lemma TopFields(bd: nat, ce: nat, rest: nat)
    requires bd < 2 && ce < 4 && rest < 0x1_0000
    ensures var c := bd * 0x8000_0000 + ce * 0x1000_0000 + rest;
            c / 0x8000_0000 == bd && c / 0x4000_0000 % 2 == 0 && c / 0x1000_0000 % 4 == ce && c / 0x1_0000 % 0x1000 == 0
  {
    var c := bd * 0x8000_0000 + ce * 0x1000_0000 + rest;
    QuotientIs(c, 0x8000_0000, bd, ce * 0x1000_0000 + rest);
    QuotientIs(c, 0x4000_0000, bd * 2, ce * 0x1000_0000 + rest);
    QuotientIs(c, 0x1000_0000, bd * 8 + ce, rest);
    QuotientIs(bd * 8 + ce, 4, bd * 2, ce);
    QuotientIs(c, 0x1_0000, (bd * 8 + ce) * 0x1000, rest);
    QuotientIs((bd * 8 + ce) * 0x1000, 0x1000, bd * 8 + ce, 0);
    QuotientIs(bd * 2, 2, bd, 0);
  }

  lemma LineFields(top: nat, timer: nat, irq: nat, rest: nat)
    requires top < 16 && timer < 2 && irq < 2 && rest < 0x400
    ensures var c := top * 0x1000_0000 + timer * 0x8000 + irq * 0x400 + rest;
            c / 0x8000 % 2 == timer && c / 0x800 % 16 == 0 && c / 0x400 % 2 == irq
  {
    var c := top * 0x1000_0000 + timer * 0x8000 + irq * 0x400 + rest;
    QuotientIs(c, 0x8000, top * 0x2000 + timer, irq * 0x400 + rest);
    QuotientIs(top * 0x2000 + timer, 2, top * 0x1000, timer);
    QuotientIs(c, 0x800, top * 0x2_0000 + timer * 16, irq * 0x400 + rest);
    QuotientIs(top * 0x2_0000 + timer * 16, 16, top * 0x2000 + timer, 0);
    QuotientIs(c, 0x400, top * 0x4_0000 + timer * 32 + irq, rest);
    QuotientIs(top * 0x4_0000 + timer * 32 + irq, 2, top * 0x2_0000 + timer * 16, irq);
  }

  lemma LowFields(high: nat, soft: nat, code: nat)
    requires soft < 4 && code < 32
    ensures var c := high * 0x400 + soft * 0x100 + code * 4;
            c / 0x100 % 4 == soft && c / 0x80 % 2 == 0 && c / 4 % 32 == code && c % 4 == 0
  {
    var c := high * 0x400 + soft * 0x100 + code * 4;
    QuotientIs(c, 0x100, high * 4 + soft, code * 4);
    QuotientIs(high * 4 + soft, 4, high, soft);
    QuotientIs(c, 0x80, high * 8 + soft * 2, code * 4);
    QuotientIs(high * 8 + soft * 2, 2, high * 4 + soft, 0);
    QuotientIs(c, 4, high * 0x100 + soft * 0x40 + code, 0);
    QuotientIs(high * 0x100 + soft * 0x40 + code, 32, high * 8 + soft * 2, code);
  }

  // ---------------------------------------------------------------- exceptions

  /**
   * r has taken an exception in s: it continues at the general vector outside a delay slot, EXL is set, EPC is epc
   * unless EXL was set before, and Cause says why. Nothing else of coprocessor 0 changes but BadVAddr.
   */
  predicate Vectored(s: Core, r: Core, code: int, ce: int, epc: U64, bd: bool) {
    && r.status == Running && r.pc == 0x8000_0180 && !r.hasBd
    && r.cop0 == s.cop0.(cause := r.cop0.cause, epc := if s.cop0.sr / 2 % 2 == 1 then s.cop0.epc else epc,
                         sr := if s.cop0.sr / 2 % 2 == 1 then s.cop0.sr else s.cop0.sr + 2,
                         badVAddr := r.cop0.badVAddr)
    && CauseIs(r.cop0.cause, bd, ce, s.compareIntr, s.irq, s.cop0.cause / 0x100 % 4, code)
  }

  /** The word at pc - 4 is a branch or jump. */
  predicate BranchBefore(env: Env, pc: U64) {
    var word := FetchWord(env, Wrap64(pc - 4));
    word.Some? && TransferFields(Op(word.value), Rs(word.value), Rt(word.value), Funct(word.value))
  }

  lemma BranchBeforeIs(env: Env, pc: U64)
    ensures BranchBefore(env, pc) <==> SlotHolder(env, pc)
  {
    hide FetchWord, DoesInstHaveDelaySlot, TransferFields, Op, Rs, Rt, Funct, Wrap64;
    var word := FetchWord(env, Wrap64(pc - 4));
    if word.Some? { BranchWords(word.value); }
  }

  /** The coprocessor number that Cause reports. */
  function UnitOf(s: Core, cause: Cause): int {
    if cause == CopUnusable then s.copCause % 4 else 0
  }

  lemma NewCauseIs(s: Core, cause: Cause, bd: bool)
    ensures CauseIs(NewCause(s, cause, bd), bd, UnitOf(s, cause), s.compareIntr, s.irq, s.cop0.cause / 0x100 % 4,
            CauseCode(cause))
  {
    CauseFields(bd, UnitOf(s, cause), s.compareIntr, s.irq, s.cop0.cause / 0x100 % 4, CauseCode(cause));
    hide CauseIs;
  }

  lemma EntersException(s: Core, cause: Cause, epc: U64, bd: bool)
    ensures var c := EnterException(s, cause, epc, bd);
            && c == s.cop0.(cause := c.cause, epc := if s.cop0.sr / 2 % 2 == 1 then s.cop0.epc else epc,
                            sr := if s.cop0.sr / 2 % 2 == 1 then s.cop0.sr else s.cop0.sr + 2)
            && CauseIs(c.cause, bd, UnitOf(s, cause), s.compareIntr, s.irq, s.cop0.cause / 0x100 % 4,
                       CauseCode(cause))
  {
    NewCauseIs(s, cause, bd);
    hide CauseIs, NewCause, UnitOf, CauseCode;
  }

  /**
   * An exception panics exactly when a branch is pending and the word at pc - 4 is no branch; otherwise it is
   * vectored with EPC at the branch and BD set in a delay slot, and EPC at pc outside.
   */
  lemma ExceptionVectors(env: Env, s: Core, cause: Cause)
    requires s.status == Running
    ensures var r := TriggerException(env, s, cause);
            if s.hasBd && !BranchBefore(env, s.pc) then r.status == Panicked
            else Vectored(s, r, CauseCode(cause), UnitOf(s, cause), if s.hasBd then Wrap64(s.pc - 4) else s.pc,
                          s.hasBd)
  {
    hide FetchWord, EnterException, CauseIs, UnitOf, CauseCode, Wrap64, BranchBefore, DoesInstHaveDelaySlot;
    BranchBeforeIs(env, s.pc);
    EntersException(s, cause, s.pc, false);
    EntersException(s, cause, Wrap64(s.pc - 4), true);
  }

  // ---------------------------------------------------------------- which sources interrupt

  /** IE is set, EXL and ERL are clear. */
  predicate Enabled(sr: U32) {
    sr % 2 == 1 && sr / 2 % 2 == 0 && sr / 4 % 2 == 0
  }

  /** An interrupt source is raised and unmasked: the software bits, the bus line, the timer's line. */
  predicate Source(s: Core, line: bool) {
    || (Bit(s.cop0.sr, 8) && Bit(s.cop0.cause, 8))
    || (Bit(s.cop0.sr, 9) && Bit(s.cop0.cause, 9))
    || (Bit(s.cop0.sr, 10) && s.irq)
    || (Bit(s.cop0.sr, 15) && line)
  }

  lemma LineBits(x: U32)
    ensures Bit(x, 8) <==> x / 0x100 % 2 == 1
    ensures Bit(x, 9) <==> x / 0x100 / 2 % 2 == 1
    ensures Bit(x, 10) <==> x / 0x100 / 4 % 2 == 1
    ensures Bit(x, 15) <==> x / 0x100 / 128 % 2 == 1
  {
    PowersOfTwo();
    BitAt(x, 8, 0x100);
    BitAt(x, 9, 0x200);
    BitAt(x, 10, 0x400);
    BitAt(x, 15, 0x8000);
    DivDiv(x, 0x100, 2);
    DivDiv(x, 0x100, 4);
    DivDiv(x, 0x100, 128);
    hide Bit, Pow2;
  }

  lemma PowersOfTwo()
    ensures Pow2(8) == 0x100 && Pow2(9) == 0x200 && Pow2(10) == 0x400 && Pow2(15) == 0x8000
  {
    assert Pow2(4) == 16;
    assert Pow2(12) == 0x1000;
  }

  lemma TwoSoftBits(q: nat)
    ensures q % 4 % 2 == q % 2 && q % 4 / 2 == q / 2 % 2
  {
    var h, r := q / 4, q % 4;
    Halves(2 * h, r);
    Halves(h, r / 2);
  }

  lemma PendingIs(s: Core)
    ensures InterruptPending(s) <==> Source(s, s.compareIntr)
    ensures InterruptEnabled(s) <==> Enabled(s.cop0.sr)
  {
    LineBits(s.cop0.sr);
    LineBits(s.cop0.cause);
    TwoSoftBits(s.cop0.cause / 0x100);
    hide Bit;
  }

  /** The timer's line after a poll: latched before, or by this poll's check. */
  predicate LineAfter(s: Core) {
    s.compareIntr || CheckCompare(s.cop0, s.total / 2).1
  }

  lemma RefreshKeepsSource(s: Core)
    ensures var c := TimerRegs(s).0; c.sr == s.cop0.sr && c.epc == s.cop0.epc && c.cause == RefreshPending(s)
    ensures Bit(RefreshPending(s), 8) == Bit(s.cop0.cause, 8) && Bit(RefreshPending(s), 9) == Bit(s.cop0.cause, 9)
  {
    RefreshParts(s.cop0.cause, s.irq, s.compareIntr);
    LineBits(s.cop0.cause);
    LineBits(RefreshPending(s));
    TwoSoftBits(s.cop0.cause / 0x100);
    TwoSoftBits(RefreshPending(s) / 0x100);
    hide Bit, WithPending, Crossed;
  }

  /** The refreshed Cause: the pending byte is the lines and the software bits, the rest stays. */
  predicate Refreshed(c: U32, irq: bool, timer: bool, c': U32) {
    && c' / 0x1_0000 == c / 0x1_0000 && c' % 0x100 == c % 0x100 && c' / 0x100 % 4 == c / 0x100 % 4
    && c' / 0x400 % 2 == Number(irq) && c' / 0x800 % 16 == 0 && c' / 0x8000 % 2 == Number(timer)
  }

  lemma RefreshParts(c: U32, irq: bool, timer: bool)
    ensures Refreshed(c, irq, timer, WithPending(c, irq, timer))
  {
    var top, soft, low := c / 0x1_0000, SoftwareBits(c), c % 0x100;
    var t, i := Number(timer), Number(irq);
    var r := WithPending(c, irq, timer);
    assert r == top * 0x1_0000 + t * 0x8000 + i * 0x400 + soft * 0x100 + low;
    QuotientIs(r, 0x1_0000, top, t * 0x8000 + i * 0x400 + soft * 0x100 + low);
    QuotientIs(r, 0x100, top * 0x100 + t * 0x80 + i * 4 + soft, low);
    QuotientIs(top * 0x100 + t * 0x80 + i * 4 + soft, 4, top * 0x40 + t * 0x20 + i, soft);
    QuotientIs(r, 0x400, top * 0x40 + t * 0x20 + i, soft * 0x100 + low);
    QuotientIs(top * 0x40 + t * 0x20 + i, 2, top * 0x20 + t * 0x10, i);
    QuotientIs(r, 0x800, top * 0x20 + t * 0x10, i * 0x400 + soft * 0x100 + low);
    QuotientIs(top * 0x20 + t * 0x10, 16, top * 2 + t, 0);
    QuotientIs(r, 0x8000, top * 2 + t, i * 0x400 + soft * 0x100 + low);
    QuotientIs(top * 2 + t, 2, top, t);
    hide WithPending;
  }

  lemma ByteFields(q: nat)
    ensures q % 0x100 == q / 0x80 % 2 * 0x80 + q / 8 % 16 * 8 + q / 4 % 2 * 4 + q % 4
  {
    var a, b, c := q / 4, q / 8, q / 0x80;
    NaturalDivision(q, 4);
    NaturalDivision(a, 2);
    DivDiv(q, 4, 2);
    NaturalDivision(b, 16);
    DivDiv(q, 8, 16);
    NaturalDivision(c, 2);
    QuotientIs(q, 0x100, c / 2, c % 2 * 0x80 + b % 16 * 8 + a % 2 * 4 + q % 4);
  }

  lemma PendingByteIs(c: U32, bd: bool, ce: int, timer: bool, irq: bool, soft: int, code: int)
    requires CauseIs(c, bd, ce, timer, irq, soft, code)
    ensures c / 0x100 % 0x100 == Number(timer) * 0x80 + Number(irq) * 4 + soft && soft == SoftwareBits(c)
  {
    DivDiv(c, 0x100, 0x80);
    DivDiv(c, 0x100, 8);
    DivDiv(c, 0x100, 4);
    ByteFields(c / 0x100);
  }

  lemma WordBytes(c: U32)
    ensures c == c / 0x1_0000 * 0x1_0000 + c / 0x100 % 0x100 * 0x100 + c % 0x100
  {
    NaturalDivision(c, 0x100);
    NaturalDivision(c / 0x100, 0x100);
    DivDiv(c, 0x100, 0x100);
  }

  /** A Cause that an exception has just written has its pending byte refreshed already. */
  lemma RefreshIsIdle(c: U32, bd: bool, ce: int, timer: bool, irq: bool, soft: int, code: int)
    requires CauseIs(c, bd, ce, timer, irq, soft, code)
    ensures WithPending(c, irq, timer) == c
  {
    PendingByteIs(c, bd, ce, timer, irq, soft, code);
    WordBytes(c);
    hide CauseIs, SoftwareBits;
  }

  /** Where an interrupted program resumes. */
  function ResumePc(s: Core): U64 { if s.hasBd then Wrap64(s.pc - 4) else s.pc }

  /** r is at the vector with the interrupt of s recorded; `timer` is Cause's timer bit. */
  predicate Interrupted(s: Core, r: Core, timer: bool) {
    && r.status == Running && r.pc == 0x8000_0180 && !r.hasBd
    && r.cop0.sr == s.cop0.sr + 2 && r.cop0.epc == ResumePc(s)
    && CauseIs(r.cop0.cause, s.hasBd, 0, timer, s.irq, s.cop0.cause / 0x100 % 4, 0)
  }

  /** r continues where s was, with its pending bits refreshed. */
  predicate Undisturbed(s: Core, r: Core) {
    && r.status == Running && r.pc == s.pc && r.hasBd == s.hasBd && r.bdDst == s.bdDst
    && r.cop0.sr == s.cop0.sr && r.cop0.epc == s.cop0.epc
    && Refreshed(s.cop0.cause, s.irq, s.compareIntr, r.cop0.cause)
  }

  lemma ExlDisables(sr: U32)
    requires Enabled(sr)
    ensures !Enabled(sr + 2) && sr / 2 % 2 == 0
  {
    Halves(sr / 2, sr % 2);
    NaturalDivision(sr, 2);
    assert (sr + 2) / 2 == sr / 2 + 1;
  }

  lemma LatchedFields(s: Core)
    ensures var t := TimerLatched(s);
            && t.status == s.status && t.pc == s.pc && t.hasBd == s.hasBd && t.irq == s.irq && t.compareIntr
            && t.cop0.sr == s.cop0.sr && t.cop0.epc == s.cop0.epc
            && t.cop0.cause / 0x100 % 4 == s.cop0.cause / 0x100 % 4
  {
    RefreshKeepsSource(s);
    RefreshParts(s.cop0.cause, s.irq, s.compareIntr);
    hide Bit, TimerRegs, WithPending;
  }

  lemma LatchedVectors(env: Env, s: Core)
    requires s.status == Running && (s.hasBd ==> BranchBefore(env, s.pc)) && Enabled(s.cop0.sr)
    ensures var r := TriggerException(env, TimerLatched(s), Interrupt); Interrupted(s, r, true) && r.compareIntr
  {
    hide TimerLatched, CauseIs, TriggerException, BranchBefore;
    LatchedFields(s);
    ExceptionVectors(env, TimerLatched(s), Interrupt);
    KeptLines(env, TimerLatched(s), Interrupt);
    ExlDisables(s.cop0.sr);
    hide Enabled;
  }

  lemma LatchedSource(s: Core)
    ensures InterruptPending(TimerLatched(s)) <==> Source(s, true)
    ensures InterruptEnabled(TimerLatched(s)) <==> Enabled(s.cop0.sr)
  {
    PendingIs(TimerLatched(s));
    RefreshKeepsSource(s);
    hide InterruptPending, InterruptEnabled, Bit, TimerRegs, Enabled;
  }

  lemma QuietTimer(s: Core)
    requires s.status == Running
    ensures Undisturbed(s, s.(cop0 := TimerRegs(s).0)) && Undisturbed(s, TimerLatched(s))
    ensures TimerRegs(s).1 == CheckCompare(s.cop0, s.total / 2).1
  {
    RefreshKeepsSource(s);
    RefreshParts(s.cop0.cause, s.irq, s.compareIntr);
    TimerPart(s);
    hide Bit, TimerRegs, WithPending, Refreshed, CheckCompare;
  }

  /** The timer half of a poll that leaves interrupts disabled. */
  lemma TimerHalf(env: Env, s: Core)
    requires s.status == Running && !Enabled(s.cop0.sr)
    ensures Undisturbed(s, PollTimer(env, s)) && PollTimer(env, s).compareIntr == LineAfter(s)
  {
    LatchedSource(s);
    QuietTimer(s);
    PollTimerIs(env, s);
    hide CheckCompare, InterruptEnabled, InterruptPending, Enabled, Source, Bit, TimerRegs, PollTimer, Undisturbed;
    hide TriggerException;
  }

  /** After an interrupt the timer half of the poll changes neither Status nor EPC, nor what Cause says. */
  lemma ThenTimer(env: Env, s: Core, s1: Core)
    requires Vectored(s, s1, 0, 0, ResumePc(s), s.hasBd) && Enabled(s.cop0.sr)
    requires s1.irq == s.irq && s1.compareIntr == s.compareIntr && s1.total == s.total && SameTimer(s.cop0, s1.cop0)
    ensures Interrupted(s, PollTimer(env, s1), s.compareIntr) && PollTimer(env, s1).compareIntr == LineAfter(s)
  {
    ExlDisables(s.cop0.sr);
    TimerHalf(env, s1);
    RefreshIsIdle(s1.cop0.cause, s.hasBd, 0, s.compareIntr, s.irq, s.cop0.cause / 0x100 % 4, 0);
    RefreshedIs(s1, PollTimer(env, s1));
    CheckRespects(s1.cop0, s.cop0, s.total / 2);
    hide CheckCompare, Enabled, PollTimer, Refreshed, CauseIs, WithPending, SameTimer;
  }

  /** The check at the start of a poll takes an interrupt. */
  lemma TakenAtOnce(env: Env, s: Core)
    requires s.status == Running && (s.hasBd ==> BranchBefore(env, s.pc)) && Enabled(s.cop0.sr)
    requires Source(s, s.compareIntr)
    ensures Interrupted(s, Poll(env, s), s.compareIntr) && Poll(env, s).compareIntr == LineAfter(s)
  {
    PendingIs(s);
    ExceptionVectors(env, s, Interrupt);
    RunsVectored(env, s);
    CheckKeepsTimer(env, s);
    KeptLines(env, s, Interrupt);
    hide CheckCompare, InterruptEnabled, InterruptPending, Enabled, Source, Bit, PollTimer, Interrupted, Vectored;
    hide TriggerException, BranchBefore, SameTimer;
    ThenTimer(env, s, CheckInterrupt(env, s));
  }

  lemma RunsVectored(env: Env, s: Core)
    requires s.status == Running && (s.hasBd ==> BranchBefore(env, s.pc))
    ensures TriggerException(env, s, Interrupt).status == Running
  {
    ExceptionVectors(env, s, Interrupt);
    hide TriggerException, BranchBefore, CauseIs;
  }

  lemma KeptLines(env: Env, s: Core, cause: Cause)
    ensures var r := TriggerException(env, s, cause);
            r.irq == s.irq && r.compareIntr == s.compareIntr && r.total == s.total
  {
    hide FetchWord, EnterException, DoesInstHaveDelaySlot, Wrap64;
  }

  /** A refreshed Cause is determined by the old one and the lines. */
  lemma RefreshedIs(s: Core, r: Core)
    requires Refreshed(s.cop0.cause, s.irq, s.compareIntr, r.cop0.cause)
    ensures r.cop0.cause == WithPending(s.cop0.cause, s.irq, s.compareIntr)
  {
    var c := r.cop0.cause;
    DivDiv(c, 0x100, 0x80);
    DivDiv(c, 0x100, 8);
    DivDiv(c, 0x100, 4);
    ByteFields(c / 0x100);
    WordBytes(c);
  }

  /** The timer crosses Compare in a poll that found nothing before. */
  lemma TakenByTimer(env: Env, s: Core)
    requires s.status == Running && (s.hasBd ==> BranchBefore(env, s.pc)) && Enabled(s.cop0.sr)
    requires !Source(s, s.compareIntr)
    ensures if Source(s, LineAfter(s)) then Interrupted(s, Poll(env, s), true) else Undisturbed(s, Poll(env, s))
    ensures Poll(env, s).compareIntr == LineAfter(s)
  {
    PendingIs(s);
    PollTimerIs(env, s);
    LatchedSource(s);
    LatchedVectors(env, s);
    QuietTimer(s);
    hide CheckCompare, InterruptEnabled, InterruptPending, Enabled, Bit, TimerRegs, PollTimer, Interrupted;
    hide TriggerException, BranchBefore, Undisturbed;
  }

  /**
   * A poll takes an interrupt exactly when IE is set, EXL and ERL are clear, and an unmasked source is raised, the
   * timer's line as this poll leaves it; otherwise it only refreshes Cause.
   */
  lemma PollServes(env: Env, s: Core)
    requires s.status == Running && (s.hasBd ==> BranchBefore(env, s.pc))
    ensures var r := Poll(env, s);
            && (if Enabled(s.cop0.sr) && Source(s, LineAfter(s))
                then Interrupted(s, r, s.compareIntr || !Source(s, s.compareIntr)) else Undisturbed(s, r))
            && r.compareIntr == LineAfter(s)
  {
    PendingIs(s);
    if !Enabled(s.cop0.sr) {
      TimerHalf(env, s);
    } else if Source(s, s.compareIntr) {
      TakenAtOnce(env, s);
    } else {
      TakenByTimer(env, s);
    }
    hide CheckCompare, InterruptEnabled, InterruptPending, Enabled, Bit, PollTimer, Interrupted, Undisturbed;
    hide TriggerException, BranchBefore;
  }

  /** The result of the k-th action of a run. */
  lemma PolledAt(env: Env, s: Cpu, acts: seq<Action>, k: nat)
    requires k < |acts| && acts[k].PollNow?
    ensures ActAll(env, s, acts[..k + 1]).core == Poll(env, ActAll(env, s, acts[..k]).core)
  {
    hide Poll;
    assert acts[..k + 1][..k] == acts[..k];
  }

  lemma PollTimesGrow(env: Env, s: Cpu, acts: seq<Action>, k: nat)
    requires k < |acts| && acts[k].PollNow? && Reaches(env, ActAll(env, s, acts[..k]).core)
    ensures var q := ActAll(env, s, acts[..k]).core;
            && PollTimes(env, s, acts[..k + 1]) == PollTimes(env, s, acts[..k]) + [q.total / 2]
            && PollAnswers(env, s, acts[..k + 1]) == PollAnswers(env, s, acts[..k]) + [Latches(env, q)]
  {
    hide ActAll, Reaches, Latches;
    assert acts[..k + 1][..k] == acts[..k];
  }

  /**
   * A match of Count and Compare since the poll before is served: while neither register is written, the poll that
   * reports it goes to the vector if the timer is unmasked, IE is set, and EXL and ERL are clear.
   */
  lemma MatchIsServed(env: Env, s: Cpu, acts: seq<Action>, k: nat)
    requires Timer.Causal(s.core.cop0, s.core.total) && !s.core.cop0.suppress
    requires k < |acts| && acts[k].PollNow? && Timer.Quiet(RunOps(env, s, acts[..k + 1]))
    requires Timer.Paced(s.core.cop0, PollTimes(env, s, acts[..k + 1]))
    requires var q := ActAll(env, s, acts[..k]).core;
             && q.status == Running && (q.hasBd ==> BranchBefore(env, q.pc)) && Enabled(q.cop0.sr) && Bit(q.cop0.sr, 15)
             && var (c, times) := (s.core.cop0, PollTimes(env, s, acts[..k]) + [q.total / 2]);
                Timer.MatchIn(c, Timer.Before(c, times, |times| - 1), q.total / 2)
    ensures var q := ActAll(env, s, acts[..k]).core;
            Interrupted(q, ActAll(env, s, acts[..k + 1]).core, q.compareIntr || !Source(q, q.compareIntr))
  {
    hide *;
    var q := ActAll(env, s, acts[..k]).core;
    ReachesTimer(env, q);
    PolledAt(env, s, acts, k);
    PollTimesGrow(env, s, acts, k);
    var times := PollTimes(env, s, acts[..k + 1]);
    PollsReportExactly(env, s, acts[..k + 1], |times| - 1);
    PollChecks(env, q);
    TimerSource(q);
    PollServes(env, q);
  }

  lemma TimerSource(s: Core)
    requires Bit(s.cop0.sr, 15) && CheckCompare(s.cop0, s.total / 2).1
    ensures Source(s, LineAfter(s))
  {
    hide Bit, CheckCompare;
  }

  lemma ReachesTimer(env: Env, s: Core)
    requires s.status == Running && (s.hasBd ==> BranchBefore(env, s.pc))
    ensures Reaches(env, s)
  {
    if InterruptEnabled(s) && InterruptPending(s) { RunsVectored(env, s); }
    hide TriggerException, InterruptEnabled, InterruptPending, BranchBefore;
  }
}
