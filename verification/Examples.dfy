/** A small program for which the hypotheses of the main theorems hold: a branch, its slot, and a handler. */
module Examples {
  import opened Words
  import opened Decoder
  import opened Tlb
  import opened Cop0
  import opened Handlers
  import opened Machine
  import opened Blocks
  import opened Cache
  import opened CodeCache
  import opened Simulation
  import opened Parting
  import opened Refinement
  import opened Lockstep
  import opened Masking
  import opened Precision
  import opened Interrupts
  import opened Interpreter

  const BRANCH: U32 := 0x1000_0004
  const ERET: U32 := 0x4200_0018

  /** BEQ r0, r0 at 0x1000, ERET at the exception vector, and nops. */
  function Program(a: U64): U32 {
    if a == 0x1000 then BRANCH else if a == 0x180 then ERET else 0
  }

  const ENV := Env(Config(0x180, true), Normal([], 0), Program)

  lemma DecodedBranch()
    ensures Decode(BRANCH).KBeq? && Rs(BRANCH) == 0 && Rt(BRANCH) == 0 && ImmSigned(BRANCH) == 4
  {
  }

  lemma DecodedEret()
    ensures Decode(ERET).KCop? && CopId(ERET) == 0 && ERET % 64 == 0x18
  {
  }

  lemma Decoded()
    ensures Decode(0).KNop? && Decode(BRANCH).KBeq? && Decode(ERET).KCop?
    ensures CopId(ERET) == 0 && ERET % 64 == 0x18 && Rs(BRANCH) == 0 && Rt(BRANCH) == 0 && ImmSigned(BRANCH) == 4
  {
    hide *;
    DecodedNop();
    DecodedBranch();
    DecodedEret();
  }

  lemma ProgramWords(a: nat)
    ensures WordAt(ENV, a).Some? ==>
            WordAt(ENV, a).value == 0 || WordAt(ENV, a).value == BRANCH || WordAt(ENV, a).value == ERET
    ensures BranchAt(ENV, a) ==> Translate(ENV.tlb, Wrap32(a)).address == 0x1000
  {
    Decoded();
    hide Decode;
  }

  lemma Frames(a: nat)
    ensures Translate(ENV.tlb, Wrap32(a)).found ==> Translate(ENV.tlb, Wrap32(a)).address % 16 == a % 16
  {
    LowBits(a);
    hide Wrap32;
  }

  lemma LowBits(a: nat)
    ensures Wrap32(a) % 16 == a % 16 && Wrap32(a) % 0x2000_0000 % 16 == a % 16
  {
    var low := Wrap32(a);
    Wrap32Parts(a);
    SameSixteenth(a, a / 0x1_0000_0000 * 0x1000_0000, low);
    SameSixteenth(low, low / 0x2000_0000 * 0x200_0000, low % 0x2000_0000);
    hide Wrap32;
  }

  lemma SameSixteenth(x: nat, q: nat, y: nat)
    requires x == q * 16 + y
    ensures x % 16 == y % 16
  {
  }

  lemma BranchesAreAligned(a: nat)
    ensures BranchAt(ENV, a) ==> a % 16 == 0
  {
    ProgramWords(a);
    Frames(a);
    hide Translate, Decode, Program;
  }

  lemma NoSelfLinks(a: nat)
    ensures WordAt(ENV, a).Some? ==> !LinksItsSource(WordAt(ENV, a).value)
  {
    Decoded();
    ProgramWords(a);
    hide Decode, WordAt, ENV;
  }

  lemma ProgramIsReplayable()
    ensures ReplayableProgram(ENV)
  {
    hide BranchAt, WordAt, LinksItsSource, ENV;
    forall a: nat ensures BranchAt(ENV, a) ==> !BranchAt(ENV, a + 4) {
      BranchesAreAligned(a);
      BranchesAreAligned(a + 4);
    }
    forall a: nat ensures WordAt(ENV, a).Some? ==> !LinksItsSource(WordAt(ENV, a).value) {
      NoSelfLinks(a);
    }
  }

  lemma WordIsComparable(v: U32, raw: U32)
    requires WordAt(ENV, v) == Some(raw)
    ensures Comparable(ENV, v, raw)
  {
    Decoded();
    ProgramWords(v);
    hide Decode, WordAt, ENV, FetchWord, JumpTarget, BRANCH, ERET;
  }

  lemma ProgramIsComparable()
    ensures ComparableProgram(ENV)
  {
    hide Comparable, WordAt, ENV;
    forall v: U32, raw: U32 | WordAt(ENV, v) == Some(raw) ensures Comparable(ENV, v, raw) {
      WordIsComparable(v, raw);
    }
  }

  /** A fresh CPU runs the program in the cached loop, and a plain CPU from the same state ends up with it. */
  method RunExample(cycle: int) returns (cpu: Mips, r: nat, ghost p0: Cpu, ghost events: seq<Event>, ghost missed: bool)
    ensures p0.core.pc == 0x8000_1000 && p0.core.status == Running && !p0.core.hasBd
    ensures InStep(ENV, p0, p0, events) && Similar(ENV, cpu.BeforeScan(missed), PlayAll(ENV, p0, events))
  {
    hide ENV, Similar, PlayAll, CachedAll, InStep, AllMeet, Departs, AllVisits, Timely, CodeBlocks, ComparableProgram;
    cpu := new Mips(ENV, true);
    cpu.SetPc(0x8000_1000);
    p0 := cpu.State();
    Configured();
    ProgramIsComparable();
    EmptyIsCode(ENV);
    cpu.StartsSynchronised();
    r, events, missed := cpu.RunCached(cycle, p0);
  }

  lemma Configured()
    ensures ENV.tlb.Normal? && ENV.config.cpi == 0x180
  {
  }

  lemma EmptyIsCode(env: Env)
    ensures CodeBlocks(env, EMPTY.blocks)
  {
  }

  // ---------------------------------------------------------------- a read of Count inside a block

  const READ_COUNT: U32 := 0x4001_4800

  const COUNTS := Env(Config(0x180, true), Normal([], 0), CountProgram)

  /** Two nops and mfc0 r1, Count. */
  function CountProgram(a: U64): U32 {
    if a == 0x1008 then READ_COUNT else 0
  }

  const START := Cpu(Data(GPR, 0, 0, map[]),
    Core(RESET_REGS, 0x8000_1000, 0, false, false, 0, false, 0, false, false, false, 0, 0, Running))

  /** s after n nops from 0x8000_1000, with the given clock. */
  function AfterNops(s: Cpu, n: nat, total: nat, counter: nat): Cpu
    requires n <= 2
  {
    s.(core := s.core.(pc := 0x8000_1000 + 4 * n, nextPc := if n == 0 then s.core.nextPc else 0x8000_1000 + 4 * n,
                       total := total, cpiCounter := counter))
  }

  lemma CountWords()
    ensures FetchWord(COUNTS, 0x8000_1000) == Some(0) && FetchWord(COUNTS, 0x8000_1004) == Some(0)
    ensures FetchWord(COUNTS, 0x8000_1008) == Some(READ_COUNT)
    ensures COUNTS.tlb.Normal? && COUNTS.config.cpi == 0x180
  {
  }

  lemma DecodedReadCount()
    ensures Decode(READ_COUNT).KMfc? && CopId(READ_COUNT) == 0 && Rd(READ_COUNT) == 9 && Rt(READ_COUNT) == 1
  {
  }

  lemma NopSteps(env: Env, s: Cpu)
    requires s.core.status == Running && !s.core.hasBd && FetchWord(env, s.core.pc) == Some(0)
    ensures var next := Wrap64(s.core.pc + 4);
            NextEntry(env, s) == s.(core := s.core.(nextPc := next, pc := Low32(next)))
    ensures Step(env, s) == s.(core := Retire(s.core.(nextPc := Wrap64(s.core.pc + 4)), env.config.cpi))
  {
    DecodedNop();
    StepIs(env, s, 0);
    hide Decode, FetchWord, Wrap64, Low32;
  }

  lemma NopMeets(env: Env, c: Cpu, p: Cpu)
    requires c.core.status == Running && FetchWord(env, c.core.pc) == Some(0)
    ensures EntryMeets(env, c, p)
  {
    DecodedNop();
    hide Decode, FetchWord, Low32, Now;
  }

  lemma NopAdvances(s: Cpu, n: nat, total: nat, counter: nat)
    requires n < 2 && counter < 256 && s.core.status == Running && !s.core.hasBd
    ensures var q := AfterNops(s, n, total, counter);
            && NextEntry(COUNTS, q) == AfterNops(s, n + 1, total, counter)
            && Step(COUNTS, q) == AfterNops(s, n + 1, total + (counter + 0x180) / 256, (counter + 0x180) % 256)
  {
    CountWords();
    NopSteps(COUNTS, AfterNops(s, n, total, counter));
    NopAddress(0x8000_1004 + 4 * n);
    hide COUNTS, NextEntry, Step, FetchWord, Wrap64, Low32;
  }

  lemma NopAddress(a: nat)
    requires a < 0x1_0000_0000
    ensures Wrap64(a) == a && Low32(a) == a
  {
  }

  lemma FirstEntries(env: Env, s: Cpu, c1: Cpu, c2: Cpu, p1: Cpu, p2: Cpu)
    requires c1 == NextEntry(env, s) && c2 == NextEntry(env, c1) && p1 == Step(env, s) && p2 == Step(env, p1)
    ensures Entries(env, s, 0) == s && Entries(env, s, 1) == c1 && Entries(env, s, 2) == c2
    ensures Steps(env, s, 0) == s && Steps(env, s, 1) == p1 && Steps(env, s, 2) == p2
  {
    hide NextEntry, Step;
    StepsOneMore(env, s, 0);
    StepsOneMore(env, s, 1);
  }

  /** Two instructions that meet the condition and a third that does not. */
  lemma ThirdParts(env: Env, s: Cpu, c1: Cpu, c2: Cpu, p1: Cpu, p2: Cpu)
    requires env.tlb.Normal? && Similar(env, s, s)
    requires c1 == NextEntry(env, s) && c2 == NextEntry(env, c1) && p1 == Step(env, s) && p2 == Step(env, p1)
    requires EntryMeets(env, s, s) && EntryMeets(env, c1, p1) && !EntryMeets(env, c2, p2)
    ensures Departs(env, s, s, [DoSteps(3)], 0, 2)
  {
    hide *;
    FirstEntries(env, s, c1, c2, p1, p2);
    TwoMeet(env, s);
    PartsInFirstBlock(env, s, 3, 2);
  }

  lemma TwoMeet(env: Env, s: Cpu)
    requires EntryMeets(env, Entries(env, s, 0), Steps(env, s, 0))
    requires EntryMeets(env, Entries(env, s, 1), Steps(env, s, 1))
    ensures BlockMeets(env, s, s, 2) && MAX_LENGTH == 64
  {
    hide EntryMeets, Entries, Steps;
  }

  lemma PartsInFirstBlock(env: Env, s: Cpu, n: nat, j: nat)
    requires env.tlb.Normal? && Similar(env, s, s) && j < n <= MAX_LENGTH && BlockMeets(env, s, s, j)
    requires !EntryMeets(env, Entries(env, s, j), Steps(env, s, j))
    ensures Departs(env, s, s, [DoSteps(n)], 0, j)
  {
    NothingYet(env, s);
    BlockExactly(env, s, s, j);
    hide EntryMeets, Similar, Entries, Steps, InStep, CachedAll, PlayAll, Abreast, BlockMeets;
    assert [DoSteps(n)][..0] == [];
  }

  lemma NothingYet(env: Env, s: Cpu)
    requires Similar(env, s, s)
    ensures InStep(env, s, s, []) && CachedAll(env, s, []) == s && PlayAll(env, s, []) == s
  {
    hide Similar;
  }

  lemma CountDiffers(s: Cpu)
    requires s.core.status == Running && s.core.cop0.countStart == 0
    ensures !EntryMeets(COUNTS, AfterNops(s, 2, 0, 0), AfterNops(s, 2, 3, 0))
  {
    CountWords();
    DecodedReadCount();
    hide Decode, FetchWord, COUNTS, JumpTarget, CopId, Rd, Rt;
  }

  lemma StartFields()
    ensures START.core.status == Running && !START.core.hasBd && START.core.cop0.countStart == 0
    ensures START == AfterNops(START, 0, 0, 0) && START.core.pc == 0x8000_1000 && START.core.cpiCounter == 0
  {
  }

  /** The condition is needed: the third instruction of this block reads a Count the two CPUs disagree on. */
  lemma CountReadParts()
    ensures Departs(COUNTS, START, START, [DoSteps(3)], 0, 2)
  {
    hide *;
    CountWords();
    StartFields();
    NopAdvances(START, 0, 0, 0);
    NopAdvances(START, 1, 0, 0);
    NopAdvances(START, 1, 1, 0x80);
    CountDiffers(START);
    SimilarToItself(COUNTS, START);
    var c1, p1 := AfterNops(START, 1, 0, 0), AfterNops(START, 1, 1, 0x80);
    NopFields(START, 1, 0, 0);
    NopMeets(COUNTS, START, START);
    NopMeets(COUNTS, c1, p1);
    ThirdParts(COUNTS, START, c1, AfterNops(START, 2, 0, 0), p1, AfterNops(START, 2, 3, 0));
  }

  lemma NopFields(s: Cpu, n: nat, total: nat, counter: nat)
    requires n <= 2
    ensures var q := AfterNops(s, n, total, counter).core; q.status == s.core.status && q.pc == 0x8000_1000 + 4 * n
  {
  }

  // ---------------------------------------------------------------- an interrupt in a delay slot

  const GPR: Regs := seq(32, i => 0)

  /** Between the branch and its slot, with the bus interrupt unmasked and raised. */
  const IN_SLOT := Cpu(Data(GPR, 0, 0, map[]),
    Core(RESET_REGS.(sr := 0x401, suppress := true), 0x8000_1004, 0, false, true, 0x8000_1014,
         false, 0, false, true, false, 0, 0, Running))

  lemma TakenBeq(env: Env, s: Cpu)
    requires s.core.status == Running && s.data.gpr == GPR
    ensures Exec(env, s, BRANCH) == s.(core := JumpRel(s.core, 16))
  {
    Decoded();
    hide Decode, Translate, JumpRel;
  }

  lemma CodeWords()
    ensures FetchWord(ENV, 0x8000_1000) == Some(BRANCH) && FetchWord(ENV, VECTOR) == Some(ERET)
  {
  }

  lemma SlotFields()
    ensures var b := Rewound(IN_SLOT);
            b.core.status == Running && b.core.pc == 0x8000_1000 && b.data == IN_SLOT.data && b.data.gpr == GPR
    ensures Prepare(Rewound(IN_SLOT).core).status == Running && IN_SLOT.core.status == Running
    ensures IN_SLOT.core.pc == 0x8000_1004
  {
  }

  /** What executing the branch again leaves. */
  lemma ReplayedBranch()
    ensures var b := Rewound(IN_SLOT);
            Step(ENV, b) == b.(core := Retire(JumpRel(Prepare(b.core), 16), 0x180))
  {
    hide *;
    CodeWords();
    SlotFields();
    Configured();
    var b := Rewound(IN_SLOT);
    TakenBeq(ENV, b.(core := Prepare(b.core)));
    StepIs(ENV, b, BRANCH);
  }

  lemma ReplayWraps()
    ensures Wrap64(0x8000_1004 - 4) == 0x8000_1000 && Wrap64(0x8000_1000 + 4) == 0x8000_1004
    ensures Wrap64(0x8000_1000 + 4 + 16) == 0x8000_1014
  {
  }

  lemma ReplayMeets()
    ensures var b := Rewound(IN_SLOT).core;
            Boundary(Retire(JumpRel(Prepare(b), 16), 0x180), true) == Boundary(IN_SLOT.core, true)
  {
    ReplayWraps();
    hide Wrap64, GPR;
    var s := IN_SLOT.core;
    var b := Rewound(IN_SLOT).core;
    assert b == s.(pc := 0x8000_1000, hasBd := false);
    var p := Prepare(b);
    assert p == b.(nextPc := 0x8000_1004);
    var j := JumpRel(p, 16);
    assert j == p.(hasBd := true, bdDst := 0x8000_1014);
    assert Retire(j, 0x180) == j.(pc := 0x8000_1004, total := 1, cpiCounter := 0x80);
  }

  lemma SlotHeld()
    ensures SlotHolder(ENV, 0x8000_1004)
  {
    CodeWords();
    Decoded();
    hide FetchWord, Decode;
  }

  lemma SlotIsPrecise()
    ensures Precise(ENV, IN_SLOT) && SlotHolder(ENV, IN_SLOT.core.pc)
  {
    hide IN_SLOT, SlotHolder, Step, Boundary, Retire, Prepare, JumpRel, Rewound;
    SlotHeld();
    SlotFields();
    ReplayedBranch();
    ReplayMeets();
    BoundaryFields(Step(ENV, Rewound(IN_SLOT)).core, IN_SLOT.core, true);
  }

  lemma SlotIsInterruptible()
    ensures InterruptEnabled(IN_SLOT.core) && InterruptPending(IN_SLOT.core)
  {
  }

  lemma PollTakes()
    ensures InHandler(IN_SLOT.core, Poll(ENV, IN_SLOT.core))
  {
    SlotIsPrecise();
    SlotIsInterruptible();
    var s := IN_SLOT.core;
    assert s.status == Running && s.pc != VECTOR;
    hide SlotHolder, TriggerException, PollTimer, Boundary, InterruptEnabled, InterruptPending, Returning, Unwound;
    hide Exl, Erl;
    TakenInterrupt(ENV, s);
    var s1 := CheckInterrupt(ENV, s);
    TimerCases(ENV, s1);
    CheckedCompose(s, s1, Poll(ENV, s));
    BoundaryFields(Poll(ENV, s), s1, true);
    if Boundary(Poll(ENV, s), true) == Boundary(s, true) {
      BoundaryFields(Poll(ENV, s), s, true);
    }
  }

  /** The hypotheses of interrupt transparency are met by an interrupt between a branch and its slot. */
  lemma InterruptInSlot() returns (r: Cpu)
    ensures ENV.tlb.Normal? && ReplayableProgram(ENV) && Precise(ENV, IN_SLOT) && Episode(ENV, IN_SLOT, r)
    ensures Equivalent(IN_SLOT, r, false)
  {
    Configured();
    ProgramIsReplayable();
    SlotIsPrecise();
    PollTakes();
    CodeWords();
    Decoded();
    var t := IN_SLOT.(core := Poll(ENV, IN_SLOT.core));
    hide Poll, ReplayableProgram, Precise, Boundary, Step, FetchWord, Decode, Exl, Erl, Returning, Unwound;
    assert HandlerEnd(ENV, t, t);
    r := Resumed(ENV, IN_SLOT, t);
    EpisodeIsTransparent(ENV, IN_SLOT, r);
  }

  // ---------------------------------------------------------------- a branch in a delay slot

  const TWO_BRANCHES := Env(Config(0x180, true), Normal([], 0), PairProgram)

  function PairProgram(a: U64): U32 {
    if a == 0x1000 || a == 0x1004 then BRANCH else 0
  }

  lemma PairWords()
    ensures FetchWord(TWO_BRANCHES, 0x8000_1000) == Some(BRANCH) && FetchWord(TWO_BRANCHES, 0x8000_1004) == Some(BRANCH)
    ensures FetchWord(TWO_BRANCHES, 0x8000_1010) == Some(0)
    ensures TWO_BRANCHES.config.cpi == 0x180
  {
  }

  lemma PairFields(n: nat)
    ensures var p := Prepare(IN_SLOT.core);
            var r := Retire(JumpRel(p, 16), n);
            && p.status == Running && IN_SLOT.core.status == Running && IN_SLOT.core.pc == 0x8000_1004
            && IN_SLOT.core.hasBd && IN_SLOT.data.gpr == GPR
            && r.pc == 0x8000_1014 && r.hasBd && r.status == Running
            && InterruptEnabled(r) && InterruptPending(r)
  {
  }

  lemma NopHoldsNoSlot(env: Env, s: Core)
    requires s.status == Running && s.hasBd && FetchWord(env, Wrap64(s.pc - 4)) == Some(0)
    requires InterruptEnabled(s) && InterruptPending(s)
    ensures !SlotHolder(env, s.pc) && Poll(env, s).status == Panicked
  {
    Decoded();
    hide Decode, FetchWord, Wrap64, InterruptEnabled, InterruptPending, PollTimer, EnterException;
  }

  lemma NotPrecise(env: Env, s: Cpu)
    requires s.core.status == Running && s.core.hasBd && !SlotHolder(env, s.core.pc)
    ensures !Precise(env, s)
  {
    hide SlotHolder, Step, Equivalent;
  }

  lemma BranchHoldsSlot(env: Env, pc: U64)
    requires FetchWord(env, Wrap64(pc - 4)) == Some(BRANCH)
    ensures SlotHolder(env, pc)
  {
    Decoded();
    hide Decode, FetchWord, Wrap64;
  }

  /**
   * Without the condition on delay slots the flag is not precise: after a taken branch in a slot the word at
   * pc - 4 is a nop, and the next poll panics.
   */
  lemma BranchInSlotPanics()
    ensures SlotHolder(TWO_BRANCHES, IN_SLOT.core.pc) && !NextReplays(TWO_BRANCHES, IN_SLOT)
    ensures var r := Step(TWO_BRANCHES, IN_SLOT);
            !Precise(TWO_BRANCHES, r) && Poll(TWO_BRANCHES, r.core).status == Panicked
  {
    hide *;
    PairWords();
    PairFields(0x180);
    SlotAddresses();
    BranchHoldsSlot(TWO_BRANCHES, 0x8000_1004);
    StepIs(TWO_BRANCHES, IN_SLOT, BRANCH);
    TakenBeq(TWO_BRANCHES, IN_SLOT.(core := Prepare(IN_SLOT.core)));
    var r := Step(TWO_BRANCHES, IN_SLOT);
    NopHoldsNoSlot(TWO_BRANCHES, r.core);
    NotPrecise(TWO_BRANCHES, r);
    StepPreciseExactly(TWO_BRANCHES, IN_SLOT);
  }

  lemma SlotAddresses()
    ensures Wrap64(0x8000_1014 - 4) == 0x8000_1010 && Wrap64(0x8000_1004 - 4) == 0x8000_1000
  {
  }

  // ---------------------------------------------------------------- a scan that runs off its segment

  const ERETS := Env(Config(0x180, true), Normal([], 0), _ => ERET)

  /** In the last word of kseg1, about to return to 0x8000_0000. */
  const AT_END := Cpu(Data(GPR, 0, 0, map[]),
    Core(RESET_REGS.(sr := 2, epc := 0x8000_0000), 0xBFFF_FFFC, 0, false, false, 0,
         false, 0, false, false, false, 0, 0, Running))

  lemma EretWords()
    ensures FetchWord(ERETS, 0xBFFF_FFFC) == Some(ERET) && WordAt(ERETS, 0xBFFF_FFFC) == Some(ERET)
    ensures WordAt(ERETS, 0xC000_0000) == None
  {
  }

  lemma EretIsNoBranch()
    ensures !IsInstBranch(ERET)
  {
    DecodedEret();
    hide *;
    CopIsNoBranch(ERET);
  }

  lemma CopIsNoBranch(w: U32)
    ensures Decode(w).KCop? ==> !IsInstBranch(w)
  {
    hide Decode;
  }

  lemma OffTheEnd(env: Env, a: nat)
    requires WordAt(env, a).Some? && !IsInstBranch(WordAt(env, a).value) && WordAt(env, a + 4).None?
    ensures Scan(env, a) == None
  {
    hide WordAt, IsInstBranch, DoesInstHaveDelaySlot;
    assert Body(env, a + 4, MAX_LENGTH - 2) == None;
  }

  lemma EretRuns()
    ensures ExecCommand(Prepare(AT_END.core), ERET).status == Running && AT_END.core.status == Running
    ensures AT_END.core.pc == 0xBFFF_FFFC && IsEret(ERET)
  {
    DecodedEret();
    hide Decode;
  }

  /** The prefetch of a scan can miss where the plain interpreter goes on: ERET in the last word of kseg1. */
  lemma PrefetchMiss()
    ensures AT_END.core.pc == 0xBFFF_FFFC && Scan(ERETS, 0xBFFF_FFFC) == None
    ensures AT_END.core.status == Running && Step(ERETS, AT_END).core.status == Running
  {
    hide *;
    EretWords();
    EretIsNoBranch();
    OffTheEnd(ERETS, 0xBFFF_FFFC);
    EretRuns();
    StepIs(ERETS, AT_END, ERET);
    EretIs(ERETS, AT_END.(core := Prepare(AT_END.core)), ERET);
    KeepsStatus(ExecCommand(Prepare(AT_END.core), ERET), ERETS.config.cpi);
  }

  lemma KeepsStatus(s: Core, n: nat)
    ensures Retire(s, n).status == s.status
  {
  }
}
