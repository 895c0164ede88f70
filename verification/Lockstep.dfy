/**
 * Runs of the cached interpreter and runs of the plain one under the same schedule of blocks, polls and idle
 * time: they stay in step exactly as long as every executed instruction meets the condition.
 */
module Lockstep {
  import opened Words
  import opened Tlb
  import opened Machine
  import opened Blocks
  import opened Simulation
  import opened Parting
  import opened Cycles
  import opened Refinement

  // ---------------------------------------------------------------- schedules

  /** What the plain machine does: instructions, polls, and time passed while halted. */
  datatype Event = DoSteps(n: nat) | DoPoll | DoIdle(cycles: nat)

  function Play(env: Env, s: Cpu, e: Event): Cpu {
    match e
    case DoSteps(n) => Steps(env, s, n)
    case DoPoll => s.(core := Poll(env, s.core))
    case DoIdle(n) => Idle(s, n)
  }

  function PlayAll(env: Env, s: Cpu, events: seq<Event>): Cpu
    decreases |events|
  {
    if events == [] then s else Play(env, PlayAll(env, s, events[..|events| - 1]), events[|events| - 1])
  }

  /** RunCached polls before every fourth block. */
  const POLL_INTERVAL := 4

  /** Instructions executed since the last poll. */
  function SincePoll(events: seq<Event>): nat
    decreases |events|
  {
    if events == [] then 0
    else
      var e := events[|events| - 1];
      if e.DoPoll? then 0
      else SincePoll(events[..|events| - 1]) + (if e.DoSteps? then e.n else 0)
  }

  lemma SinceOneMore(events: seq<Event>, e: Event)
    ensures SincePoll(events + [e])
            == if e.DoPoll? then 0 else SincePoll(events) + (if e.DoSteps? then e.n else 0)
  {
    assert (events + [e])[..|events|] == events;
  }

  /** A block has 1 to 64 instructions; time only passes idly, and nothing else happens, when halted. */
  predicate Allowed(e: Event, halted: bool) {
    match e
    case DoSteps(n) => !halted && 1 <= n <= MAX_LENGTH
    case DoPoll => true
    case DoIdle(_) => halted
  }

  /** No run of more than `bound` instructions without a poll. */
  ghost predicate Timely(events: seq<Event>, bound: nat, halted: bool) {
    && (forall k :: 0 <= k <= |events| ==> SincePoll(events[..k]) <= bound)
    && (forall e :: e in events ==> Allowed(e, halted))
  }

  lemma TimelyOneMore(events: seq<Event>, e: Event, bound: nat, halted: bool)
    requires Timely(events, bound, halted) && Allowed(e, halted)
    requires e.DoSteps? ==> SincePoll(events) + e.n <= bound
    ensures Timely(events + [e], bound, halted)
    ensures SincePoll(events + [e])
            == if e.DoPoll? then 0 else SincePoll(events) + (if e.DoSteps? then e.n else 0)
  {
    hide SincePoll;
    SinceOneMore(events, e);
    var longer := events + [e];
    assert events[..|events|] == events && longer[..|longer|] == longer;
    forall k | 0 <= k <= |longer| ensures SincePoll(longer[..k]) <= bound {
      if k <= |events| { assert longer[..k] == events[..k]; }
    }
  }

  lemma IdleIsSimilar(env: Env, c: Cpu, p: Cpu, n: nat)
    requires Similar(env, c, p)
    ensures Similar(env, Idle(c, n), Play(env, p, DoIdle(n)))
  {
    hide Low32;
  }

  // ---------------------------------------------------------------- the cached run

  /** The entry at pc: the word Fetch gives there, executed without its charge. */
  function NextEntry(env: Env, s: Cpu): Cpu {
    if s.core.status != Running then s
    else
      match FetchWord(env, s.core.pc)
      case None => s.(core := Panic(s.core))
      case Some(raw) => EntryStep(env, s, raw)
  }

  /** The first n entries of a block, none of them charged. */
  function Entries(env: Env, s: Cpu, n: nat): Cpu
    decreases n
  {
    if n == 0 then s else NextEntry(env, Entries(env, s, n - 1))
  }

  /** After any entry of a block a running CPU has a 32-bit pc, wherever it started. */
  lemma EntriesMaskPc(env: Env, s: Cpu, n: nat)
    requires n > 0
    ensures Entries(env, s, n).core.status == Running ==> Entries(env, s, n).core.pc < 0x1_0000_0000
  {
    hide Exec, FetchWord, Prepare;
  }

  lemma NoEntries(env: Env, s: Cpu)
    ensures Entries(env, s, 0) == s
  {
  }

  lemma OneMoreEntry(env: Env, s: Cpu, n: nat, raw: U32)
    requires var c := Entries(env, s, n).core; c.status == Running && FetchWord(env, c.pc) == Some(raw)
    ensures Entries(env, s, n + 1) == EntryStep(env, Entries(env, s, n), raw)
  {
    hide FetchWord, EntryStep;
  }

  function BlockCost(env: Env, n: nat): nat { n * env.config.cpi }

  /** A block of n entries, charged at its end unless the CPU has stopped. */
  function CachedBlock(env: Env, s: Cpu, n: nat): Cpu {
    var r := Entries(env, s, n);
    if r.core.status != Running then r else r.(core := Charge(r.core, BlockCost(env, n)))
  }

  function CachedPlay(env: Env, s: Cpu, e: Event): Cpu {
    match e
    case DoSteps(n) => CachedBlock(env, s, n)
    case DoPoll => s.(core := Poll(env, s.core))
    case DoIdle(n) => Idle(s, n)
  }

  /** The cached CPU after a schedule; it depends on nothing but its own start. */
  function CachedAll(env: Env, s: Cpu, events: seq<Event>): Cpu
    decreases |events|
  {
    if events == [] then s else CachedPlay(env, CachedAll(env, s, events[..|events| - 1]), events[|events| - 1])
  }

  lemma CachedOneMore(env: Env, s: Cpu, events: seq<Event>, e: Event)
    ensures CachedAll(env, s, events + [e]) == CachedPlay(env, CachedAll(env, s, events), e)
  {
    hide CachedPlay;
    assert (events + [e])[..|events|] == events;
  }

  /**
   * The visit of a block ends after k entries: at each entry before, the CPU ran and pc was where the block has
   * that entry, and after k entries the block is over, the CPU has stopped, or pc is elsewhere.
   */
  ghost predicate LeavesAfter(env: Env, c: Cpu, es: seq<Entry>, k: nat) {
    && 1 <= k <= |es|
    && (forall i :: 0 < i < k ==> StaysIn(Entries(env, c, i).core, es[i]))
    && (k < |es| ==> !StaysIn(Entries(env, c, k).core, es[k]))
  }

  /** n entries are a visit of the block scanned from some alias of pc. */
  ghost predicate Visits(env: Env, c: Cpu, n: nat) {
    exists v: U32 :: IsVisit(env, c, v, n)
  }

  ghost predicate IsVisit(env: Env, c: Cpu, v: U32, n: nat) {
    var t, u := Translate(env.tlb, v), Translate(env.tlb, c.core.pc);
    && t.found && u.found && t.address == u.address
    && Scan(env, v).Some? && LeavesAfter(env, c, Scan(env, v).value, n)
  }

  /** Every block of the schedule is such a visit. */
  ghost predicate AllVisits(env: Env, c: Cpu, events: seq<Event>) {
    forall k :: 0 <= k < |events| && events[k].DoSteps? ==> Visits(env, CachedAll(env, c, events[..k]), events[k].n)
  }

  lemma VisitsOneMore(env: Env, c: Cpu, events: seq<Event>, e: Event)
    requires AllVisits(env, c, events) && (e.DoSteps? ==> Visits(env, CachedAll(env, c, events), e.n))
    ensures AllVisits(env, c, events + [e])
  {
    hide CachedAll, Visits;
    var longer := events + [e];
    assert longer[..|events|] == events && longer[|events|] == e;
    assert forall k :: 0 <= k < |events| ==> longer[..k] == events[..k] && longer[k] == events[k];
  }

  predicate StaysIn(s: Core, next: Entry) {
    s.status == Running && s.pc == next.address
  }

  // ---------------------------------------------------------------- in step, entry by entry

  /** c meets the condition at the instruction it is about to execute; without an instruction both panic. */
  predicate EntryMeets(env: Env, c: Cpu, p: Cpu) {
    c.core.status == Running ==>
      match FetchWord(env, c.core.pc)
      case None => true
      case Some(raw) => Meets(env, c, p, raw)
  }

  /** So do the first n instructions of a block. */
  ghost predicate BlockMeets(env: Env, c: Cpu, p: Cpu, n: nat) {
    forall j :: 0 <= j < n ==> EntryMeets(env, Entries(env, c, j), Steps(env, p, j))
  }

  /** The cached CPU stays abreast of the plain one through n entries. */
  ghost predicate Abreast(env: Env, c: Cpu, p: Cpu, n: nat) {
    forall i :: 0 <= i <= n ==> InBlock(env, Entries(env, c, i), Steps(env, p, i), i)
  }

  lemma NextEntryExactly(env: Env, c: Cpu, p: Cpu, n: nat)
    requires env.tlb.Normal? && InBlock(env, c, p, n) && n < MAX_LENGTH
    ensures EntryMeets(env, c, p) <==> InBlock(env, NextEntry(env, c), Step(env, p), n + 1)
  {
    hide EntryStep, FetchWord, Meets, Exec, Prepare, Retire, Credit, Low32, Mid;
    if c.core.status == Running {
      ArchKeeps(c.core, p.core);
      SameFetch(env, c.core.pc, p.core.pc);
      if FetchWord(env, c.core.pc).Some? {
        EntryRefinesStep(env, c, p, n, FetchWord(env, c.core.pc).value);
      }
    }
  }

  /** The two stay abreast through a block exactly when all its instructions meet the condition. */
  lemma {:induction false} BlockExactly(env: Env, c: Cpu, p: Cpu, n: nat)
    requires env.tlb.Normal? && Similar(env, c, p) && n <= MAX_LENGTH
    ensures Abreast(env, c, p, n) <==> BlockMeets(env, c, p, n)
  {
    hide NextEntry, Step, InBlock, EntryMeets;
    if n > 0 {
      BlockExactly(env, c, p, n - 1);
      StepsOneMore(env, p, n - 1);
      if Abreast(env, c, p, n - 1) {
        NextEntryExactly(env, Entries(env, c, n - 1), Steps(env, p, n - 1), n - 1);
      }
    }
  }

  lemma ChargedAbreast(env: Env, c: Cpu, p: Cpu, n: nat)
    requires InBlock(env, Entries(env, c, n), Steps(env, p, n), n)
    ensures Similar(env, CachedBlock(env, c, n), Steps(env, p, n))
  {
    hide Entries, Steps, Arch, Charge;
    if Entries(env, c, n).core.status == Running { BlockEnd(env, Entries(env, c, n), Steps(env, p, n), n); }
  }

  // ---------------------------------------------------------------- in step, event by event

  predicate BlockFits(e: Event) {
    e.DoSteps? ==> e.n <= MAX_LENGTH
  }

  ghost predicate EventMeets(env: Env, c: Cpu, p: Cpu, e: Event) {
    e.DoSteps? ==> BlockMeets(env, c, p, e.n)
  }

  ghost predicate EventAbreast(env: Env, c: Cpu, p: Cpu, e: Event) {
    e.DoSteps? ==> Abreast(env, c, p, e.n)
  }

  /** Every instruction of the run meets the condition. */
  ghost predicate AllMeet(env: Env, c: Cpu, p: Cpu, events: seq<Event>) {
    forall k :: 0 <= k < |events| ==>
      EventMeets(env, CachedAll(env, c, events[..k]), PlayAll(env, p, events[..k]), events[k])
  }

  /** The two agree at every block boundary, and stay abreast inside every block. */
  ghost predicate InStep(env: Env, c: Cpu, p: Cpu, events: seq<Event>) {
    && (forall k :: 0 <= k <= |events| ==>
          Similar(env, CachedAll(env, c, events[..k]), PlayAll(env, p, events[..k])))
    && (forall k :: 0 <= k < |events| ==>
          EventAbreast(env, CachedAll(env, c, events[..k]), PlayAll(env, p, events[..k]), events[k]))
  }

  lemma PlayExactly(env: Env, c: Cpu, p: Cpu, e: Event)
    requires env.tlb.Normal? && Similar(env, c, p) && BlockFits(e)
    ensures EventAbreast(env, c, p, e) <==> EventMeets(env, c, p, e)
    ensures EventAbreast(env, c, p, e) ==> Similar(env, CachedPlay(env, c, e), Play(env, p, e))
  {
    hide Similar, BlockMeets, CachedBlock, Steps, Idle, Poll, InBlock;
    match e
    case DoSteps(n) =>
      BlockExactly(env, c, p, n);
      if Abreast(env, c, p, n) { ChargedAbreast(env, c, p, n); }
    case DoPoll => PollKeepsSimilar(env, c, p);
    case DoIdle(n) => IdleIsSimilar(env, c, p, n);
  }

  lemma PollKeepsSimilar(env: Env, c: Cpu, p: Cpu)
    requires env.tlb.Normal? && Similar(env, c, p)
    ensures Similar(env, CachedPlay(env, c, DoPoll), Play(env, p, DoPoll))
  {
    hide Arch, CheckInterrupt, PollTimer;
    if c.core.status == Running { PollIsSimilar(env, c, p); }
  }

  lemma MeetOneMore(env: Env, c: Cpu, p: Cpu, events: seq<Event>, e: Event)
    ensures AllMeet(env, c, p, events + [e])
            <==> AllMeet(env, c, p, events) && EventMeets(env, CachedAll(env, c, events), PlayAll(env, p, events), e)
  {
    hide CachedAll, PlayAll, EventMeets;
    var longer := events + [e];
    assert longer[..|events|] == events && longer[|events|] == e;
    assert forall k :: 0 <= k < |events| ==> longer[..k] == events[..k] && longer[k] == events[k];
  }

  lemma InStepOneMore(env: Env, c: Cpu, p: Cpu, events: seq<Event>, e: Event)
    ensures InStep(env, c, p, events + [e])
            <==> && InStep(env, c, p, events)
                 && EventAbreast(env, CachedAll(env, c, events), PlayAll(env, p, events), e)
                 && Similar(env, CachedAll(env, c, events + [e]), PlayAll(env, p, events + [e]))
  {
    hide CachedAll, PlayAll, EventAbreast, Similar;
    var longer := events + [e];
    assert longer[..|events|] == events && longer[|events|] == e && longer[..|longer|] == longer;
    assert forall k :: 0 <= k < |events| ==> longer[..k] == events[..k] && longer[k] == events[k];
    assert events[..|events|] == events;
  }

  /** A run stays in step from start to end exactly when every instruction it executes meets the condition. */
  lemma {:induction false} RunExactly(env: Env, c: Cpu, p: Cpu, events: seq<Event>)
    requires env.tlb.Normal? && Similar(env, c, p) && forall e :: e in events ==> BlockFits(e)
    ensures InStep(env, c, p, events) <==> AllMeet(env, c, p, events)
    decreases |events|
  {
    hide Similar, EventAbreast, EventMeets, BlockFits, CachedPlay, Play;
    if events != [] {
      var prefix, e := events[..|events| - 1], events[|events| - 1];
      assert events == prefix + [e];
      RunExactly(env, c, p, prefix);
      MeetOneMore(env, c, p, prefix, e);
      InStepOneMore(env, c, p, prefix, e);
      if InStep(env, c, p, prefix) {
        assert prefix[..|prefix|] == prefix;
        PlayExactly(env, CachedAll(env, c, prefix), PlayAll(env, p, prefix), e);
      }
    }
  }

  // ---------------------------------------------------------------- the departure

  /**
   * Entry j of the block after k events parts the two: they agree at every boundary up to that block and
   * entry by entry up to j, and the instruction at j does not meet the condition.
   */
  ghost predicate Departs(env: Env, c: Cpu, p: Cpu, events: seq<Event>, k: nat, j: nat) {
    && k < |events| && events[k].DoSteps? && j < events[k].n
    && InStep(env, c, p, events[..k])
    && var (c1, p1) := (CachedAll(env, c, events[..k]), PlayAll(env, p, events[..k]));
       Abreast(env, c1, p1, j) && !EntryMeets(env, Entries(env, c1, j), Steps(env, p1, j))
  }

  /** After it they really differ. */
  lemma DepartureDiffers(env: Env, c: Cpu, p: Cpu, events: seq<Event>, k: nat, j: nat)
    requires env.tlb.Normal? && Departs(env, c, p, events, k, j) && BlockFits(events[k])
    ensures var (c1, p1) := (CachedAll(env, c, events[..k]), PlayAll(env, p, events[..k]));
            && Entries(env, c1, j).core.status == Running
            && !InBlock(env, Entries(env, c1, j + 1), Steps(env, p1, j + 1), j + 1)
  {
    hide InStep, InBlock, NextEntry, Step, Meets, FetchWord, CachedAll, PlayAll;
    var c1, p1 := CachedAll(env, c, events[..k]), PlayAll(env, p, events[..k]);
    NextEntryExactly(env, Entries(env, c1, j), Steps(env, p1, j), j);
    StepsOneMore(env, p1, j);
  }

  /** The first instruction of a block that does not meet the condition. */
  lemma {:induction false} FirstFailure(env: Env, c: Cpu, p: Cpu, n: nat) returns (j: nat)
    requires !BlockMeets(env, c, p, n)
    ensures j < n && BlockMeets(env, c, p, j) && !EntryMeets(env, Entries(env, c, j), Steps(env, p, j))
  {
    hide EntryMeets, Entries, Steps;
    if BlockMeets(env, c, p, n - 1) {
      j := n - 1;
    } else {
      j := FirstFailure(env, c, p, n - 1);
    }
  }

  lemma DepartureAt(env: Env, c: Cpu, p: Cpu, events: seq<Event>, k: nat) returns (j: nat)
    requires env.tlb.Normal? && Similar(env, c, p) && forall e :: e in events ==> BlockFits(e)
    requires k < |events| && AllMeet(env, c, p, events[..k])
    requires !EventMeets(env, CachedAll(env, c, events[..k]), PlayAll(env, p, events[..k]), events[k])
    ensures Departs(env, c, p, events, k, j)
  {
    hide Similar, AllMeet, BlockMeets, Abreast, CachedAll, PlayAll, EntryMeets, Entries, Steps;
    var prefix := events[..k];
    var c1, p1 := CachedAll(env, c, prefix), PlayAll(env, p, prefix);
    RunExactly(env, c, p, prefix);
    assert prefix[..|prefix|] == prefix;
    assert Similar(env, c1, p1);
    assert BlockFits(events[k]);
    j := FirstFailure(env, c1, p1, events[k].n);
    BlockExactly(env, c1, p1, j);
  }

  /** When some instruction of the run fails the condition, the run has a departure. */
  lemma {:induction false} DepartureExists(env: Env, c: Cpu, p: Cpu, events: seq<Event>, n: nat)
    returns (k: nat, j: nat)
    requires env.tlb.Normal? && Similar(env, c, p) && forall e :: e in events ==> BlockFits(e)
    requires n <= |events| && !AllMeet(env, c, p, events[..n])
    ensures Departs(env, c, p, events, k, j)
    decreases n
  {
    hide Similar, EventMeets, CachedAll, PlayAll, BlockFits, Departs, AllMeet;
    NotEmpty(env, c, p, events[..n]);
    if AllMeet(env, c, p, events[..n - 1]) {
      k := n - 1;
      assert events[..n] == events[..k] + [events[k]];
      MeetOneMore(env, c, p, events[..k], events[k]);
      j := DepartureAt(env, c, p, events, k);
    } else {
      k, j := DepartureExists(env, c, p, events, n - 1);
    }
  }

  lemma NotEmpty(env: Env, c: Cpu, p: Cpu, events: seq<Event>)
    requires !AllMeet(env, c, p, events)
    ensures |events| > 0
  {
  }

  /** A departure is a failed condition, and there is only one. */
  lemma DepartureFails(env: Env, c: Cpu, p: Cpu, events: seq<Event>, k: nat, j: nat)
    requires Departs(env, c, p, events, k, j)
    ensures !AllMeet(env, c, p, events)
  {
    hide InStep, Abreast, CachedAll, PlayAll, EntryMeets, Entries, Steps;
    var c1, p1 := CachedAll(env, c, events[..k]), PlayAll(env, p, events[..k]);
    assert !BlockMeets(env, c1, p1, events[k].n);
    assert !EventMeets(env, c1, p1, events[k]);
  }

  lemma DepartureIsFirst(env: Env, c: Cpu, p: Cpu, events: seq<Event>, k: nat, j: nat, k': nat, j': nat)
    requires env.tlb.Normal? && forall e :: e in events ==> BlockFits(e)
    requires Departs(env, c, p, events, k, j) && Departs(env, c, p, events, k', j')
    ensures k == k' && j == j'
  {
    NotEarlier(env, c, p, events, k, j, k', j');
    NotEarlier(env, c, p, events, k', j', k, j);
  }

  lemma PassesBlock(env: Env, c: Cpu, p: Cpu, events: seq<Event>, k: nat, n: nat)
    requires k < n <= |events| && InStep(env, c, p, events[..n])
    ensures EventAbreast(env, CachedAll(env, c, events[..k]), PlayAll(env, p, events[..k]), events[k])
  {
    hide CachedAll, PlayAll, EventAbreast, Similar;
    var prefix := events[..n];
    assert prefix[..k] == events[..k] && prefix[k] == events[k];
  }

  lemma NotEarlier(env: Env, c: Cpu, p: Cpu, events: seq<Event>, k: nat, j: nat, k': nat, j': nat)
    requires env.tlb.Normal? && forall e :: e in events ==> BlockFits(e)
    requires Departs(env, c, p, events, k, j) && Departs(env, c, p, events, k', j')
    ensures k' < k || (k' == k && j' <= j)
  {
    hide InBlock, CachedAll, PlayAll, EntryMeets, Entries, Steps, Similar;
    DepartureDiffers(env, c, p, events, k, j);
    if k < k' {
      PassesBlock(env, c, p, events, k, k');
    }
  }

  /** A run ends where the plain one does unless an instruction parts the two, and then there is a first one. */
  lemma RunPartsExactly(env: Env, c: Cpu, p: Cpu, events: seq<Event>)
    requires env.tlb.Normal? && Similar(env, c, p) && forall e :: e in events ==> BlockFits(e)
    ensures AllMeet(env, c, p, events) <==> InStep(env, c, p, events)
    ensures AllMeet(env, c, p, events) ==> Similar(env, CachedAll(env, c, events), PlayAll(env, p, events))
    ensures !AllMeet(env, c, p, events) <==> exists k: nat, j: nat :: Departs(env, c, p, events, k, j)
  {
    hide AllMeet, Similar, EventAbreast, CachedAll, PlayAll, Departs, BlockFits;
    RunExactly(env, c, p, events);
    assert events[..|events|] == events;
    if !AllMeet(env, c, p, events) {
      var k, j := DepartureExists(env, c, p, events, |events|);
    }
    forall k: nat, j: nat | Departs(env, c, p, events, k, j) ensures !AllMeet(env, c, p, events) {
      DepartureFails(env, c, p, events, k, j);
    }
  }

  /** Programs without instructions that can fail the condition stay in step. */
  lemma ComparableMeetsAll(env: Env, c: Cpu, p: Cpu, events: seq<Event>)
    requires env.tlb.Normal? && ComparableProgram(env)
    ensures AllMeet(env, c, p, events)
  {
    hide EntryMeets, CachedAll, PlayAll, Entries, Steps, ComparableProgram;
    forall k | 0 <= k < |events|
      ensures EventMeets(env, CachedAll(env, c, events[..k]), PlayAll(env, p, events[..k]), events[k])
    {
      var c1, p1 := CachedAll(env, c, events[..k]), PlayAll(env, p, events[..k]);
      forall j: nat {:trigger Entries(env, c1, j)} ensures EntryMeets(env, Entries(env, c1, j), Steps(env, p1, j)) {
        ComparableEntry(env, Entries(env, c1, j), Steps(env, p1, j));
      }
    }
  }

  lemma ComparableEntry(env: Env, c: Cpu, p: Cpu)
    requires env.tlb.Normal? && ComparableProgram(env)
    ensures EntryMeets(env, c, p)
  {
    hide FetchWord, Meets, Comparable, WordAt, Low32;
    FetchAt(env, c.core.pc);
    if FetchWord(env, c.core.pc).Some? { ComparableMeets(env, c, p, FetchWord(env, c.core.pc).value); }
  }

  lemma FetchAt(env: Env, pc: U64)
    requires env.tlb.Normal?
    ensures FetchWord(env, pc) == WordAt(env, Low32(pc))
  {
    hide FetchWord;
    LowOfLow(pc);
    SameFetch(env, pc, Low32(pc));
  }

  /** The plain CPU cannot fetch its next instruction. */
  predicate PanicsOnFetch(env: Env, s: Cpu) {
    s.core.status == Running && FetchWord(env, s.core.pc) == None
  }

  lemma SimilarFetch(env: Env, c: Cpu, p: Cpu)
    requires env.tlb.Normal? && Similar(env, c, p)
    ensures PanicsOnFetch(env, c) <==> PanicsOnFetch(env, p)
  {
    hide FetchWord, Credit, Mid, Low32;
    if c.core.status == Running {
      ArchKeeps(c.core, p.core);
      SameFetch(env, c.core.pc, p.core.pc);
    }
  }
}
