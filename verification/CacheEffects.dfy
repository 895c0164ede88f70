/**
 * What executing instructions does to the block cache: CACHE marks exactly the blocks that hold a byte of its
 * 32-byte line, nothing else touches the cache, and a marked block does not outlive the next clear
 * (src/mips_base.cpp:310-360, 2497-2514; src/mips_cache.cpp:137-198).
 */
module CacheEffects {
  import opened Words
  import opened Decoder
  import opened Encoding
  import opened Tlb
  import opened Handlers
  import opened Machine
  import opened Blocks
  import opened Cache
  import opened CacheRuns
  import opened Invalidation
  import opened Lockstep

  // ---------------------------------------------------------------- one instruction

  /** The cache after one instruction. */
  function CacheAfter(env: Env, st: CacheState, useCache: bool, gpr: Regs, raw: U32): CacheState {
    if Decode(raw).KCache? then CacheInstruction(st, env.tlb, useCache, raw, Address(raw, gpr)) else st
  }

  /** The blocks that hold a byte of the 32-byte line of an address, translated byte by byte. */
  function LineBlocks(m: BlockMap, tlb: TlbView, address: U64): set<nat> {
    set k | k in m && HoldsLine(m[k], tlb, address - address % 32) :: k
  }

  predicate HoldsLine(b: Block, tlb: TlbView, line: U64) {
    exists j :: 0 <= j < 32 && HoldsByte(b, tlb, line, j)
  }

  /** Opcode 47 with bit 16 clear, executed by a CPU that uses its cache. */
  predicate Invalidates(useCache: bool, raw: U32) {
    useCache && Op(raw) == 47 && Rt(raw) % 2 == 0
  }

  /** Such an instruction marks exactly the blocks of its line; no other instruction changes the cache. */
  lemma CacheMarks(env: Env, st: CacheState, useCache: bool, gpr: Regs, raw: U32)
    requires env.tlb.Normal? && ValidView(env.tlb) && Coherent(st.blocks, {})
    ensures var line := LineBlocks(st.blocks, env.tlb, Wrap64(gpr[Rs(raw)] + Signed16(Imm(raw))));
            CacheAfter(env, st, useCache, gpr, raw)
            == if Invalidates(useCache, raw) then st.(pending := st.pending + line) else st
  {
    hide Decode, Op, Rs, Rt, Imm, Wrap64, ValidView, CacheInstruction, HoldsLine;
    CacheWord(raw);
    RtBits(raw);
    var address := Address(raw, gpr);
    CacheTouches(st, env.tlb, useCache, raw, address);
    if Invalidates(useCache, raw) { MarksLine(st, env.tlb, raw, address); }
  }

  /** Of the cache, the instruction changes at most the pending set. */
  lemma CacheTouches(st: CacheState, tlb: TlbView, useCache: bool, raw: U32, address: U64)
    ensures var st' := CacheInstruction(st, tlb, useCache, raw, address);
            st' == st.(pending := st'.pending) && st.pending <= st'.pending
    ensures raw / 0x1_0000 % 2 == 1 || !useCache ==> CacheInstruction(st, tlb, useCache, raw, address) == st
  {
    hide Translate;
  }

  lemma MarksLine(st: CacheState, tlb: TlbView, raw: U32, address: U64)
    requires tlb.Normal? && ValidView(tlb) && Coherent(st.blocks, {}) && raw / 0x1_0000 % 2 == 0
    ensures CacheInstruction(st, tlb, true, raw, address).pending == st.pending + LineBlocks(st.blocks, tlb, address)
  {
    hide ValidView;
    var p, q := CacheInstruction(st, tlb, true, raw, address).pending, LineBlocks(st.blocks, tlb, address);
    OnlyBlocks(st, tlb, raw, address);
    forall k | k in st.blocks ensures k in p <==> k in st.pending || k in q {
      LineMarksItsBytes(st, tlb, raw, address, k);
    }
    hide CacheInstruction;
  }

  lemma OnlyBlocks(st: CacheState, tlb: TlbView, raw: U32, address: U64)
    ensures CacheInstruction(st, tlb, true, raw, address).pending <= st.pending + st.blocks.Keys
  {
    hide Translate;
  }

  // ---------------------------------------------------------------- several instructions

  /** The cache after the instruction at pc. */
  function NextCache(env: Env, st: CacheState, useCache: bool, s: Cpu): CacheState {
    if s.core.status != Running then st
    else
      match FetchWord(env, s.core.pc)
      case None => st
      case Some(raw) => CacheAfter(env, st, useCache, s.data.gpr, raw)
  }

  /** ... after n plain steps, and after n entries of a block. */
  function StepsCache(env: Env, st: CacheState, useCache: bool, s: Cpu, n: nat): CacheState {
    if n == 0 then st else NextCache(env, StepsCache(env, st, useCache, s, n - 1), useCache, Steps(env, s, n - 1))
  }

  function EntriesCache(env: Env, st: CacheState, useCache: bool, s: Cpu, n: nat): CacheState {
    if n == 0 then st
    else NextCache(env, EntriesCache(env, st, useCache, s, n - 1), useCache, Entries(env, s, n - 1))
  }

  lemma NoStepsYet(env: Env, st: CacheState, useCache: bool, s: Cpu)
    ensures StepsCache(env, st, useCache, s, 0) == st
  {
  }

  lemma OneMoreStep(env: Env, st: CacheState, useCache: bool, s: Cpu, n: nat)
    ensures StepsCache(env, st, useCache, s, n + 1)
            == NextCache(env, StepsCache(env, st, useCache, s, n), useCache, Steps(env, s, n))
  {
    hide NextCache, Steps;
  }

  lemma NoEntriesYet(env: Env, st: CacheState, useCache: bool, s: Cpu)
    ensures EntriesCache(env, st, useCache, s, 0) == st
  {
  }

  lemma OneMoreCache(env: Env, st: CacheState, useCache: bool, s: Cpu, n: nat, raw: U32)
    requires var c := Entries(env, s, n).core; c.status == Running && FetchWord(env, c.pc) == Some(raw)
    ensures EntriesCache(env, st, useCache, s, n + 1)
            == CacheAfter(env, EntriesCache(env, st, useCache, s, n), useCache, Entries(env, s, n).data.gpr, raw)
  {
    hide FetchWord, CacheAfter, Entries;
  }

  /** The cache with a block for pc: scanned when it has none. */
  function Filled(env: Env, st: CacheState, pc: U64): CacheState {
    if Lookup(st, env.tlb, pc) == None && Scan(env, Low32(pc)).Some?
    then Insert(st, env.tlb, NewBlock(pc, Scan(env, Low32(pc)).value))
    else st
  }

  /** The line that a CACHE instruction addresses. */
  function LineOf(gpr: Regs, raw: U32): U64 {
    var address := Wrap64(gpr[Rs(raw)] + Signed16(Imm(raw)));
    address - address % 32
  }

  // ---------------------------------------------------------------- whole runs

  /** The pending work is done, when there is any. */
  ghost predicate Cleared(st: CacheState, st': CacheState) {
    if st.clearQueued || st.pending != {} then ExecuteClear(st, st') else st' == st
  }

  /** One visit of a block: the pending work, a scan if there is no block for pc, and n entries. */
  ghost predicate VisitCache(env: Env, useCache: bool, c: Cpu, n: nat, st: CacheState, st': CacheState) {
    exists st1 :: Cleared(st, st1) && st' == EntriesCache(env, Filled(env, st1, c.core.pc), useCache, c, n)
  }

  /** Polls and idle time leave the cache alone. */
  ghost predicate CacheEvent(env: Env, useCache: bool, c: Cpu, e: Event, st: CacheState, st': CacheState) {
    match e
    case DoSteps(n) => VisitCache(env, useCache, c, n, st, st')
    case DoPoll => st' == st
    case DoIdle(_) => st' == st
  }

  /** st may be the cache of the CPU that started in c0 with st0, after a schedule. */
  ghost predicate CacheRun(env: Env, useCache: bool, c0: Cpu, st0: CacheState, events: seq<Event>, st: CacheState)
    decreases |events|
  {
    if events == [] then st == st0
    else
      var before := events[..|events| - 1];
      exists st1 ::
        && CacheRun(env, useCache, c0, st0, before, st1)
        && CacheEvent(env, useCache, CachedAll(env, c0, before), events[|events| - 1], st1, st)
  }

  lemma CacheRunOneMore(
    env: Env, useCache: bool, c0: Cpu, st0: CacheState, events: seq<Event>, e: Event, st: CacheState, st': CacheState)
    requires CacheRun(env, useCache, c0, st0, events, st)
    requires CacheEvent(env, useCache, CachedAll(env, c0, events), e, st, st')
    ensures CacheRun(env, useCache, c0, st0, events + [e], st')
  {
    hide CacheEvent, CachedAll;
    assert (events + [e])[..|events|] == events && (events + [e])[|events|] == e;
  }

  lemma MissingKey(st: CacheState, tlb: TlbView, pc: U64)
    requires tlb.Normal? && Lookup(st, tlb, pc) == None
    ensures Translate(tlb, pc).found ==> Translate(tlb, pc).address !in st.blocks
  {
    hide Translate, TranslateFast;
    FastPathAgrees(tlb, pc);
  }

  lemma ContentsKeys(m: map<nat, CacheBlock>)
    ensures forall k :: k in Contents(m) <==> k in m
  {
  }

  /** c is about to execute an invalidating CACHE whose line has a byte in the block. */
  predicate HitsBlock(env: Env, useCache: bool, c: Cpu, b: Block) {
    c.core.status == Running
    && match FetchWord(env, c.core.pc)
       case None => false
       case Some(raw) =>
         Invalidates(useCache, raw) && HoldsLine(b, env.tlb, LineOf(c.data.gpr, raw))
  }

  /** One of the first n entries from s on does. */
  predicate HitsWithin(env: Env, useCache: bool, s: Cpu, n: nat, b: Block) {
    exists i: nat :: i < n && HitsBlock(env, useCache, Entries(env, s, i), b)
  }

  lemma HitsWithinStep(env: Env, useCache: bool, s: Cpu, n: nat, b: Block)
    requires n > 0
    ensures HitsWithin(env, useCache, s, n, b)
            <==> HitsWithin(env, useCache, s, n - 1, b) || HitsBlock(env, useCache, Entries(env, s, n - 1), b)
  {
    hide Entries, HitsBlock;
  }

  lemma NothingHit(env: Env, useCache: bool, s: Cpu)
    ensures forall b :: !HitsWithin(env, useCache, s, 0, b)
  {
    hide Entries, HitsBlock;
  }

  lemma NextCacheGrows(env: Env, st: CacheState, useCache: bool, c: Cpu)
    requires env.tlb.Normal? && ValidView(env.tlb) && Coherent(st.blocks, {})
    ensures var st' := NextCache(env, st, useCache, c);
            st' == st.(pending := st'.pending) && st.pending <= st'.pending
    ensures forall k :: k in st.blocks ==>
              (k in NextCache(env, st, useCache, c).pending
               <==> k in st.pending || HitsBlock(env, useCache, c, st.blocks[k]))
  {
    hide FetchWord, ValidView, CacheAfter, Invalidates, HoldsLine, Wrap64;
    if c.core.status == Running {
      var word := FetchWord(env, c.core.pc);
      if word.Some? { CacheMarks(env, st, useCache, c.data.gpr, word.value); }
    }
  }

  /** The entries of a block mark exactly the blocks that one of them hits. */
  lemma {:induction false} EntriesMark(env: Env, st: CacheState, useCache: bool, s: Cpu, n: nat)
    requires env.tlb.Normal? && ValidView(env.tlb) && Coherent(st.blocks, {})
    ensures var st' := EntriesCache(env, st, useCache, s, n);
            && st'.blocks == st.blocks && st'.clearQueued == st.clearQueued && st.pending <= st'.pending
            && forall k :: k in st.blocks ==>
                 (k in st'.pending <==> k in st.pending || HitsWithin(env, useCache, s, n, st.blocks[k]))
  {
    hide Entries, NextCache, HitsBlock, HitsWithin, ValidView;
    if n > 0 {
      EntriesMark(env, st, useCache, s, n - 1);
      NextCacheGrows(env, EntriesCache(env, st, useCache, s, n - 1), useCache, Entries(env, s, n - 1));
      forall k | k in st.blocks
        ensures k in EntriesCache(env, st, useCache, s, n).pending
                <==> k in st.pending || HitsWithin(env, useCache, s, n, st.blocks[k])
      {
        HitsWithinStep(env, useCache, s, n, st.blocks[k]);
      }
    } else {
      NothingHit(env, useCache, s);
    }
  }

  // ---------------------------------------------------------------- until the next clear

  /** A block that contains the start of another, and does not end before it, holds the same line. */
  lemma HoldsSpread(b: Block, c: Block, tlb: TlbView, line: U64)
    requires Contains(c, b.start) && b.end <= c.end && HoldsLine(b, tlb, line)
    ensures HoldsLine(c, tlb, line)
  {
    hide Translate;
    var j :| 0 <= j < 32 && HoldsByte(b, tlb, line, j);
    assert HoldsByte(c, tlb, line, j);
  }

  lemma HitsSpread(env: Env, useCache: bool, s: Cpu, n: nat, b: Block, c: Block)
    requires Contains(c, b.start) && b.end <= c.end && HitsWithin(env, useCache, s, n, b)
    ensures HitsWithin(env, useCache, s, n, c)
  {
    hide Entries, FetchWord, Invalidates, HoldsLine, LineOf;
    var i: nat :| i < n && HitsBlock(env, useCache, Entries(env, s, i), b);
    var e := Entries(env, s, i);
    HoldsSpread(b, c, env.tlb, LineOf(e.data.gpr, FetchWord(env, e.core.pc).value));
    assert HitsBlock(env, useCache, Entries(env, s, i), c);
  }

  /** The blocks that one of the entries hits. */
  function HitBlocks(env: Env, m: BlockMap, useCache: bool, s: Cpu, n: nat): set<nat> {
    set k | k in m && HitsWithin(env, useCache, s, n, m[k]) :: k
  }

  lemma HitBlocksAreClosed(env: Env, m: BlockMap, useCache: bool, s: Cpu, n: nat)
    requires Coherent(m, {}) && NoneOutlives(m)
    ensures Closed(m, HitBlocks(env, m, useCache, s, n))
  {
    hide HitsWithin;
    var q := HitBlocks(env, m, useCache, s, n);
    forall a, k | a in q && k in m && Contains(m[k], a) ensures k in q {
      assert Contains(m[k], m[a].start);
      HitsSpread(env, useCache, s, n, m[a], m[k]);
    }
  }

  /**
   * Where no block outlives another, every block that an entry hit is gone once the pending work is done,
   * whatever else was marked and in whatever order the map is searched.
   */
  lemma HitBlocksAreErased(env: Env, st: CacheState, useCache: bool, s: Cpu, n: nat, st': CacheState)
    requires env.tlb.Normal? && ValidView(env.tlb) && Coherent(st.blocks, st.pending) && NoneOutlives(st.blocks)
    requires ExecuteClear(EntriesCache(env, st, useCache, s, n), st')
    ensures forall k :: k in st.blocks && HitsWithin(env, useCache, s, n, st.blocks[k]) ==> k !in st'.blocks
  {
    hide EntriesCache, HitsWithin, Erases, Closed, ValidView;
    var st1 := EntriesCache(env, st, useCache, s, n);
    EntriesMark(env, st, useCache, s, n);
    EntriesMarkBlocks(env, st, useCache, s, n);
    if !st1.clearQueued {
      HitBlocksAreClosed(env, st.blocks, useCache, s, n);
      ClosedPartIsErased(st1.blocks, st1.pending, HitBlocks(env, st.blocks, useCache, s, n), st'.blocks);
    }
  }

  /** The same when there may be no pending work: then nothing was hit. */
  lemma HitBlocksAreCleared(env: Env, st: CacheState, useCache: bool, s: Cpu, n: nat, st': CacheState)
    requires env.tlb.Normal? && ValidView(env.tlb) && Coherent(st.blocks, st.pending) && NoneOutlives(st.blocks)
    requires Cleared(EntriesCache(env, st, useCache, s, n), st')
    ensures forall k :: k in st.blocks && HitsWithin(env, useCache, s, n, st.blocks[k]) ==> k !in st'.blocks
  {
    hide EntriesCache, HitsWithin, ExecuteClear, ValidView, Coherent, NoneOutlives;
    var st1 := EntriesCache(env, st, useCache, s, n);
    if st1.clearQueued || st1.pending != {} {
      HitBlocksAreErased(env, st, useCache, s, n, st');
    } else {
      CoherentBlocks(st);
      EntriesMark(env, st, useCache, s, n);
    }
  }

  lemma CoherentBlocks(st: CacheState)
    requires Coherent(st.blocks, st.pending)
    ensures Coherent(st.blocks, {})
  {
  }

  lemma {:induction false} EntriesMarkBlocks(env: Env, st: CacheState, useCache: bool, s: Cpu, n: nat)
    requires env.tlb.Normal? && ValidView(env.tlb) && Coherent(st.blocks, st.pending)
    ensures var st' := EntriesCache(env, st, useCache, s, n); Coherent(st'.blocks, st'.pending)
  {
    hide Entries, NextCache, ValidView;
    if n > 0 {
      EntriesMarkBlocks(env, st, useCache, s, n - 1);
      NextCacheMarksBlocks(env, EntriesCache(env, st, useCache, s, n - 1), useCache, Entries(env, s, n - 1));
    }
  }

  lemma NextCacheMarksBlocks(env: Env, st: CacheState, useCache: bool, c: Cpu)
    requires Coherent(st.blocks, st.pending)
    ensures var st' := NextCache(env, st, useCache, c); Coherent(st'.blocks, st'.pending)
  {
    hide FetchWord, CacheInstruction, Decode, Address;
    if c.core.status == Running && FetchWord(env, c.core.pc).Some? {
      var raw := FetchWord(env, c.core.pc).value;
      CacheTouches(st, env.tlb, useCache, raw, Address(raw, c.data.gpr));
      OnlyBlocks(st, env.tlb, raw, Address(raw, c.data.gpr));
    }
  }
}
