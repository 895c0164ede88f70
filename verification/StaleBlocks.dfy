/** Programs whose scanned blocks break exact invalidation: a block in another's delay slot, and the length cap. */
module StaleBlocks {
  import opened Words
  import opened Decoder
  import opened Tlb
  import opened Machine
  import opened Blocks
  import opened Cache
  import opened CacheRuns
  import opened CodeCache
  import opened Invalidation

  const TLB := Normal([], 0)

  /** The state after scanning at v and then at w. */
  function TwoBlocks(env: Env, v: U32, w: U32, b: seq<Entry>, c: seq<Entry>): CacheState {
    Insert(Insert(EMPTY, env.tlb, NewBlock(v, b)), env.tlb, NewBlock(w, c))
  }

  lemma LowKseg(v: U32)
    requires 0x8000_0000 <= v < 0x8000_1000
    ensures Translate(TLB, v) == Translation(true, false, v - 0x8000_0000) && Low32(v) == v
  {
  }

  lemma OneInsert(env: Env, st: CacheState, v: U32, b: seq<Entry>)
    requires env.tlb == TLB && 0x8000_0000 <= v < 0x8000_1000 && |b| <= MAX_LENGTH && v - 0x8000_0000 !in st.blocks
    ensures var p := v - 0x8000_0000;
            Insert(st, env.tlb, NewBlock(v, b)) == st.(blocks := st.blocks[p := Block(p, p + 4 * |b|, b)])
  {
    LowKseg(v);
    LengthSurvives(v, |b|);
    hide Translate, Low32;
  }

  /** The cache of blocks b and c at kseg0 addresses v < w. */
  lemma TwoBlocksAre(env: Env, v: U32, w: U32, b: seq<Entry>, c: seq<Entry>)
    requires env.tlb == TLB && 0x8000_0000 <= v < w < 0x8000_1000 && |b| <= MAX_LENGTH && |c| <= MAX_LENGTH
    ensures var (p, q) := (v - 0x8000_0000, w - 0x8000_0000);
            TwoBlocks(env, v, w, b, c).blocks
            == map[p := Block(p, p + 4 * |b|, b), q := Block(q, q + 4 * |c|, c)]
    ensures TwoBlocks(env, v, w, b, c).pending == {} && !TwoBlocks(env, v, w, b, c).clearQueued
  {
    hide Insert, NewBlock;
    OneInsert(env, EMPTY, v, b);
    OneInsert(env, Insert(EMPTY, env.tlb, NewBlock(v, b)), w, c);
  }

  /** b contains the start of c, and only c overlaps the range: the search for c may erase b. */
  lemma WrongErasure(m: BlockMap, p: nat, q: nat, lo: nat, hi: nat)
    requires p != q && p in m && q in m && m.Keys == {p, q} && m[p].start == p && m[q].start == q
    requires Contains(m[p], q) && m[p].end <= lo && Overlaps(m[q], lo, hi)
    ensures Overlapping(m, lo, hi) == {q} && Erases(m, {q}, map[q := m[q]])
  {
    var m' := map[q := m[q]];
    assert m' == m - {p};
    assert EraseStep(m, q, m');
    assert IsRun([m, m'], [q]) && Ascending([q], {q});
    var order, t := [q], [m, m'];
    assert t[0] == m && t[|order|] == m';
  }

  /** CACHE on the line at kseg0 offset lo, and then the pending work: the invalidated block is still there. */
  lemma StaleHistory(st: CacheState, p: nat, q: nat, lo: U32)
    requires st.pending == {} && !st.clearQueued && lo < 0x1000
    requires p != q && st.blocks.Keys == {p, q} && st.blocks[p].start == p && st.blocks[q].start == q
    requires Contains(st.blocks[p], q) && st.blocks[p].end <= lo && Overlaps(st.blocks[q], lo, lo + 32)
    ensures IsInvalidation(TLB, [OpInvalidate(0x8000_0000 + lo, 0x8000_0000 + lo + 32)],
                           [st, st.(pending := {q}), CacheState(map[q := st.blocks[q]], {}, false)])
  {
    var start, end := 0x8000_0000 + lo, 0x8000_0000 + lo + 32;
    var s1, s2 := st.(pending := {q}), CacheState(map[q := st.blocks[q]], {}, false);
    WrongErasure(st.blocks, p, q, lo, lo + 32);
    LineIs(st, lo);
    hide Overlapping, Erases, Invalidate, TLB;
    assert StepRel(TLB, st, OpInvalidate(start, end), s1) && StepRel(TLB, s1, OpExecuteClear, s2);
    assert [OpInvalidate(start, end)] + [OpExecuteClear] == [OpInvalidate(start, end), OpExecuteClear];
  }

  lemma LineIs(st: CacheState, lo: U32)
    requires lo < 0x1000
    ensures Invalidate(st, TLB, 0x8000_0000 + lo, 0x8000_0000 + lo + 32)
            == st.(pending := st.pending + Overlapping(st.blocks, lo, lo + 32))
  {
    LowKseg(0x8000_0000 + lo);
    hide Translate, Overlapping;
  }

  // ---------------------------------------------------------------- a start in a delay slot

  const BEQ: U32 := 0x1000_0004

  /** BEQ at 0x18 and 0x20, nops elsewhere. */
  function SlotProgram(a: U64): U32 {
    if a == 0x18 || a == 0x20 then BEQ else 0
  }

  const SLOT_ENV := Env(Config(0x180, true), TLB, SlotProgram)

  const OUTER := [Entry(0x8000_0018, BEQ), Entry(0x8000_001C, 0)]
  const INNER := [Entry(0x8000_001C, 0), Entry(0x8000_0020, BEQ), Entry(0x8000_0024, 0)]

  lemma Decoded()
    ensures IsInstBranch(BEQ) && DoesInstHaveDelaySlot(BEQ) && !IsInstBranch(0) && !DoesInstHaveDelaySlot(0)
  {
    DecodedBeq();
    DecodedNop();
    hide Decode;
  }

  lemma DecodedBeq()
    ensures Decode(BEQ).KBeq?
  {
  }

  lemma SlotScans()
    ensures Scan(SLOT_ENV, 0x8000_0018) == Some(OUTER) && Scan(SLOT_ENV, 0x8000_001C) == Some(INNER)
  {
    Decoded();
    hide IsInstBranch, DoesInstHaveDelaySlot, Scan;
    assert MatchesCode(SLOT_ENV, 0x8000_0018, OUTER) && WellEnded(OUTER);
    assert MatchesCode(SLOT_ENV, 0x8000_001C, INNER) && WellEnded(INNER);
    ScanIs(SLOT_ENV, 0x8000_0018, OUTER);
    ScanIs(SLOT_ENV, 0x8000_001C, INNER);
  }

  /**
   * Scanning at a branch and at its delay slot, and invalidating the line after the slot: the block that
   * overlaps the line survives.
   */
  lemma SlotStartGoesStale() returns (states: seq<CacheState>)
    ensures Scan(SLOT_ENV, 0x8000_0018) == Some(OUTER) && Scan(SLOT_ENV, 0x8000_001C) == Some(INNER)
    ensures IsInvalidation(TLB, [OpInvalidate(0x8000_0020, 0x8000_0040)], states)
    ensures states[0] == TwoBlocks(SLOT_ENV, 0x8000_0018, 0x8000_001C, OUTER, INNER)
    ensures 0x1C in states[2].blocks && Overlaps(states[2].blocks[0x1C], 0x20, 0x40)
  {
    hide Scan, TwoBlocks, Erases, IsInvalidation;
    SlotScans();
    TwoBlocksAre(SLOT_ENV, 0x8000_0018, 0x8000_001C, OUTER, INNER);
    var st := TwoBlocks(SLOT_ENV, 0x8000_0018, 0x8000_001C, OUTER, INNER);
    StaleHistory(st, 0x18, 0x1C, 0x20);
    states := [st, st.(pending := {0x1C}), CacheState(map[0x1C := st.blocks[0x1C]], {}, false)];
  }

  // ---------------------------------------------------------------- the length cap

  const NOP_ENV := Env(Config(0x180, true), TLB, _ => 0)

  /** A block of nops, ended by the cap. */
  function Nops(v: U32): seq<Entry> {
    seq(MAX_LENGTH - 1, i => Entry(Wrap32(v + 4 * i), 0))
  }

  lemma NopScan(v: U32)
    requires 0x8000_0000 <= v < 0x8000_1000
    ensures Scan(NOP_ENV, v) == Some(Nops(v))
  {
    Decoded();
    hide Scan, IsInstBranch, DoesInstHaveDelaySlot;
    forall i | 0 <= i < |Nops(v)|
      ensures Nops(v)[i].address == Wrap32(v + 4 * i) && WordAt(NOP_ENV, v + 4 * i) == Some(Nops(v)[i].opcode)
    {
    }
    ScanIs(NOP_ENV, v, Nops(v));
  }

  /** Two capped blocks overlap without sharing an end, and neither starts in a delay slot. */
  lemma CappedBlocksGoStale() returns (states: seq<CacheState>)
    ensures Scan(NOP_ENV, 0x8000_0004) == Some(Nops(0x8000_0004)) &&
            Scan(NOP_ENV, 0x8000_0008) == Some(Nops(0x8000_0008))
    ensures IsInvalidation(TLB, [OpInvalidate(0x8000_0100, 0x8000_0120)], states)
    ensures states[0] == TwoBlocks(NOP_ENV, 0x8000_0004, 0x8000_0008, Nops(0x8000_0004), Nops(0x8000_0008))
    ensures 8 in states[2].blocks && Overlaps(states[2].blocks[8], 0x100, 0x120)
  {
    hide Scan, TwoBlocks, Erases, IsInvalidation;
    NopScan(0x8000_0004);
    NopScan(0x8000_0008);
    var b, c := Nops(0x8000_0004), Nops(0x8000_0008);
    TwoBlocksAre(NOP_ENV, 0x8000_0004, 0x8000_0008, b, c);
    var st := TwoBlocks(NOP_ENV, 0x8000_0004, 0x8000_0008, b, c);
    StaleHistory(st, 4, 8, 0x100);
    states := [st, st.(pending := {8}), CacheState(map[8 := st.blocks[8]], {}, false)];
  }
}
