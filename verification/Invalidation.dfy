/**
 * Deferred invalidation over whole operation sequences: when it erases exactly the blocks that overlap the
 * invalidated ranges, for the blocks that OnNewBlock can insert (src/mips_cache.cpp:137-198).
 */
module Invalidation {
  import opened Words
  import opened Tlb
  import opened Machine
  import opened Blocks
  import opened Cache
  import opened CacheRuns
  import opened CodeCache

  // ---------------------------------------------------------------- exactly when invalidation is exact

  /** No block that starts inside another one ends after it. */
  ghost predicate NoneOutlives(m: BlockMap) {
    forall j, k :: j in m && k in m && Contains(m[j], m[k].start) ==> m[k].end <= m[j].end
  }

  /** Overlapping blocks end at the same address. */
  ghost predicate SharedEnds(m: BlockMap) {
    forall j, k :: j in m && k in m && Contains(m[j], m[k].start) ==> m[k].end == m[j].end
  }

  /** What exact invalidation leaves. */
  ghost function Survivors(m: BlockMap, ranges: seq<(nat, nat)>): BlockMap {
    map k | k in m && (forall r :: r in ranges ==> !Overlaps(m[k], r.0, r.1)) :: m[k]
  }

  ghost predicate AlwaysExact(m: BlockMap) {
    forall ranges, m' :: Erases(m, Marked(m, ranges), m') ==> m' == Survivors(m, ranges)
  }

  lemma SurvivorsAreUnmarked(m: BlockMap, ranges: seq<(nat, nat)>)
    ensures Survivors(m, ranges) == m - Marked(m, ranges)
  {
  }

  lemma MarkedIsClosed(m: BlockMap, ranges: seq<(nat, nat)>)
    requires Coherent(m, {}) && NoneOutlives(m)
    ensures Coherent(m, Marked(m, ranges)) && Closed(m, Marked(m, ranges))
  {
    forall a, k | a in Marked(m, ranges) && k in m && Contains(m[k], a) ensures k in Marked(m, ranges) {
      var r :| r in ranges && Overlaps(m[a], r.0, r.1);
      assert Contains(m[k], m[a].start);
      assert Overlaps(m[k], r.0, r.1);
    }
  }

  /** A block that outlives the one it starts in can be marked alone, and the search may find the other. */
  lemma OutlivingGoesWrong(m: BlockMap, j: nat, k: nat) returns (r: (nat, nat), m': BlockMap)
    requires Coherent(m, {}) && j in m && k in m && Contains(m[j], m[k].start) && m[j].end < m[k].end
    ensures Erases(m, Marked(m, [r]), m') && m' != Survivors(m, [r])
  {
    r := (m[j].end, m[k].end);
    var p := Marked(m, [r]);
    assert r in [r] && k in p;
    assert j !in p;
    assert !Closed(m, p);
    SurvivorsAreUnmarked(m, [r]);
    m' := UnclosedErasesWrongly(m, p);
  }

  /** Exact for every list of ranges and every map order, if and only if no block outlives another. */
  lemma ExactIffNoneOutlives(m: BlockMap)
    requires Coherent(m, {})
    ensures AlwaysExact(m) <==> NoneOutlives(m)
  {
    hide Erases, Marked, Survivors;
    if NoneOutlives(m) {
      forall ranges, m' | Erases(m, Marked(m, ranges), m') ensures m' == Survivors(m, ranges) {
        MarkedIsClosed(m, ranges);
        ClosedErasesExactly(m, Marked(m, ranges), m');
        SurvivorsAreUnmarked(m, ranges);
      }
    } else {
      var j, k :| j in m && k in m && Contains(m[j], m[k].start) && m[j].end < m[k].end;
      var r, m' := OutlivingGoesWrong(m, j, k);
    }
  }

  // ---------------------------------------------------------------- over operation sequences

  /** The physical interval that an InvalidateBlockRange marks; none when its start does not translate. */
  function RangeOf(tlb: TlbView, op: CacheOp): seq<(nat, nat)> {
    if !op.OpInvalidate? || !Translate(tlb, op.start).found then []
    else
      var p: nat := Translate(tlb, op.start).address;
      [(p, p + Wrap64(op.end - op.start))]
  }

  function Ranges(tlb: TlbView, ops: seq<CacheOp>): seq<(nat, nat)> {
    if ops == [] then [] else Ranges(tlb, ops[..|ops| - 1]) + RangeOf(tlb, ops[|ops| - 1])
  }

  ghost predicate OnlyInvalidates(ops: seq<CacheOp>) {
    forall op :: op in ops ==> op.OpInvalidate?
  }

  lemma MarkedJoin(m: BlockMap, x: seq<(nat, nat)>, y: seq<(nat, nat)>)
    ensures Marked(m, x + y) == Marked(m, x) + Marked(m, y)
  {
  }

  lemma InvalidateIs(tlb: TlbView, st: CacheState, op: CacheOp)
    requires op.OpInvalidate?
    ensures Invalidate(st, tlb, op.start, op.end) == st.(pending := st.pending + Marked(st.blocks, RangeOf(tlb, op)))
  {
    hide Translate;
    var t := Translate(tlb, op.start);
    if t.found {
      var lo: nat := t.address;
      var hi := lo + Wrap64(op.end - op.start);
      assert RangeOf(tlb, op) == [(lo, hi)] && (lo, hi) in [(lo, hi)];
      assert Marked(st.blocks, [(lo, hi)]) == Overlapping(st.blocks, lo, hi);
    } else {
      assert Marked(st.blocks, []) == {};
    }
  }

  /** Any list of InvalidateBlockRange calls marks exactly the blocks that overlap one of the ranges. */
  lemma {:induction false} InvalidationsMark(tlb: TlbView, ops: seq<CacheOp>, states: seq<CacheState>)
    requires OnlyInvalidates(ops) && IsHistory(tlb, ops, states)
    ensures states[|ops|]
            == states[0].(pending := states[0].pending + Marked(states[0].blocks, Ranges(tlb, ops)))
    decreases |ops|
  {
    hide Invalidate, RangeOf, Marked;
    var st := states[0];
    if ops == [] {
      NoRanges(st.blocks);
    } else {
      var n := |ops| - 1;
      var before := ops[..n];
      forall i | 0 <= i < n ensures StepRel(tlb, states[..n + 1][i], before[i], states[..n + 1][i + 1]) {
        assert StepRel(tlb, states[i], ops[i], states[i + 1]);
      }
      assert forall op :: op in before ==> op in ops;
      InvalidationsMark(tlb, before, states[..n + 1]);
      assert StepRel(tlb, states[n], ops[n], states[n + 1]) && ops[n] in ops;
      InvalidateIs(tlb, states[n], ops[n]);
      MarkedJoin(st.blocks, Ranges(tlb, before), RangeOf(tlb, ops[n]));
    }
  }

  lemma NoRanges(m: BlockMap)
    ensures Marked(m, []) == {}
  {
  }

  /** The two phases of invalidation as one operation list. */
  ghost predicate IsInvalidation(tlb: TlbView, ops: seq<CacheOp>, states: seq<CacheState>) {
    && OnlyInvalidates(ops) && IsHistory(tlb, ops + [OpExecuteClear], states)
    && states[0].pending == {} && !states[0].clearQueued
  }

  lemma InvalidationEnds(tlb: TlbView, ops: seq<CacheOp>, states: seq<CacheState>)
    requires IsInvalidation(tlb, ops, states)
    ensures Erases(states[0].blocks, Marked(states[0].blocks, Ranges(tlb, ops)), states[|ops| + 1].blocks)
    ensures states[|ops| + 1].pending == {} && !states[|ops| + 1].clearQueued
  {
    hide Invalidate, Erases, Marked, Ranges;
    var all, n := ops + [OpExecuteClear], |ops|;
    forall i | 0 <= i < n ensures StepRel(tlb, states[..n + 1][i], ops[i], states[..n + 1][i + 1]) {
      assert StepRel(tlb, states[i], all[i], states[i + 1]);
    }
    InvalidationsMark(tlb, ops, states[..n + 1]);
    assert StepRel(tlb, states[n], all[n], states[n + 1]);
    assert states[n].pending == Marked(states[0].blocks, Ranges(tlb, ops));
  }

  /**
   * From a cache without pending work, any InvalidateBlockRange calls followed by one ExecuteCacheClear leave
   * exactly the blocks that overlap none of the translated ranges, if no block outlives another.
   */
  lemma InvalidationIsExact(tlb: TlbView, ops: seq<CacheOp>, states: seq<CacheState>)
    requires IsInvalidation(tlb, ops, states)
    requires Coherent(states[0].blocks, {}) && NoneOutlives(states[0].blocks)
    ensures states[|ops| + 1] == CacheState(Survivors(states[0].blocks, Ranges(tlb, ops)), {}, false)
  {
    hide Erases, Marked, Survivors, OnlyInvalidates, StepRel, NoneOutlives, Coherent, Ranges;
    InvalidationEnds(tlb, ops, states);
    ExactIffNoneOutlives(states[0].blocks);
  }

  // ---------------------------------------------------------------- blocks that scans insert

  /** Overlapping blocks are of the kinds whose scans end together. */
  ghost predicate AllEndTogether(m: BlockMap) {
    forall j, k :: j in m && k in m && Contains(m[j], m[k].start) ==> EndsTogether(m[j], m[k].start)
  }

  ghost predicate Aligned(m: BlockMap) {
    forall k :: k in m ==> m[k].start % 4 == 0
  }

  lemma FlatIsCoherent(env: Env, m: BlockMap)
    requires FlatBlocks(env, m)
    ensures Coherent(m, {})
  {
    hide FlatBlock;
    forall k | k in m ensures m[k].start == k && k < m[k].end {
      FlatWords(env, m[k]);
    }
  }

  /** Overlapping scanned blocks end together exactly when each starts no later than the other's final branch. */
  lemma ScannedBlocksShareEnds(env: Env, m: BlockMap)
    requires FlatBlocks(env, m)
    ensures SharedEnds(m) <==> AllEndTogether(m)
  {
    hide FlatBlock, EndsTogether;
    forall j, k | j in m && k in m && Contains(m[j], m[k].start)
      ensures m[j].end == m[k].end <==> EndsTogether(m[j], m[k].start)
    {
      FlatEndsMeet(env, m[j], m[k]);
    }
  }

  /** A scan from inside an aligned block never ends before it. */
  lemma ScansEndNoEarlier(env: Env, m: BlockMap)
    requires FlatBlocks(env, m) && Aligned(m)
    ensures NoneOutlives(m) <==> SharedEnds(m)
  {
    hide FlatBlock;
    forall j, k | j in m && k in m && Contains(m[j], m[k].start) ensures m[j].end <= m[k].end {
      FlatEndsLater(env, m[j], m[k]);
    }
  }

  /** Exact invalidation, for a cache of scanned blocks, in terms of what the blocks hold. */
  lemma ScannedCacheIsExact(env: Env, m: BlockMap)
    requires FlatBlocks(env, m) && Aligned(m)
    ensures AlwaysExact(m) <==> AllEndTogether(m)
  {
    hide AlwaysExact, NoneOutlives, SharedEnds, AllEndTogether, Coherent, FlatBlocks, Aligned;
    FlatIsCoherent(env, m);
    ExactIffNoneOutlives(m);
    ScansEndNoEarlier(env, m);
    ScannedBlocksShareEnds(env, m);
  }

  /** The same over operation sequences. */
  lemma ScannedCacheInvalidates(env: Env, ops: seq<CacheOp>, states: seq<CacheState>)
    requires IsInvalidation(env.tlb, ops, states)
    requires FlatBlocks(env, states[0].blocks) && Aligned(states[0].blocks) && AllEndTogether(states[0].blocks)
    ensures states[|ops| + 1] == CacheState(Survivors(states[0].blocks, Ranges(env.tlb, ops)), {}, false)
  {
    hide NoneOutlives, SharedEnds, AllEndTogether, Coherent, FlatBlocks, Aligned, OnlyInvalidates, StepRel;
    hide Survivors, Ranges;
    var m := states[0].blocks;
    FlatIsCoherent(env, m);
    ScansEndNoEarlier(env, m);
    ScannedBlocksShareEnds(env, m);
    InvalidationIsExact(env.tlb, ops, states);
  }

  // ---------------------------------------------------------------- every run holds only code

  /** The block that OnNewBlock builds at pc. */
  ghost predicate IsScanAt(env: Env, b: Block, pc: U64) {
    Scan(env, Low32(pc)).Some? && b == NewBlock(pc, Scan(env, Low32(pc)).value)
  }

  /** The inserts of a run are those of OnNewBlock. */
  ghost predicate InsertsScans(env: Env, op: CacheOp) {
    op.OpInsert? ==> exists pc: U64 :: IsScanAt(env, op.block, pc)
  }

  lemma {:induction false} RunShrinks(t: seq<BlockMap>, order: seq<nat>, i: nat)
    requires IsRun(t, order) && i <= |order|
    ensures forall k :: k in t[i] ==> k in t[0] && t[i][k] == t[0][k]
  {
    if i > 0 {
      RunShrinks(t, order, i - 1);
      assert EraseStep(t[i - 1], order[i - 1], t[i]);
    }
  }

  lemma ErasureShrinks(m: BlockMap, p: set<nat>, m': BlockMap)
    requires Erases(m, p, m')
    ensures forall k :: k in m' ==> k in m && m'[k] == m[k]
  {
    var order, t :| Ascending(order, p) && IsRun(t, order) && t[0] == m && t[|order|] == m';
    RunShrinks(t, order, |order|);
  }

  lemma StepHoldsCode(env: Env, st: CacheState, op: CacheOp, st': CacheState)
    requires env.tlb.Normal? && CodeBlocks(env, st.blocks) && StepRel(env.tlb, st, op, st') && InsertsScans(env, op)
    ensures CodeBlocks(env, st'.blocks)
  {
    hide CodeBlocks, Insert, Scan, NewBlock, Low32, Erases;
    match op
    case OpInsert(b) =>
      var pc: U64 :| IsScanAt(env, b, pc);
      NewBlockIsCode(env, st, pc);
    case OpExecuteClear =>
      if st.clearQueued {
        FewerBlocksAreCode(env, st.blocks, st'.blocks);
      } else {
        ErasureShrinks(st.blocks, st.pending, st'.blocks);
        FewerBlocksAreCode(env, st.blocks, st'.blocks);
      }
    case _ => FewerBlocksAreCode(env, st.blocks, st'.blocks);
  }

  /** Whatever the interpreter does to its cache, every cached block is a scan from an alias of its key. */
  lemma {:induction false} RunsHoldCode(env: Env, ops: seq<CacheOp>, states: seq<CacheState>, i: nat)
    requires env.tlb.Normal? && IsHistory(env.tlb, ops, states) && CodeBlocks(env, states[0].blocks)
    requires i <= |ops| && forall op :: op in ops ==> InsertsScans(env, op)
    ensures CodeBlocks(env, states[i].blocks)
  {
    hide CodeBlocks, StepRel, InsertsScans;
    if i > 0 {
      RunsHoldCode(env, ops, states, i - 1);
      assert StepRel(env.tlb, states[i - 1], ops[i - 1], states[i]) && ops[i - 1] in ops;
      StepHoldsCode(env, states[i - 1], ops[i - 1], states[i]);
    }
  }
}
