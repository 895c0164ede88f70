/**
 * The CACHE instruction through the CPU: after a block whose entries invalidate a line, the next lookup does not
 * return a block that held a byte of it (src/mips_base.cpp:310-360, 2497-2514).
 */
module CacheInCpu {
  import opened Words
  import opened Tlb
  import opened Machine
  import opened Blocks
  import opened Cache
  import opened CacheEffects
  import opened CodeCache
  import opened Cycles
  import opened Invalidation
  import opened Lockstep
  import opened Interpreter

  /** The objects of the cached blocks, and the contents they are seen with. */
  lemma ObjectsAre(cache: MipsCache)
    requires cache.Valid() && Coherent(cache.State().blocks, {})
    ensures Coherent(cache.State().blocks, cache.State().pending)
    ensures forall k :: k in cache.blocks ==>
              k in cache.State().blocks && cache.State().blocks[k] == cache.blocks[k].Data()
  {
  }

  /**
   * Runs a block and looks up the next one. Where no block outlives another, a block that held a byte of a line
   * that one of the executed entries invalidated is not the one found, even at its own address.
   */
  method RunThenFind(cpu: Mips, es: seq<Entry>, ghost v: nat) returns (executed: nat, b: CacheBlock?)
    requires cpu.status == Running && cpu.env.tlb.Normal? && ValidView(cpu.env.tlb) && cpu.cpiCounter < 256
    requires 1 <= |es| <= MAX_LENGTH && MatchesCode(cpu.env, v, es) && WellEnded(es)
    requires FetchWord(cpu.env, cpu.pc) == Some(es[0].opcode)
    requires cpu.cache.Valid() && CodeBlocks(cpu.env, cpu.cache.State().blocks)
    requires Coherent(cpu.cache.State().blocks, {}) && NoneOutlives(cpu.cache.State().blocks)
    modifies cpu, cpu.cop0, cpu.cache, cpu.cache.lookup
    ensures 1 <= executed <= |es|
    ensures var objects, s := old(cpu.cache.blocks), old(cpu.State());
            forall k :: k in objects && HitsWithin(cpu.env, cpu.useCache, s, executed, objects[k].Data()) ==>
              b != objects[k]
  {
    hide MatchesCode, WellEnded, FetchWord, CodeBlocks, CodeBlock, ValidView, Cache.MipsCache.Valid, NoneOutlives;
    hide EntriesCache, Entries, Cleared, Filled, Scan, Lookup, Contents, CachedBlock, HitsWithin, Coherent, StaysIn;
    hide Mips.Registers, Mips.CoreState, Translate, MaxGain;
    ghost var s, st0 := cpu.State(), cpu.cache.State();
    ObjectsAre(cpu.cache);
    executed := cpu.RunBlock(es, v);
    if cpu.status != Running {
      return executed, null;
    }
    ghost var st;
    b, st := cpu.FindBlock();
    HitBlocksAreCleared(cpu.env, st0, cpu.useCache, s, executed, st);
  }
}
