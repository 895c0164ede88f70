/** The block cache over whole operation sequences, and the lookup that follows a block's creation. */
module CacheRuns {
  import opened Words
  import opened Tlb
  import opened Blocks
  import opened Cache

  // ---------------------------------------------------------------- lookup after creation

  /** A block as OnNewBlock builds it: from the low word of pc. */
  function NewBlock(pc: U64, entries: seq<Entry>): Block {
    Block(Low32(pc), Wrap32(Low32(pc) + 4 * |entries|), entries)
  }

  /** "Block creation failed" is unreachable with the real TLB when pc translates. */
  lemma CreatedBlockIsFound(st: CacheState, tlb: TlbView, pc: U64, entries: seq<Entry>)
    requires tlb.Normal? && Translate(tlb, pc).found
    ensures Lookup(Insert(st, tlb, NewBlock(pc, entries)), tlb, pc).Some?
    ensures Lookup(st, tlb, pc) == None ==>
              Lookup(Insert(st, tlb, NewBlock(pc, entries)), tlb, pc).value.entries == entries
  {
    hide Translate;
    TranslationFits(tlb, pc);
    FastPathAgrees(tlb, pc);
  }

  /** With the identity TLB it is reachable exactly inside kseg0 and kseg1. */
  lemma CreatedBlockWithDummy(st: CacheState, pc: U32, entries: seq<Entry>)
    requires Lookup(st, Dummy, pc) == None
    ensures Lookup(Insert(st, Dummy, NewBlock(pc, entries)), Dummy, pc).Some? <==> !IsUnmappedSegment(pc)
  {
    FastPathWithDummy(pc);
  }

  // ---------------------------------------------------------------- the CACHE instruction

  /** What CACHE does to the block cache: nothing for the data cache, else the 32-byte line is invalidated. */
  function CacheInstruction(st: CacheState, tlb: TlbView, useCache: bool, raw: U32, address: U64): CacheState {
    var line := address - address % 32;
    if raw / 0x1_0000 % 2 == 1 || !useCache then st else Invalidate(st, tlb, line, Wrap64(line + 32))
  }

  /** A block is marked exactly when it holds a byte of the line, translated byte by byte. */
  lemma LineMarksItsBytes(st: CacheState, tlb: TlbView, raw: U32, address: U64, k: nat)
    requires tlb.Normal? && ValidView(tlb) && raw / 0x1_0000 % 2 == 0
    requires k in st.blocks && st.blocks[k].start < st.blocks[k].end
    ensures var line := address - address % 32;
            k in CacheInstruction(st, tlb, true, raw, address).pending
            <==> k in st.pending || (exists j :: 0 <= j < 32 && HoldsByte(st.blocks[k], tlb, line, j))
  {
    hide Translate, ValidView;
    var line: U64 := address - address % 32;
    LineLength(line);
    var p: int := Translate(tlb, line).address;
    var b := st.blocks[k];
    if Translate(tlb, line).found {
      forall j | 0 <= j < 32 ensures HoldsByte(b, tlb, line, j) <==> Contains(b, p + j) {
        LineByte(tlb, line, j);
      }
      if Overlaps(b, p, p + 32) {
        var j := if b.start <= p then 0 else b.start - p;
        assert Contains(b, p + j) && HoldsByte(b, tlb, line, j);
      }
    } else {
      forall j | 0 <= j < 32 ensures !HoldsByte(b, tlb, line, j) {
        LineByte(tlb, line, j);
      }
    }
  }

  predicate HoldsByte(b: Block, tlb: TlbView, line: U64, j: int) {
    var t := Translate(tlb, Wrap64(line + j));
    t.found && Contains(b, t.address)
  }

  lemma LineByte(tlb: TlbView, line: U64, j: int)
    requires tlb.Normal? && ValidView(tlb) && line % 32 == 0 && 0 <= j < 32
    ensures Wrap64(line + j) == line + j && Translate(tlb, Wrap64(line + j)).found == Translate(tlb, line).found
    ensures Translate(tlb, line).found ==> Translate(tlb, Wrap64(line + j)).address == Translate(tlb, line).address + j
  {
    hide Translate, ValidView, Page;
    LineInPage(line, j);
    CacheLineIsContiguous(tlb, line, j);
  }

  lemma LineLength(line: U64)
    ensures Wrap64(Wrap64(line + 32) - line) == 32
  {
  }

  // ---------------------------------------------------------------- operation sequences

  datatype CacheOp =
    | OpInsert(block: Block)
    | OpGet(address: U64)
    | OpInvalidate(start: U64, end: U64)
    | OpQueueClear
    | OpExecuteClear
    | OpReset

  /** What each operation may do to the plain map; only ExecuteClear has a choice. */
  ghost predicate StepRel(tlb: TlbView, st: CacheState, op: CacheOp, st': CacheState) {
    match op
    case OpInsert(b) => st' == Insert(st, tlb, b)
    case OpGet(_) => st' == st
    case OpInvalidate(start, end) => st' == Invalidate(st, tlb, start, end)
    case OpQueueClear => st' == st.(clearQueued := true)
    case OpExecuteClear => ExecuteClear(st, st')
    case OpReset => st' == EMPTY
  }

  /** The answer of the plain map; only Get has one. */
  function Answer(tlb: TlbView, st: CacheState, op: CacheOp): Option<Block> {
    if op.OpGet? then Lookup(st, tlb, op.address) else None
  }

  ghost predicate IsHistory(tlb: TlbView, ops: seq<CacheOp>, states: seq<CacheState>) {
    && |states| == |ops| + 1
    && forall i :: 0 <= i < |ops| ==> StepRel(tlb, states[i], ops[i], states[i + 1])
  }

  /**
   * For every operation sequence the cache answers like a plain map that goes through the same states:
   * the slots, the pending set and the flags are never observable. HasPendingWork is exact throughout.
   */
  method Replay(cache: MipsCache, tlb: TlbView, ops: seq<CacheOp>)
    returns (answers: seq<Option<Block>>, ghost states: seq<CacheState>)
    requires cache.Valid()
    modifies cache, cache.lookup
    ensures cache.Valid() && |answers| == |ops|
    ensures IsHistory(tlb, ops, states) && states[0] == old(cache.State()) && states[|ops|] == cache.State()
    ensures forall i :: 0 <= i < |ops| ==> answers[i] == Answer(tlb, states[i], ops[i])
    ensures cache.hasPendingWork <==> cache.State().clearQueued || cache.State().pending != {}
  {
    hide Translate, Insert, Invalidate, ExecuteClear, Lookup, Contents;
    answers, states := [], [cache.State()];
    for i := 0 to |ops|
      invariant cache.Valid() && |answers| == i
      invariant IsHistory(tlb, ops[..i], states) && states[0] == old(cache.State()) && states[i] == cache.State()
      invariant forall j :: 0 <= j < i ==> answers[j] == Answer(tlb, states[j], ops[j])
    {
      var answer := Perform(cache, tlb, ops[i]);
      ExtendHistory(tlb, ops, states, i, cache.State());
      answers, states := answers + [answer], states + [cache.State()];
    }
    assert ops[..|ops|] == ops;
  }

  lemma ExtendHistory(tlb: TlbView, ops: seq<CacheOp>, states: seq<CacheState>, i: nat, st: CacheState)
    requires i < |ops| && IsHistory(tlb, ops[..i], states) && StepRel(tlb, states[i], ops[i], st)
    ensures IsHistory(tlb, ops[..i + 1], states + [st])
  {
    hide StepRel;
    var longer, ops' := states + [st], ops[..i + 1];
    forall j | 0 <= j < |ops'| ensures StepRel(tlb, longer[j], ops'[j], longer[j + 1]) {
      if j < i {
        assert longer[j] == states[j] && longer[j + 1] == states[j + 1] && ops'[j] == ops[..i][j];
      }
    }
  }

  method Perform(cache: MipsCache, tlb: TlbView, op: CacheOp) returns (answer: Option<Block>)
    requires cache.Valid()
    modifies cache, cache.lookup
    ensures cache.Valid() && StepRel(tlb, old(cache.State()), op, cache.State())
    ensures answer == Answer(tlb, old(cache.State()), op)
  {
    hide Translate, Insert, Invalidate, ExecuteClear, Lookup, Contents;
    answer := None;
    match op
    case OpInsert(b) => cache.InsertBlock(tlb, b);
    case OpGet(a) =>
      var b := cache.GetBlock(tlb, a);
      if b != null { answer := Some(b.Data()); }
    case OpInvalidate(start, end) => cache.InvalidateBlockRange(tlb, start, end);
    case OpQueueClear => cache.QueueCacheClear();
    case OpExecuteClear => cache.ExecuteCacheClear();
    case OpReset => cache.Reset();
  }
}
