/**
 * A cache that holds nothing but scanned code: which blocks are found, what aliases of an address share,
 * and when overlapping blocks end together in physical memory.
 */
module CodeCache {
  import opened Words
  import opened Tlb
  import opened Machine
  import opened Blocks
  import opened Cache
  import opened CacheRuns

  // ---------------------------------------------------------------- cached blocks hold the code

  /** The block is the scan from the alias v of its physical start. */
  ghost predicate ScannedFrom(env: Env, b: Block, v: U32) {
    && Scan(env, v) == Some(b.entries)
    && Translate(env.tlb, v).found && Translate(env.tlb, v).address == b.start
    && b.end == Wrap32(b.start + 4 * |b.entries|)
  }

  ghost predicate CodeBlock(env: Env, b: Block) {
    exists v: U32 :: ScannedFrom(env, b, v)
  }

  ghost predicate CodeBlocks(env: Env, m: BlockMap) {
    forall k :: k in m ==> m[k].start == k && CodeBlock(env, m[k])
  }

  /** Its entries hold the code at their own addresses; the first holds the code at the block's start. */
  lemma CodeBlockEntries(env: Env, b: Block) returns (v: U32)
    requires CodeBlock(env, b)
    ensures 1 <= |b.entries| <= MAX_LENGTH && WellEnded(b.entries) && MatchesCode(env, v, b.entries)
    ensures b.entries[0].opcode == env.code(b.start)
  {
    hide WordAt, Translate, Scan, WellEnded;
    v :| ScannedFrom(env, b, v);
    ScanShape(env, v);
    FirstWord(env, v, b.entries);
  }

  lemma FirstWord(env: Env, v: U32, es: seq<Entry>)
    requires es != [] && MatchesCode(env, v, es) && Translate(env.tlb, v).found
    ensures es[0].opcode == env.code(Translate(env.tlb, v).address)
  {
    hide Translate;
    assert es[0].address == Wrap32(v + 4 * 0);
  }

  lemma EntryMatches(env: Env, v: nat, es: seq<Entry>, i: nat)
    requires MatchesCode(env, v, es) && i < |es|
    ensures es[i].address == Wrap32(v + 4 * i) && FetchWord(env, es[i].address) == Some(es[i].opcode)
  {
    hide FetchWord;
  }

  /** Whatever alias of its start a block was built through, its first entry is what Fetch gives. */
  lemma FoundBlockMatches(env: Env, st: CacheState, pc: U64)
    requires env.tlb.Normal? && CodeBlocks(env, st.blocks) && Lookup(st, env.tlb, pc).Some?
    ensures var b := Lookup(st, env.tlb, pc).value;
            && CodeBlock(env, b) && b.entries != [] && FetchWord(env, pc) == Some(b.entries[0].opcode)
            && Translate(env.tlb, pc).found && Translate(env.tlb, pc).address == b.start
  {
    hide CodeBlock, Translate, TranslateFast;
    FastPathAgrees(env.tlb, pc);
    var b := Lookup(st, env.tlb, pc).value;
    var _ := CodeBlockEntries(env, b);
  }

  lemma LengthSurvives(start: U32, n: nat)
    requires n <= MAX_LENGTH
    ensures Wrap32(Wrap32(start + 4 * n) - start) == 4 * n
  {
  }

  lemma NewBlockIsCode(env: Env, st: CacheState, pc: U64)
    requires env.tlb.Normal? && CodeBlocks(env, st.blocks) && Scan(env, Low32(pc)).Some?
    ensures CodeBlocks(env, Insert(st, env.tlb, NewBlock(pc, Scan(env, Low32(pc)).value)).blocks)
  {
    hide Translate, Scan, Low32, Wrap32;
    var v, es := Low32(pc), Scan(env, Low32(pc)).value;
    TranslationFits(env.tlb, v);
    WrapOfWord(Translate(env.tlb, v).address);
    LengthSurvives(v, |es|);
    var b := NewBlock(pc, es);
    var phys := Wrap32(Translate(env.tlb, v).address);
    if Translate(env.tlb, v).found { assert ScannedFrom(env, Relocate(b, phys), v); }
  }

  lemma WrapOfWord(x: int)
    ensures 0 <= x < 0x1_0000_0000 ==> Wrap32(x) == x
  {
  }

  lemma FewerBlocksAreCode(env: Env, m: BlockMap, m': BlockMap)
    requires CodeBlocks(env, m) && (forall k :: k in m' ==> k in m && m'[k] == m[k])
    ensures CodeBlocks(env, m')
  {
    hide CodeBlock;
  }

  // ---------------------------------------------------------------- aliases

  /** The entries of a block from v lie at consecutive physical addresses from p on. */
  ghost predicate LiesAt(env: Env, v: U32, n: nat, p: nat) {
    forall i :: 0 <= i < n ==>
      Translate(env.tlb, Wrap32(v + 4 * i)).found && Translate(env.tlb, Wrap32(v + 4 * i)).address == p + 4 * i
  }

  /** A block that stays inside kseg0 or kseg1 does. */
  lemma KsegLiesAt(env: Env, v: U32, n: nat)
    requires env.tlb.Normal? && IsUnmappedSegment(v) && v % 0x2000_0000 + 4 * n <= 0x2000_0000
    ensures LiesAt(env, v, n, v % 0x2000_0000)
  {
    forall i | 0 <= i < n
      ensures Translate(env.tlb, Wrap32(v + 4 * i)).found
      ensures Translate(env.tlb, Wrap32(v + 4 * i)).address == v % 0x2000_0000 + 4 * i
    {
      KsegAddress(v, 4 * i);
    }
  }

  lemma KsegAddress(v: U32, k: nat)
    requires IsUnmappedSegment(v) && v % 0x2000_0000 + k < 0x2000_0000
    ensures IsUnmappedSegment(v + k) && Wrap32(v + k) == v + k && (v + k) % 0x2000_0000 == v % 0x2000_0000 + k
  {
    assert v + k == v / 0x2000_0000 * 0x2000_0000 + (v % 0x2000_0000 + k);
  }

  /** So does a block that stays inside one 4 KB page. */
  lemma PageLiesAt(env: Env, v: U32, n: nat)
    requires env.tlb.Normal? && ValidView(env.tlb) && Translate(env.tlb, v).found && v % 0x1000 + 4 * n <= 0x1000
    ensures LiesAt(env, v, n, Translate(env.tlb, v).address)
  {
    hide Translate, ValidView;
    forall i | 0 <= i < n
      ensures Translate(env.tlb, Wrap32(v + 4 * i)).found
      ensures Translate(env.tlb, Wrap32(v + 4 * i)).address == Translate(env.tlb, v).address + 4 * i
    {
      SamePage(v, 4 * i);
      TranslationIsPageGranular(env.tlb, v, v + 4 * i);
    }
  }

  lemma SamePage(v: U32, k: nat)
    requires v % 0x1000 + k < 0x1000
    ensures Wrap32(v + k) == v + k && Page(v) == Page(v + k) && (v + k) % 0x1000 == v % 0x1000 + k
  {
    var q, r := v / 0x1000, v % 0x1000;
    assert v + k == q * 0x1000 + (r + k);
    assert (v + k) / 0x1000 == q;
    PageOfLow(v);
    PageOfLow(v + k);
    hide Page;
  }

  lemma WordsLieAt(env: Env, v: U32, n: nat, p: nat, i: nat)
    requires LiesAt(env, v, n, p) && i < n
    ensures p + 4 * i < 0x1_0000_0000_0000_0000 && WordAt(env, v + 4 * i) == Some(env.code(p + 4 * i))
  {
    hide Translate;
  }

  /** Two addresses of the same physical words give blocks with the same instructions. */
  lemma AliasesScanAlike(env: Env, v: U32, w: U32, p: nat)
    requires Scan(env, v).Some? && LiesAt(env, v, |Scan(env, v).value|, p) && LiesAt(env, w, |Scan(env, v).value|, p)
    ensures Scan(env, w).Some? && SameOpcodes(Scan(env, v).value, Scan(env, w).value)
  {
    hide Scan, WordAt, LiesAt;
    var b := Scan(env, v).value;
    ScanShape(env, v);
    forall i | 0 <= i < |b| ensures WordAt(env, w + 4 * i) == Some(b[i].opcode) {
      WordsLieAt(env, v, |b|, p, i);
      WordsLieAt(env, w, |b|, p, i);
      assert WordAt(env, v + 4 * i) == Some(b[i].opcode);
    }
    ScanFollowsWords(env, v, env, w);
  }

  // ---------------------------------------------------------------- ends in physical memory

  /** A scanned block whose entries are consecutive in physical memory, below 2^32. */
  ghost predicate FlatFrom(env: Env, b: Block, v: U32) {
    && ScannedFrom(env, b, v) && LiesAt(env, v, |b.entries|, b.start)
    && b.start + 4 * |b.entries| < 0x1_0000_0000
  }

  ghost predicate FlatBlock(env: Env, b: Block) {
    exists v: U32 :: FlatFrom(env, b, v)
  }

  ghost predicate FlatBlocks(env: Env, m: BlockMap) {
    forall k :: k in m ==> m[k].start == k && FlatBlock(env, m[k])
  }

  lemma FlatWords(env: Env, b: Block)
    requires FlatBlock(env, b)
    ensures 1 <= |b.entries| <= MAX_LENGTH && WellEnded(b.entries) && b.end == b.start + 4 * |b.entries|
    ensures forall i :: 0 <= i < |b.entries| ==> HoldsWord(env, b, i)
  {
    hide Scan, WordAt, WellEnded, LiesAt, Translate;
    var v: U32 :| FlatFrom(env, b, v);
    ScanShape(env, v);
    forall i | 0 <= i < |b.entries| ensures HoldsWord(env, b, i) {
      WordsLieAt(env, v, |b.entries|, b.start, i);
      assert WordAt(env, v + 4 * i) == Some(b.entries[i].opcode);
    }
  }

  predicate HoldsWord(env: Env, b: Block, i: nat)
    requires i < |b.entries|
  {
    b.start + 4 * i < 0x1_0000_0000_0000_0000 && b.entries[i].opcode == env.code(b.start + 4 * i)
  }

  /** A block of the same words that starts at address k inside b would end where b ends. */
  predicate EndsTogether(b: Block, k: nat) {
    Contains(b, k) && (k - b.start) % 4 == 0 && (k - b.start) / 4 < |b.entries| &&
        SharesEnd(b.entries, (k - b.start) / 4)
  }

  lemma FlatOverlay(env: Env, b: Block, c: Block, j: nat)
    requires FlatBlock(env, b) && FlatBlock(env, c) && c.start == b.start + 4 * j
    ensures Overlays(b.entries, c.entries, j)
  {
    hide FlatBlock, WellEnded;
    FlatWords(env, b);
    FlatWords(env, c);
    forall i | 0 <= i < |c.entries| && j + i < |b.entries| ensures c.entries[i].opcode == b.entries[j + i].opcode {
      assert HoldsWord(env, c, i) && HoldsWord(env, b, j + i);
      assert c.start + 4 * i == b.start + 4 * (j + i);
    }
  }

  /** Two cached blocks of which one contains the other's start end together exactly under this condition. */
  lemma FlatEndsMeet(env: Env, b: Block, c: Block)
    requires FlatBlock(env, b) && FlatBlock(env, c) && Contains(b, c.start)
    ensures b.end == c.end <==> EndsTogether(b, c.start)
  {
    hide FlatBlock, WellEnded, SharesEnd, Overlays, HoldsWord;
    FlatWords(env, b);
    FlatWords(env, c);
    if (c.start - b.start) % 4 == 0 {
      var j: nat := (c.start - b.start) / 4;
      assert c.start == b.start + 4 * j;
      FlatOverlay(env, b, c, j);
      OverlappingScansShareEnd(b.entries, c.entries, j);
    }
  }

  /** A block that starts at an aligned address inside another does not end before it. */
  lemma FlatEndsLater(env: Env, b: Block, c: Block)
    requires FlatBlock(env, b) && FlatBlock(env, c) && Contains(b, c.start)
    requires b.start % 4 == 0 && c.start % 4 == 0
    ensures b.end <= c.end
  {
    hide FlatBlock, WellEnded, Overlays, HoldsWord;
    FlatWords(env, b);
    FlatWords(env, c);
    var j: nat := (c.start - b.start) / 4;
    assert c.start == b.start + 4 * j;
    FlatOverlay(env, b, c, j);
    NothingShorter(b.entries, c.entries, j);
  }
}
