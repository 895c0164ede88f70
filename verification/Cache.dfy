/**
 * The block cache (src/mips_cache.cpp): a map from physical start addresses to blocks, a 64-slot
 * direct-mapped table of block pointers in front of it, and deferred invalidation.
 *
 * Blocks are heap objects, so a slot that outlived its block would be visible. The iteration order of
 * the hash map is arbitrary. Stability of block pointers on erase is an assumption about that map.
 */
module Cache {
  import opened Words
  import opened Tlb
  import opened Blocks

  /** The contents of a cached block: physical interval [start, end) and decoded entries. */
  datatype Block = Block(start: U32, end: U32, entries: seq<Entry>)

  type BlockMap = map<nat, Block>

  datatype CacheState = CacheState(blocks: BlockMap, pending: set<nat>, clearQueued: bool)

  const EMPTY := CacheState(map[], {}, false)

  predicate Contains(b: Block, a: nat) {
    b.start <= a < b.end
  }

  predicate Overlaps(b: Block, lo: nat, hi: nat) {
    b.start < hi && b.end > lo
  }

  // ---------------------------------------------------------------- the plain map

  /** What GetBlock means: the block stored under the translated address. */
  function Lookup(st: CacheState, tlb: TlbView, a: U64): Option<Block> {
    var t := TranslateFast(tlb, a);
    if t.found && t.address in st.blocks then Some(st.blocks[t.address]) else None
  }

  /** The block as it is stored: moved to its physical address, 32-bit wrap-around included. */
  function Relocate(b: Block, phys: U32): Block {
    Block(phys, Wrap32(phys + Wrap32(b.end - b.start)), b.entries)
  }

  /** An existing block is kept: the hash map's insert does not overwrite. */
  function Insert(st: CacheState, tlb: TlbView, b: Block): CacheState {
    var t := Translate(tlb, b.start);
    var phys := Wrap32(t.address);
    if !t.found || phys in st.blocks then st
    else st.(blocks := st.blocks[phys := Relocate(b, phys)])
  }

  function Overlapping(m: BlockMap, lo: nat, hi: nat): set<nat> {
    set k | k in m && Overlaps(m[k], lo, hi) :: k
  }

  function Invalidate(st: CacheState, tlb: TlbView, start: U64, end: U64): CacheState {
    var t := Translate(tlb, start);
    if !t.found then st
    else st.(pending := st.pending + Overlapping(st.blocks, t.address, t.address + Wrap64(end - start)))
  }

  /** One pending address: some block containing it goes, or nothing when there is none. */
  ghost predicate EraseStep(m: BlockMap, a: nat, m': BlockMap) {
    || (exists k :: k in m && Contains(m[k], a) && m' == m - {k})
    || ((forall k :: k in m ==> !Contains(m[k], a)) && m' == m)
  }

  /** `order` lists the set in ascending order, the order of std::set. */
  ghost predicate Ascending(order: seq<nat>, p: set<nat>) {
    && (forall i, j :: 0 <= i < j < |order| ==> order[i] < order[j])
    && (forall a :: a in p <==> a in order)
  }

  ghost predicate IsRun(t: seq<BlockMap>, order: seq<nat>) {
    |t| == |order| + 1 && forall i :: 0 <= i < |order| ==> EraseStep(t[i], order[i], t[i + 1])
  }

  /** m' is a possible result of processing the pending set p on m. */
  ghost predicate Erases(m: BlockMap, p: set<nat>, m': BlockMap) {
    exists order, t :: Ascending(order, p) && IsRun(t, order) && t[0] == m && t[|order|] == m'
  }

  ghost predicate ExecuteClear(st: CacheState, st': CacheState) {
    if st.clearQueued then st' == EMPTY
    else st'.pending == {} && !st'.clearQueued && Erases(st.blocks, st.pending, st'.blocks)
  }

  // ---------------------------------------------------------------- exactness of invalidation

  /** Keys are start addresses, blocks are not empty, and only cached blocks are marked. */
  ghost predicate Coherent(m: BlockMap, p: set<nat>) {
    && (forall k :: k in m ==> m[k].start == k && k < m[k].end)
    && p <= m.Keys
  }

  /** Every block that contains a marked start is itself marked. */
  ghost predicate Closed(m: BlockMap, p: set<nat>) {
    forall a, k :: a in p && k in m && Contains(m[k], a) ==> k in p
  }

  function Elements(s: seq<nat>): set<nat> {
    set x | x in s
  }

  lemma ElementsOfPrefix(order: seq<nat>, i: nat)
    requires 0 < i <= |order|
    ensures Elements(order[..i]) == Elements(order[..i - 1]) + {order[i - 1]}
  {
    assert order[..i] == order[..i - 1] + [order[i - 1]];
  }

  /** A key of p below order[i] has been processed before it. */
  lemma EarlierIsDone(order: seq<nat>, p: set<nat>, i: nat, k: nat)
    requires Ascending(order, p) && i < |order| && k in p
    ensures k < order[i] ==> k in Elements(order[..i])
    ensures order[i] in p && order[i] !in Elements(order[..i])
  {
    var j :| 0 <= j < |order| && order[j] == k;
    if k < order[i] { assert order[..i][j] == k; }
    assert order[i] in order;
  }

  lemma {:induction false} RunErasesPrefix(m: BlockMap, p: set<nat>, order: seq<nat>, t: seq<BlockMap>, i: nat)
    requires Coherent(m, p) && Closed(m, p) && Ascending(order, p)
    requires IsRun(t, order) && t[0] == m && i <= |order|
    ensures t[i] == m - Elements(order[..i])
  {
    if i > 0 {
      RunErasesPrefix(m, p, order, t, i - 1);
      var a := order[i - 1];
      ElementsOfPrefix(order, i);
      EarlierIsDone(order, p, i - 1, a) by { assert a in order; }
      assert Contains(t[i - 1][a], a);
      assert EraseStep(t[i - 1], order[i - 1], t[i]);
      var m1 := t[i - 1];
      if k :| k in m1 && Contains(m1[k], a) && k != a {
        EarlierIsDone(order, p, i - 1, k);
        assert false;
      }
    }
  }

  /** The marked set is erased exactly, whatever the hash map's iteration order, if it is closed ... */
  lemma ClosedErasesExactly(m: BlockMap, p: set<nat>, m': BlockMap)
    requires Coherent(m, p) && Closed(m, p) && Erases(m, p, m')
    ensures m' == m - p
  {
    var order, t :| Ascending(order, p) && IsRun(t, order) && t[0] == m && t[|order|] == m';
    RunErasesPrefix(m, p, order, t, |order|);
    assert order[..|order|] == order;
    assert p == Elements(order);
  }

  /** A closed part of the marked set is gone afterwards, whatever else is marked. */
  lemma ClosedPartIsErased(m: BlockMap, p: set<nat>, q: set<nat>, m': BlockMap)
    requires Coherent(m, p) && q <= p && Closed(m, q) && Erases(m, p, m')
    ensures m'.Keys !! q
  {
    var order, t :| Ascending(order, p) && IsRun(t, order) && t[0] == m && t[|order|] == m';
    RunErasesPart(m, p, q, order, t, |order|);
    assert order[..|order|] == order;
    assert p == Elements(order);
  }

  lemma {:induction false} RunErasesPart(
    m: BlockMap, p: set<nat>, q: set<nat>, order: seq<nat>, t: seq<BlockMap>, i: nat)
    requires Coherent(m, p) && q <= p && Closed(m, q) && Ascending(order, p)
    requires IsRun(t, order) && t[0] == m && i <= |order|
    ensures t[i].Keys !! q * Elements(order[..i])
    ensures forall k :: k in t[i] ==> k in m && t[i][k] == m[k]
  {
    if i > 0 {
      RunErasesPart(m, p, q, order, t, i - 1);
      var a := order[i - 1];
      ElementsOfPrefix(order, i);
      assert EraseStep(t[i - 1], a, t[i]);
      var m1 := t[i - 1];
      forall k | a in q && k in m1 && Contains(m1[k], a) ensures k == a {
        assert k in q;
        EarlierIsDone(order, p, i - 1, k);
      }
    }
  }

  lemma RunAfter(m: BlockMap, order: seq<nat>, rest: seq<BlockMap>)
    requires order != [] && IsRun(rest, order[1..]) && EraseStep(m, order[0], rest[0])
    ensures IsRun([m] + rest, order) && ([m] + rest)[|order|] == rest[|order| - 1]
  {
    hide EraseStep;
    var t := [m] + rest;
    forall i | 0 <= i < |order| ensures EraseStep(t[i], order[i], t[i + 1]) {
      if i > 0 { assert EraseStep(rest[i - 1], order[1..][i - 1], rest[i]); }
    }
  }

  lemma {:induction false} SomeRun(m: BlockMap, order: seq<nat>) returns (t: seq<BlockMap>)
    ensures IsRun(t, order) && t[0] == m
    ensures t[|order|].Keys <= m.Keys
    decreases |order|
  {
    hide IsRun;
    if order == [] {
      t := [m];
      EmptyRun(m);
    } else {
      var m1 := SomeErasure(m, order[0]);
      var rest := SomeRun(m1, order[1..]);
      RunLength(rest, order[1..]);
      RunAfter(m, order, rest);
      t := [m] + rest;
    }
  }

  lemma EmptyRun(m: BlockMap)
    ensures IsRun([m], [])
  {
  }

  lemma RunLength(t: seq<BlockMap>, order: seq<nat>)
    requires IsRun(t, order)
    ensures |t| == |order| + 1
  {
  }

  lemma SomeErasure(m: BlockMap, a: nat) returns (m1: BlockMap)
    ensures EraseStep(m, a, m1) && m1.Keys <= m.Keys
  {
    m1 := m;
    if k :| k in m && Contains(m[k], a) { m1 := m - {k}; }
  }

  lemma {:induction false} SetToOrder(p: set<nat>) returns (order: seq<nat>)
    ensures Ascending(order, p)
    decreases p
  {
    if p == {} {
      order := [];
    } else {
      var a := Least(p);
      var rest := SetToOrder(p - {a});
      order := [a] + rest;
      forall i, j | 0 <= i < j < |order| ensures order[i] < order[j] {
        assert order[j] in rest;
        if i > 0 { assert order[i] == rest[i - 1] && order[j] == rest[j - 1]; }
      }
    }
  }

  lemma {:induction false} Least(p: set<nat>) returns (a: nat)
    requires p != {}
    ensures a in p && forall b :: b in p ==> a <= b
    decreases p
  {
    a :| a in p;
    if p != {a} {
      var b := Least(p - {a});
      forall c | c in p ensures b <= c || a == c { if c != a { assert c in p - {a}; } }
      if b < a { a := b; }
    }
  }

  /** The first marked address, in ascending order, that an unmarked block contains. */
  lemma FirstOpen(m: BlockMap, p: set<nat>, order: seq<nat>) returns (i: nat, k: nat)
    requires !Closed(m, p) && Ascending(order, p)
    ensures i < |order| && k in m && Contains(m[k], order[i]) && k !in p
  {
    var a, b :| a in p && b in m && Contains(m[b], a) && b !in p;
    i :| 0 <= i < |order| && order[i] == a;
    k := b;
  }

  /** ... and only then: otherwise some iteration order erases an unmarked block. */
  lemma UnclosedErasesWrongly(m: BlockMap, p: set<nat>) returns (m': BlockMap)
    requires Coherent(m, p) && !Closed(m, p)
    ensures Erases(m, p, m') && m' != m - p
  {
    var order := SetToOrder(p);
    var i, k := FirstOpen(m, p, order);
    var t := WrongRun(m, p, order, i, k);
    m' := t[|order|];
    assert k in m - p;
  }

  lemma WrongRun(m: BlockMap, p: set<nat>, order: seq<nat>, i: nat, k: nat) returns (t: seq<BlockMap>)
    requires Coherent(m, p) && Ascending(order, p) && i < |order|
    requires k in m && k !in p && Contains(m[k], order[i])
    ensures IsRun(t, order) && t[0] == m && k !in t[|order|]
  {
    var head := PrefixRun(m, p, order, i);
    var m1 := head[i] - {k};
    assert k !in Elements(order[..i]);
    assert EraseStep(head[i], order[i], m1);
    var tail := SomeRun(m1, order[i + 1..]);
    t := head + tail;
    GluedRun(head, tail, order, i);
  }

  lemma GluedRun(head: seq<BlockMap>, tail: seq<BlockMap>, order: seq<nat>, i: nat)
    requires i < |order| && |head| == i + 1 && IsRun(tail, order[i + 1..])
    requires forall j :: 0 <= j < i ==> EraseStep(head[j], order[j], head[j + 1])
    requires EraseStep(head[i], order[i], tail[0])
    ensures IsRun(head + tail, order) && (head + tail)[|order|] == tail[|order[i + 1..]|]
  {
    hide EraseStep;
    var t := head + tail;
    forall j | 0 <= j < |order| ensures EraseStep(t[j], order[j], t[j + 1]) {
      if j < i {
        assert t[j] == head[j] && t[j + 1] == head[j + 1];
      } else if j > i {
        assert EraseStep(tail[j - i - 1], order[i + 1..][j - i - 1], tail[j - i]);
      }
    }
  }

  /** Up to position i the run that erases exactly the marked blocks. */
  lemma {:induction false} PrefixRun(m: BlockMap, p: set<nat>, order: seq<nat>, i: nat) returns (t: seq<BlockMap>)
    requires Coherent(m, p) && Ascending(order, p) && i <= |order|
    ensures |t| == i + 1 && t[0] == m && t[i] == m - Elements(order[..i])
    ensures forall j :: 0 <= j < i ==> EraseStep(t[j], order[j], t[j + 1])
  {
    if i == 0 {
      t := [m];
      assert m == m - Elements(order[..0]);
    } else {
      var s := PrefixRun(m, p, order, i - 1);
      var a := order[i - 1];
      EarlierIsDone(order, p, i - 1, a) by { assert a in order; }
      ElementsOfPrefix(order, i);
      assert Contains(s[i - 1][a], a);
      t := s + [s[i - 1] - {a}];
      forall j | 0 <= j < i ensures EraseStep(t[j], order[j], t[j + 1]) {
        if j < i - 1 { assert t[j] == s[j] && t[j + 1] == s[j + 1]; }
      }
    }
  }

  /** All blocks overlapping one of the invalidated physical ranges. */
  ghost function Marked(m: BlockMap, ranges: seq<(nat, nat)>): set<nat> {
    set k, r | k in m && r in ranges && Overlaps(m[k], r.0, r.1) :: k
  }

  // ---------------------------------------------------------------- the object

  /** A block in the heap; never written after its creation. */
  class CacheBlock {
    const start: U32
    const end: U32
    const entries: seq<Entry>

    constructor (b: Block)
      ensures Data() == b
    {
      start, end, entries := b.start, b.end, b.entries;
    }

    function Data(): Block {
      Block(start, end, entries)
    }
  }

  datatype Slot = Slot(address: nat, block: CacheBlock?)

  const LOOKUP_SIZE := 64

  function SlotIndex(a: nat): nat {
    a / 4 % LOOKUP_SIZE
  }

  ghost function Contents(m: map<nat, CacheBlock>): BlockMap {
    map k | k in m :: m[k].Data()
  }

  /** The keys outside `rest` whose block overlaps the interval. */
  ghost function MarkedSoFar(m: map<nat, CacheBlock>, rest: set<nat>, lo: nat, hi: nat): set<nat> {
    set k | k in m && k !in rest && m[k].start < hi && m[k].end > lo :: k
  }

  lemma MarkingStarts(m: map<nat, CacheBlock>, lo: nat, hi: nat, p0: set<nat>, w0: bool)
    ensures MarkedUpTo(m, m.Keys, lo, hi, p0, w0, p0, w0)
  {
    assert MarkedSoFar(m, m.Keys, lo, hi) == {};
  }

  lemma MarkingStep(m: map<nat, CacheBlock>, rest: set<nat>, k: nat, lo: nat, hi: nat)
    requires k in rest && rest <= m.Keys
    ensures MarkedSoFar(m, rest - {k}, lo, hi)
            == MarkedSoFar(m, rest, lo, hi) + (if m[k].start < hi && m[k].end > lo then {k} else {})
  {
  }

  /** p and w are the pending set and flag once all keys but `rest` have been looked at. */
  ghost predicate MarkedUpTo(
    m: map<nat, CacheBlock>, rest: set<nat>, lo: nat, hi: nat, p0: set<nat>, w0: bool, p: set<nat>, w: bool)
  {
    p == p0 + MarkedSoFar(m, rest, lo, hi) && (w <==> w0 || MarkedSoFar(m, rest, lo, hi) != {})
  }

  lemma MarkedAdvance(
    m: map<nat, CacheBlock>, rest: set<nat>, k: nat, lo: nat, hi: nat, p0: set<nat>, w0: bool, p: set<nat>, w: bool)
    requires MarkedUpTo(m, rest, lo, hi, p0, w0, p, w) && k in rest && rest <= m.Keys
    ensures var hit := m[k].start < hi && m[k].end > lo;
            MarkedUpTo(m, rest - {k}, lo, hi, p0, w0, p + (if hit then {k} else {}), w || hit)
  {
    MarkingStep(m, rest, k, lo, hi);
    hide MarkedSoFar;
  }

  lemma MarkingEnds(m: map<nat, CacheBlock>, lo: nat, hi: nat, p0: set<nat>, w0: bool, p: set<nat>, w: bool)
    requires MarkedUpTo(m, {}, lo, hi, p0, w0, p, w)
    ensures p == p0 + Overlapping(Contents(m), lo, hi)
    ensures w <==> w0 || Overlapping(Contents(m), lo, hi) != {}
  {
    assert MarkedSoFar(m, {}, lo, hi) == Overlapping(Contents(m), lo, hi) by {
      forall k | k in m ensures k in MarkedSoFar(m, {}, lo, hi) <==> k in Overlapping(Contents(m), lo, hi) {
        assert Contents(m)[k] == m[k].Data();
      }
    }
  }

  /** The same block objects, possibly fewer. */
  ghost predicate SubMap(m: map<nat, CacheBlock>, m0: map<nat, CacheBlock>) {
    forall k :: k in m ==> k in m0 && m[k] == m0[k]
  }

  class MipsCache {
    var blocks: map<nat, CacheBlock>
    var pending: set<nat>
    var fullClearQueued: bool
    var hasPendingWork: bool
    const lookup: array<Slot>

    ghost function State(): CacheState
      reads this
    {
      CacheState(Contents(blocks), pending, fullClearQueued)
    }

    /** A filled slot names a live block, whose start hashes to that slot. */
    ghost predicate LiveSlots()
      reads this, lookup
    {
      && lookup.Length == LOOKUP_SIZE
      && forall i :: 0 <= i < LOOKUP_SIZE && lookup[i].block != null ==>
           && lookup[i].address in blocks && blocks[lookup[i].address] == lookup[i].block
           && SlotIndex(lookup[i].address) == i
    }

    ghost predicate Valid()
      reads this, lookup
    {
      && LiveSlots()
      && (forall k :: k in blocks ==> blocks[k].start == k)
      && pending <= blocks.Keys
      && (hasPendingWork <==> fullClearQueued || pending != {})
    }

    constructor ()
      ensures Valid() && fresh(lookup) && State() == EMPTY
    {
      blocks, pending, fullClearQueued, hasPendingWork := map[], {}, false, false;
      lookup := new Slot[LOOKUP_SIZE](i => Slot(0, null));
    }

    method ClearSlots()
      requires lookup.Length == LOOKUP_SIZE
      modifies lookup
      ensures forall i :: 0 <= i < LOOKUP_SIZE ==> lookup[i] == Slot(0, null)
    {
      for i := 0 to LOOKUP_SIZE
        invariant forall j :: 0 <= j < i ==> lookup[j] == Slot(0, null)
      {
        lookup[i] := Slot(0, null);
      }
    }

    method Reset()
      requires Valid()
      modifies this, lookup
      ensures Valid() && State() == EMPTY
    {
      fullClearQueued, hasPendingWork := false, false;
      pending, blocks := {}, map[];
      ClearSlots();
    }

    /** Returns the stored object, and changes nothing but the slots. */
    method GetBlock(tlb: TlbView, address: U64) returns (b: CacheBlock?)
      requires Valid()
      modifies lookup
      ensures Valid()
      ensures b == null <==> Lookup(State(), tlb, address) == None
      ensures b != null ==> b.start in blocks && b == blocks[b.start] && Lookup(State(), tlb, address) == Some(b.Data())
    {
      hide Translate;
      var t := TranslateFast(tlb, address);
      if !t.found {
        return null;
      }
      var a := t.address;
      var idx := SlotIndex(a);
      if lookup[idx].address == a && lookup[idx].block != null {
        return lookup[idx].block;
      }
      if a in blocks {
        lookup[idx] := Slot(a, blocks[a]);
        return lookup[idx].block;
      }
      b := null;
    }

    /** Stores a relocated copy and drops every slot, since the map may have moved its blocks. */
    method InsertBlock(tlb: TlbView, b: Block)
      requires Valid()
      modifies this, lookup
      ensures Valid() && State() == Insert(old(State()), tlb, b)
      ensures forall k :: k in blocks ==> if k in old(blocks) then blocks[k] == old(blocks)[k] else fresh(blocks[k])
    {
      hide Translate;
      var t := Translate(tlb, b.start);
      if !t.found {
        return;
      }
      var offset: int := Wrap32(b.end - b.start);
      var start: int := Wrap32(t.address);
      var copy := new CacheBlock(Block(start, Wrap32(start + offset), b.entries));
      if start !in blocks {
        blocks := blocks[start := copy];
      }
      assert Contents(blocks) == Insert(old(State()), tlb, b).blocks;
      DropSlots();
    }

    method DropSlots()
      requires lookup.Length == LOOKUP_SIZE
      modifies lookup
      ensures forall j :: 0 <= j < LOOKUP_SIZE ==> lookup[j].block == null
    {
      for i := 0 to LOOKUP_SIZE
        invariant forall j :: 0 <= j < i ==> lookup[j].block == null
      {
        lookup[i] := lookup[i].(block := null);
      }
    }

    method InvalidateBlockRange(tlb: TlbView, start: U64, end: U64)
      requires Valid()
      modifies this`pending, this`hasPendingWork
      ensures Valid() && State() == Invalidate(old(State()), tlb, start, end)
    {
      hide Translate;
      var t := Translate(tlb, start);
      if !t.found {
        return;
      }
      MarkOverlapping(t.address, t.address + Wrap64(end - start));
    }

    method MarkBlock(k: nat, lo: nat, hi: nat)
      requires k in blocks && blocks[k].start == k
      modifies this`pending, this`hasPendingWork
      ensures pending == old(pending) + (if blocks[k].start < hi && blocks[k].end > lo then {k} else {})
      ensures hasPendingWork <==> old(hasPendingWork) || (blocks[k].start < hi && blocks[k].end > lo)
    {
      if blocks[k].start < hi && blocks[k].end > lo {
        pending := pending + {blocks[k].start};
        hasPendingWork := true;
      }
    }

    method MarkOverlapping(lo: nat, hi: nat)
      requires forall k :: k in blocks ==> blocks[k].start == k
      modifies this`pending, this`hasPendingWork
      ensures pending == old(pending) + Overlapping(Contents(blocks), lo, hi)
      ensures hasPendingWork <==> old(hasPendingWork) || Overlapping(Contents(blocks), lo, hi) != {}
    {
      hide MarkedUpTo, Overlapping, Contents;
      ghost var p0, w0 := pending, hasPendingWork;
      MarkingStarts(blocks, lo, hi, p0, w0);
      var rest := blocks.Keys;
      while rest != {}
        modifies this`pending, this`hasPendingWork
        invariant rest <= blocks.Keys && MarkedUpTo(blocks, rest, lo, hi, p0, w0, pending, hasPendingWork)
        decreases |rest|
      {
        var k :| k in rest;
        MarkedAdvance(blocks, rest, k, lo, hi, p0, w0, pending, hasPendingWork);
        MarkBlock(k, lo, hi);
        rest := rest - {k};
      }
      MarkingEnds(blocks, lo, hi, p0, w0, pending, hasPendingWork);
    }

    method QueueCacheClear()
      requires Valid()
      modifies this`fullClearQueued, this`hasPendingWork
      ensures Valid() && State() == old(State()).(clearQueued := true)
    {
      fullClearQueued, hasPendingWork := true, true;
    }

    /** Erases one block, and the slot that names it. */
    method EraseBlock(k: nat)
      requires LiveSlots() && k in blocks && blocks[k].start == k
      modifies this`blocks, lookup
      ensures LiveSlots() && blocks == old(blocks) - {k}
      ensures Contents(blocks) == old(Contents(blocks)) - {k}
    {
      var idx := SlotIndex(blocks[k].start);
      if lookup[idx].address == blocks[k].start {
        lookup[idx] := lookup[idx].(block := null);
      }
      blocks := blocks - {k};
    }

    /** Erases the first block met, in arbitrary map order, that contains `address`. */
    method EraseContaining(address: nat)
      requires LiveSlots() && forall k :: k in blocks ==> blocks[k].start == k
      modifies this`blocks, lookup
      ensures LiveSlots() && forall k :: k in blocks ==> blocks[k].start == k
      ensures EraseStep(old(Contents(blocks)), address, Contents(blocks))
      ensures SubMap(blocks, old(blocks))
    {
      hide LiveSlots;
      var rest := blocks.Keys;
      while rest != {}
        invariant rest <= blocks.Keys
        invariant forall k :: k in blocks && k !in rest ==> !Contains(blocks[k].Data(), address)
        decreases |rest|
      {
        var k :| k in rest;
        var block := blocks[k];
        if block.start <= address < block.end {
          EraseBlock(k);
          return;
        }
        rest := rest - {k};
      }
    }

    /** Works through the pending set in ascending order. */
    method ErasePending() returns (ghost order: seq<nat>, ghost t: seq<BlockMap>)
      requires LiveSlots() && forall k :: k in blocks ==> blocks[k].start == k
      modifies this`blocks, lookup
      ensures LiveSlots() && SubMap(blocks, old(blocks))
      ensures Ascending(order, pending) && IsRun(t, order)
      ensures t[0] == old(Contents(blocks)) && t[|order|] == Contents(blocks)
    {
      var rest := pending;
      order, t := [], [Contents(blocks)];
      while rest != {}
        invariant LiveSlots() && forall k :: k in blocks ==> blocks[k].start == k
        invariant SubMap(blocks, old(blocks))
        invariant rest <= pending && Processed(order, pending, rest)
        invariant IsRun(t, order) && t[0] == old(Contents(blocks)) && t[|order|] == Contents(blocks)
        decreases |rest|
      {
        var a := SmallestOf(rest);
        EraseContaining(a);
        ExtendRun(t, order, a, Contents(blocks));
        ExtendProcessed(order, pending, rest, a);
        order, t := order + [a], t + [Contents(blocks)];
        rest := rest - {a};
      }
    }

    method ExecuteCacheClear()
      requires Valid()
      modifies this, lookup
      ensures Valid() && ExecuteClear(old(State()), State())
      ensures SubMap(blocks, old(blocks))
    {
      if fullClearQueued {
        blocks, pending := map[], {};
        fullClearQueued, hasPendingWork := false, false;
        ClearSlots();
        return;
      }
      if pending == {} {
        NoRun(Contents(blocks));
        return;
      }
      ghost var order, t := ErasePending();
      pending, hasPendingWork := {}, false;
    }
  }

  /** `order` is an ascending list of the members of p that are no longer in `rest`. */
  ghost predicate Processed(order: seq<nat>, p: set<nat>, rest: set<nat>) {
    && Ascending(order, p - rest)
    && (forall a, i :: a in rest && 0 <= i < |order| ==> order[i] < a)
  }

  lemma ExtendProcessed(order: seq<nat>, p: set<nat>, rest: set<nat>, a: nat)
    requires Processed(order, p, rest) && rest <= p && a in rest && forall b :: b in rest ==> a <= b
    ensures Processed(order + [a], p, rest - {a})
  {
  }

  lemma ExtendRun(t: seq<BlockMap>, order: seq<nat>, a: nat, m: BlockMap)
    requires IsRun(t, order) && EraseStep(t[|order|], a, m)
    ensures IsRun(t + [m], order + [a])
  {
    hide EraseStep;
  }

  lemma NoRun(m: BlockMap)
    ensures Erases(m, {}, m)
  {
    var order: seq<nat>, t := [], [m];
    assert Ascending(order, {}) && IsRun(t, order) && t[0] == m && t[|order|] == m;
  }

  method SmallestOf(p: set<nat>) returns (a: nat)
    requires p != {}
    ensures a in p && forall b :: b in p ==> a <= b
  {
    a :| a in p;
    var rest := p - {a};
    while rest != {}
      invariant rest <= p && a in p
      invariant forall b :: b in p && b !in rest ==> a <= b
      decreases |rest|
    {
      var b :| b in rest;
      if b < a { a := b; }
      rest := rest - {b};
    }
  }
}
