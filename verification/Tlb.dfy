/**
 * The software TLB (src/mips_tlb_normal.cpp) and the Cop0 commands that drive it.
 *
 * The class keeps the entry array and registers the source keeps; every method is tied to a
 * function of the abstract contents (`TlbState`), and the laws are proved about those functions.
 */
module Tlb {
  import opened Words

  datatype TlbEntry = TlbEntry(lo0: U64, lo1: U64, hi: U64, mask: U64)

  datatype Translation = Translation(found: bool, readOnly: bool, address: U64)

  /** What translation depends on: the entries and the current ASID, or the identity TLB. */
  datatype TlbView =
    | Normal(entries: seq<TlbEntry>, asid: int)
    | Dummy

  const NOT_FOUND := Translation(false, false, 0)

  const PROBE_MISS: U32 := 0x8000_0000

  predicate IsUnmappedSegment(a: int) {
    0x8000_0000 <= a < 0xC000_0000
  }

  predicate AsidOrGlobal(e: TlbEntry, asid: int, global: bool) {
    global || e.hi % 0x100 == asid
  }

  /** Virtual page numbers agree on the bits the page mask leaves: ~mask & 0xFFFFE000. */
  function VpnMask(e: TlbEntry): nat {
    And(0xFFFF_FFFF_FFFF_FFFF - e.mask, 0xFFFF_E000)
  }

  predicate VpnMatch(e: TlbEntry, a: U32) {
    And(e.hi, VpnMask(e)) == And(a, VpnMask(e))
  }

  /** The address bit that selects the odd page; several bits when the page mask has holes. */
  function OddMask(e: TlbEntry): U32 {
    (Or(e.mask, 0x1FFF) + 1) / 2 % 0x1_0000_0000
  }

  function SelectedLo(e: TlbEntry, a: U32): U64 {
    if And(a, OddMask(e)) != 0 then e.lo1 else e.lo0
  }

  /** The entry matches (one-bit global test) and the selected page is valid. */
  predicate Hits(e: TlbEntry, asid: int, a: U32) {
    && VpnMatch(e, a)
    && AsidOrGlobal(e, asid, e.lo0 % 2 == 1)
    && SelectedLo(e, a) / 2 % 2 == 1
  }

  /** (OddMask - 1) as an unsigned 32-bit value. */
  function OffsetMask(e: TlbEntry): U32 {
    (OddMask(e) + 0xFFFF_FFFF) % 0x1_0000_0000
  }

  /** Bits 6 to 25 of EntryLo, as a 32-bit physical address. */
  function FrameAddress(lo: U64): U32 {
    lo / 64 % 0x10_0000 * 0x1000
  }

  function PhysicalAddress(pfn: U32, offsetMask: U32, a: U32): U64 {
    Or64(And(pfn, 0xFFFF_FFFF - offsetMask), And(a, offsetMask))
  }

  function Resolve(e: TlbEntry, a: U32): (r: Translation)
    ensures r.found
  {
    var lo := SelectedLo(e, a);
    Translation(true, lo / 4 % 2 == 0, PhysicalAddress(FrameAddress(lo), OffsetMask(e), a))
  }

  /** First match from entry `i` on; an invalid half does not stop the search. */
  function Search(entries: seq<TlbEntry>, asid: int, a: U32, i: nat): Translation
    decreases |entries| - i
  {
    if i >= |entries| then NOT_FOUND
    else if Hits(entries[i], asid, a) then Resolve(entries[i], a)
    else Search(entries, asid, a, i + 1)
  }

  function Translate(t: TlbView, address: U64): Translation {
    match t
    case Dummy => Translation(true, false, address)
    case Normal(entries, asid) =>
      var a := Low32(address);
      if IsUnmappedSegment(a) then Translation(true, false, a % 0x2000_0000)
      else Search(entries, asid, a, 0)
  }

  /** The block cache's shortcut for kseg0 and kseg1 (src/mips_cache.cpp:46-58). */
  function TranslateFast(t: TlbView, address: U64): Translation {
    var a := Low32(address);
    if IsUnmappedSegment(a) then Translation(true, false, a % 0x2000_0000) else Translate(t, a)
  }

  // ---------------------------------------------------------------- reachable contents

  /** A page mask as SetPageMask leaves it: bits 13 to 24 only. */
  predicate IsPageMask(mask: int) {
    mask % 0x2000 == 0 && 0 <= mask < 0x200_0000
  }

  /** Both halves carry the same G bit and the page mask uses bits 13 to 24 only. */
  predicate ValidEntry(e: TlbEntry) {
    e.lo0 % 2 == e.lo1 % 2 && IsPageMask(e.mask)
  }

  ghost predicate ValidEntries(entries: seq<TlbEntry>) {
    forall e :: e in entries ==> ValidEntry(e)
  }

  ghost predicate ValidView(t: TlbView) {
    t.Normal? ==> ValidEntries(t.entries)
  }

  /** value & 0xFFFFE0FF */
  function MaskHi(value: U64): U64 {
    value / 0x2000 % 0x8_0000 * 0x2000 + value % 0x100
  }

  /** value & 0x1FFE000 */
  function MaskPage(value: U64): U64 {
    value / 0x2000 % 0x1000 * 0x2000
  }

  /** Masking again changes nothing. */
  lemma MaskedHi(vpn: int, asid: int)
    requires 0 <= vpn < 0x8_0000 && 0 <= asid < 0x100
    ensures MaskHi(vpn * 0x2000 + asid) == vpn * 0x2000 + asid
  {
  }

  /** Entry registers, index register and entries of one TLB. */
  datatype TlbState = TlbState(entries: seq<TlbEntry>, hi: U64, lo0: U64, lo1: U64, mask: U64, index: int)
  {
    function View(): TlbView { Normal(entries, hi % 0x100) }
  }

  ghost predicate ValidState(s: TlbState) {
    && |s.entries| == 32
    && ValidEntries(s.entries)
    && MaskHi(s.hi) == s.hi
    && IsPageMask(s.mask)
    && 0 <= s.index < 64
  }

  function SetLowBit(x: U64, bit: bool): U64 {
    x - x % 2 + if bit then 1 else 0
  }

  /** What SetTlbEntry stores: the G bit of both halves is the AND of the two given ones. */
  function Stored(e: TlbEntry): TlbEntry {
    var g := e.lo0 % 2 == 1 && e.lo1 % 2 == 1;
    e.(lo0 := SetLowBit(e.lo0, g), lo1 := SetLowBit(e.lo1, g))
  }

  /** TLBWI (src/mips_cop0.cpp:71-77). */
  function WriteIndexed(s: TlbState): TlbState
    requires |s.entries| == 32
  {
    s.(entries := s.entries[s.index % 32 := Stored(TlbEntry(s.lo0, s.lo1, s.hi, s.mask))])
  }

  /** TLBR (src/mips_cop0.cpp:61-70). */
  function ReadIndexed(s: TlbState): TlbState
    requires |s.entries| == 32
  {
    var e := s.entries[s.index % 32];
    s.(lo0 := e.lo0, lo1 := e.lo1, hi := MaskHi(e.hi), mask := MaskPage(e.mask))
  }

  /** The probed page number: EntryHi & 0xFFFE000. */
  function ProbeVpn(hi: U64): int {
    hi / 0x2000 % 0x8000
  }

  predicate ProbeMatch(e: TlbEntry, hi: U64) {
    && ProbeVpn(e.hi) == ProbeVpn(hi)
    && AsidOrGlobal(e, hi % 0x100, e.lo0 % 2 == 1 && e.lo1 % 2 == 1)
  }

  function ProbeFrom(entries: seq<TlbEntry>, hi: U64, i: nat): int
    decreases |entries| - i
  {
    if i >= |entries| then PROBE_MISS
    else if ProbeMatch(entries[i], hi) then i
    else ProbeFrom(entries, hi, i + 1)
  }

  // ---------------------------------------------------------------- page granularity

  function Page(a: U64): int {
    Low32(a) / 0x1000
  }

  /** Same outcome, same frame, and the low twelve bits pass through. */
  predicate SameFrame(x: U64, tx: Translation, y: U64, ty: Translation) {
    && tx.found == ty.found
    && tx.readOnly == ty.readOnly
    && (tx.found ==>
          && tx.address / 0x1000 == ty.address / 0x1000
          && tx.address % 0x1000 == x % 0x1000
          && ty.address % 0x1000 == y % 0x1000)
  }

  /** A mask without offset bits sees only the page number. */
  lemma MaskSeesPage(x: U32, y: U32, mask: nat)
    requires mask % 0x1000 == 0 && x / 0x1000 == y / 0x1000
    ensures And(x, mask) == And(y, mask)
  {
    AndSplit(x, mask);
    AndSplit(y, mask);
    hide And;
    AndZero(x % 4096);
    AndZero(y % 4096);
  }

  lemma AndZero(x: nat)
    ensures And(x, 0) == 0
  {
  }

  /** For every page mask, holes included, the odd-page selector is a non-zero multiple of the page size. */
  lemma OddMaskIsPageSized(e: TlbEntry)
    requires IsPageMask(e.mask)
    ensures OddMask(e) % 0x1000 == 0 && OddMask(e) > 0
    ensures OffsetMask(e) == OddMask(e) - 1 && OffsetMask(e) % 0x1000 == 0xFFF
  {
    hide OddMask, IsPageMask;
    var q := e.mask / 0x2000;
    PageMaskParts(e.mask);
    OddMaskValue(e, q);
    PageParts(q, 0xFFF);
    PageParts(q + 1, 0);
  }

  lemma PageMaskParts(mask: int)
    requires IsPageMask(mask)
    ensures mask == mask / 0x2000 * 0x2000 && 0 <= mask / 0x2000 < 0x1000
  {
  }

  lemma OddMaskValue(e: TlbEntry, q: nat)
    requires e.mask == q * 0x2000 && q < 0x1000
    ensures OddMask(e) == q * 0x1000 + 0x1000
  {
    OrWithPageOnes(e.mask);
    hide Or;
  }

  lemma PageParts(q: nat, r: nat)
    requires r < 0x1000
    ensures (q * 0x1000 + r) / 0x1000 == q && (q * 0x1000 + r) % 0x1000 == r
  {
  }

  lemma OrWithPageOnes(mask: nat)
    requires mask % 0x2000 == 0
    ensures Or(mask, 0x1FFF) == mask + 0x1FFF
  {
    hide Or;
    OrSplit(mask, 0x1FFF);
    var q := mask / 4096;
    OrStep(q, 1);
    OrZero(q / 2);
    OrZero(0xFFF);
  }

  lemma OrZero(x: nat)
    ensures Or(x, 0) == x && Or(0, x) == x
  {
  }

  lemma VpnMaskIsPageSized(e: TlbEntry)
    ensures VpnMask(e) % 0x1000 == 0
  {
    hide And;
    var m := 0xFFFF_FFFF_FFFF_FFFF - e.mask;
    AndSplit(m, 0xFFFF_E000);
    AndZero(m % 4096);
    PageParts(And(m / 4096, 0xFFFF_E000 / 4096), 0);
  }

  lemma OffsetPassesThrough(pfn: U32, m: U32, x: U32, y: U32)
    requires m % 0x1000 == 0xFFF && pfn % 0x1000 == 0 && x / 0x1000 == y / 0x1000
    ensures PhysicalAddress(pfn, m, x) % 0x1000 == x % 0x1000
    ensures PhysicalAddress(pfn, m, x) / 0x1000 == PhysicalAddress(pfn, m, y) / 0x1000
  {
    PhysicalSplit(pfn, m, x);
    PhysicalSplit(pfn, m, y);
    hide PhysicalAddress;
  }

  lemma PhysicalSplit(pfn: U32, m: U32, x: U32)
    requires m % 0x1000 == 0xFFF && pfn % 0x1000 == 0
    ensures PhysicalAddress(pfn, m, x) / 0x1000 == Or(And(pfn, 0xFFFF_FFFF - m) / 0x1000, And(x / 0x1000, m / 0x1000))
    ensures PhysicalAddress(pfn, m, x) % 0x1000 == x % 0x1000
  {
    hide And, Or;
    FrameHasNoOffset(pfn, 0xFFFF_FFFF - m);
    OffsetIsKept(x, m);
    OrSplit(And(pfn, 0xFFFF_FFFF - m), And(x, m));
    OrZero(x % 4096);
  }

  lemma FrameHasNoOffset(pfn: nat, m: nat)
    requires pfn % 0x1000 == 0
    ensures And(pfn, m) % 0x1000 == 0
  {
    hide And;
    AndSplit(pfn, m);
    ZeroAnd(m % 4096);
    PageParts(And(pfn / 4096, m / 4096), 0);
  }

  lemma ZeroAnd(x: nat)
    ensures And(0, x) == 0
  {
  }

  lemma OffsetIsKept(x: nat, m: nat)
    requires m % 0x1000 == 0xFFF
    ensures And(x, m) % 0x1000 == x % 0x1000 && And(x, m) / 0x1000 == And(x / 0x1000, m / 0x1000)
  {
    AndSplit(x, m);
    AndOffset(x % 4096);
    hide And;
    PageParts(And(x / 4096, m / 4096), x % 4096);
  }

  lemma FrameIsPageSized(lo: U64)
    ensures FrameAddress(lo) % 0x1000 == 0
  {
  }

  lemma EntryIsPageGranular(e: TlbEntry, asid: int, x: U32, y: U32)
    requires ValidEntry(e) && x / 0x1000 == y / 0x1000
    ensures Hits(e, asid, x) == Hits(e, asid, y)
    ensures SameFrame(x, Resolve(e, x), y, Resolve(e, y))
  {
    OddMaskIsPageSized(e);
    VpnMaskIsPageSized(e);
    MaskSeesPage(x, y, VpnMask(e));
    MaskSeesPage(x, y, OddMask(e));
    hide And, Or, OddMask, VpnMask, OffsetMask, PhysicalAddress, FrameAddress, ValidEntry, IsPageMask;
    var lo := SelectedLo(e, x);
    FrameIsPageSized(lo);
    OffsetPassesThrough(FrameAddress(lo), OffsetMask(e), x, y);
    OffsetPassesThrough(FrameAddress(lo), OffsetMask(e), y, x);
  }

  lemma {:induction false} SearchIsPageGranular(entries: seq<TlbEntry>, asid: int, x: U32, y: U32, i: nat)
    requires ValidEntries(entries) && x / 0x1000 == y / 0x1000
    ensures SameFrame(x, Search(entries, asid, x, i), y, Search(entries, asid, y, i))
    decreases |entries| - i
  {
    hide Hits, Resolve;
    if i < |entries| {
      assert ValidEntry(entries[i]);
      EntryIsPageGranular(entries[i], asid, x, y);
      SearchIsPageGranular(entries, asid, x, y, i + 1);
    }
  }

  /** Translation works on 4 KB pages, for every TLB content the setters can produce. */
  lemma TranslationIsPageGranular(t: TlbView, x: U64, y: U64)
    requires t.Normal? && ValidView(t)
    requires Page(x) == Page(y)
    ensures SameFrame(x, Translate(t, x), y, Translate(t, y))
  {
    hide Search, Low32, ValidEntries;
    SearchIsPageGranular(t.entries, t.asid, Low32(x), Low32(y), 0);
    LowOffset(x);
    LowOffset(y);
    KsegIsPageGranular(Low32(x), Low32(y));
  }

  lemma LowOffset(x: U64)
    ensures Low32(x) % 0x1000 == x % 0x1000
  {
    var q, low := x / 0x1_0000_0000, Low32(x);
    var page, offset := low / 0x1000, low % 0x1000;
    assert x == q * 0x1_0000_0000 + low && low == page * 0x1000 + offset;
    assert x == (q * 0x10_0000 + page) * 0x1000 + offset;
    PageParts(q * 0x10_0000 + page, offset);
    hide Low32;
  }

  lemma KsegIsPageGranular(x: U32, y: U32)
    requires x / 0x1000 == y / 0x1000
    ensures IsUnmappedSegment(x) == IsUnmappedSegment(y)
    ensures x % 0x2000_0000 / 0x1000 == y % 0x2000_0000 / 0x1000
    ensures x % 0x2000_0000 % 0x1000 == x % 0x1000 && y % 0x2000_0000 % 0x1000 == y % 0x1000
  {
    KsegParts(x);
    KsegParts(y);
  }

  lemma KsegParts(x: U32)
    ensures x % 0x2000_0000 / 0x1000 == x / 0x1000 % 0x2_0000
    ensures x % 0x2000_0000 % 0x1000 == x % 0x1000
  {
    assert x % 0x2000_0000 == x / 0x1000 % 0x2_0000 * 0x1000 + x % 0x1000;
  }

  /** A 32-byte cache line is one physical interval, which InvalidateBlockRange relies on. */
  lemma CacheLineIsContiguous(t: TlbView, line: U64, k: int)
    requires t.Normal? && ValidView(t)
    requires line % 32 == 0 && 0 <= k < 32
    ensures Translate(t, line + k).found == Translate(t, line).found
    ensures Translate(t, line).found ==> Translate(t, line + k).address == Translate(t, line).address + k
  {
    hide Translate;
    LineInPage(line, k);
    TranslationIsPageGranular(t, line, line + k);
  }

  lemma LineInPage(line: U64, k: int)
    requires line % 32 == 0 && 0 <= k < 32
    ensures line + k < 0x1_0000_0000_0000_0000 && Page(line) == Page(line + k)
    ensures (line + k) % 0x1000 == line % 0x1000 + k
  {
    var q, r := line / 0x1000, line % 0x1000;
    assert line == q * 0x1000 + r && r % 32 == 0;
    LastLine(r, k);
    PageParts(q, r + k);
    assert line + k == q * 0x1000 + (r + k);
    PageOfLow(line);
    PageOfLow(line + k);
    hide Page;
  }

  lemma LastLine(r: nat, k: nat)
    requires r < 0x1000 && r % 32 == 0 && k < 32
    ensures r + k < 0x1000
  {
  }

  lemma PageOfLow(a: U64)
    ensures Page(a) == a / 0x1000 % 0x10_0000
  {
  }

  /** Physical addresses of the real TLB have 32 bits. */
  lemma {:induction false} SearchFits(entries: seq<TlbEntry>, asid: int, a: U32, i: nat)
    ensures Search(entries, asid, a, i).address < 0x1_0000_0000
    decreases |entries| - i
  {
    hide Hits, And, Or;
    if i < |entries| {
      if Hits(entries[i], asid, a) {
        WordSizes();
        var e := entries[i];
        var pfn := FrameAddress(SelectedLo(e, a));
        OrBelow(And(pfn, 0xFFFF_FFFF - OffsetMask(e)), And(a, OffsetMask(e)), 32);
      } else {
        SearchFits(entries, asid, a, i + 1);
      }
    }
  }

  lemma TranslationFits(t: TlbView, a: U64)
    requires t.Normal?
    ensures Translate(t, a).address < 0x1_0000_0000
    ensures Translate(t, a) == Translate(t, Low32(a))
  {
    hide Search;
    SearchFits(t.entries, t.asid, Low32(a), 0);
  }

  /** The cache's kseg0/kseg1 shortcut agrees with the real TLB everywhere. */
  lemma FastPathAgrees(t: TlbView, a: U64)
    requires t.Normal?
    ensures TranslateFast(t, a) == Translate(t, a)
  {
    hide Search, Low32;
    LowOfLow(a);
  }

  /** With the identity TLB it agrees, on 32-bit addresses, exactly outside kseg0 and kseg1. */
  lemma FastPathWithDummy(a: U32)
    ensures TranslateFast(Dummy, a) == Translate(Dummy, a) <==> !IsUnmappedSegment(a)
  {
  }

  // ---------------------------------------------------------------- search, probe and round trips

  /** The search answers with the least hitting entry, and misses only when none hits. */
  lemma {:induction false} SearchFindsFirst(entries: seq<TlbEntry>, asid: int, a: U32, i: nat)
    requires i <= |entries|
    ensures !Search(entries, asid, a, i).found <==> forall k :: i <= k < |entries| ==> !Hits(entries[k], asid, a)
    ensures Search(entries, asid, a, i).found ==>
              exists k :: i <= k < |entries| && Hits(entries[k], asid, a)
                          && Search(entries, asid, a, i) == Resolve(entries[k], a)
                          && forall j :: i <= j < k ==> !Hits(entries[j], asid, a)
    decreases |entries| - i
  {
    hide Hits, Resolve;
    if i < |entries| && !Hits(entries[i], asid, a) {
      SearchFindsFirst(entries, asid, a, i + 1);
    }
  }

  lemma {:induction false} ProbeFindsFirst(entries: seq<TlbEntry>, hi: U64, i: nat)
    requires i <= |entries| <= 32
    ensures var p := ProbeFrom(entries, hi, i);
            if p == PROBE_MISS then forall k :: i <= k < |entries| ==> !ProbeMatch(entries[k], hi)
            else i <= p < |entries| && ProbeMatch(entries[p], hi)
                 && forall k :: i <= k < p ==> !ProbeMatch(entries[k], hi)
    decreases |entries| - i
  {
    hide ProbeMatch;
    if i < |entries| && !ProbeMatch(entries[i], hi) {
      ProbeFindsFirst(entries, hi, i + 1);
    }
  }

  lemma StoredIsValid(e: TlbEntry)
    requires IsPageMask(e.mask)
    ensures ValidEntry(Stored(e))
  {
  }

  lemma WriteIndexedKeepsValid(s: TlbState)
    requires ValidState(s)
    ensures ValidState(WriteIndexed(s))
  {
    var e := TlbEntry(s.lo0, s.lo1, s.hi, s.mask);
    StoredIsValid(e);
    hide Stored, ValidEntry;
    var after := WriteIndexed(s).entries;
    forall x | x in after ensures ValidEntry(x) {
      var k :| 0 <= k < |after| && after[k] == x;
      assert k != s.index % 32 ==> x == s.entries[k] && x in s.entries;
    }
  }

  /** TLBWI then TLBP with the same EntryHi: the least matching index, never above the written one. */
  lemma WriteThenProbe(s: TlbState)
    requires ValidState(s)
    ensures var after := WriteIndexed(s);
            var p := ProbeFrom(after.entries, after.hi, 0);
            0 <= p <= s.index % 32 && ProbeMatch(after.entries[p], s.hi)
            && forall k :: 0 <= k < p ==> !ProbeMatch(after.entries[k], s.hi)
  {
    var after := WriteIndexed(s);
    assert ProbeMatch(after.entries[s.index % 32], s.hi);
    hide ProbeMatch;
    ProbeFindsFirst(after.entries, after.hi, 0);
  }

  /** TLBWI then TLBR: EntryHi and PageMask come back exactly, EntryLo up to the ANDed G bit. */
  lemma WriteThenRead(s: TlbState)
    requires ValidState(s)
    ensures var after := ReadIndexed(WriteIndexed(s));
            && after.hi == s.hi && after.mask == s.mask && after.index == s.index
            && after.lo0 / 2 == s.lo0 / 2 && after.lo1 / 2 == s.lo1 / 2
            && after.lo0 % 2 == after.lo1 % 2
            && (after.lo0 % 2 == 1 <==> s.lo0 % 2 == 1 && s.lo1 % 2 == 1)
  {
  }

  // ---------------------------------------------------------------- the object

  const EMPTY_ENTRY := TlbEntry(0, 0, 0, 0)

  ghost predicate IsCleared(entries: seq<TlbEntry>) {
    |entries| == 32 && forall k :: 0 <= k < 32 ==> entries[k] == EMPTY_ENTRY
  }

  lemma ClearedIsValid(entries: seq<TlbEntry>)
    requires IsCleared(entries)
    ensures ValidEntries(entries)
  {
    assert ValidEntry(EMPTY_ENTRY);
  }

  lemma FaultAddressFits(vpn: int, asid: int)
    requires 0 <= vpn < 0x8000 && 0 <= asid < 0x100
    ensures (vpn * 0x2000 + asid) % 0x100 == asid
    ensures MaskHi(vpn * 0x2000 + asid) == vpn * 0x2000 + asid
  {
    assert (vpn * 0x2000 + asid) / 0x2000 == vpn;
  }

  class MipsTlb {
    const entries: array<TlbEntry>
    var entryHi: U64
    var entryLo0: U64
    var entryLo1: U64
    var pageMask: U64
    var index: int

    ghost function State(): TlbState
      reads this, entries
    {
      TlbState(entries[..], entryHi, entryLo0, entryLo1, pageMask, index)
    }

    ghost predicate Valid()
      reads this, entries
    {
      ValidState(State())
    }

    constructor ()
      ensures Valid() && fresh(entries)
      ensures IsCleared(entries[..]) && entryHi == entryLo0 == entryLo1 == pageMask == index == 0
    {
      entries := new TlbEntry[32](i => EMPTY_ENTRY);
      entryHi, entryLo0, entryLo1, pageMask, index := 0, 0, 0, 0, 0;
      new;
      ClearedIsValid(entries[..]);
    }

    /** Clears the entries only; the registers keep their values. */
    method Reset()
      requires Valid()
      modifies entries
      ensures Valid()
      ensures IsCleared(entries[..]) && State() == old(State()).(entries := entries[..])
    {
      for i := 0 to 32
        invariant forall k :: 0 <= k < i ==> entries[k] == EMPTY_ENTRY
      {
        entries[i] := EMPTY_ENTRY;
      }
      ClearedIsValid(entries[..]);
    }

    method TranslateAddress(address: U64) returns (result: Translation)
      requires Valid()
      ensures result == Translate(State().View(), address)
    {
      hide Hits, Resolve;
      var a := Low32(address);
      if IsUnmappedSegment(a) {
        return Translation(true, false, a % 0x2000_0000);
      }
      var asid := entryHi % 0x100;
      var i := 0;
      while i < 32
        invariant 0 <= i <= 32
        invariant Search(entries[..], asid, a, 0) == Search(entries[..], asid, a, i)
      {
        if Hits(entries[i], asid, a) {
          return Resolve(entries[i], a);
        }
        i := i + 1;
      }
      result := NOT_FOUND;
    }

    method SetTlbEntry(idx: int, e: TlbEntry)
      requires Valid() && 0 <= idx < 32 && IsPageMask(e.mask)
      modifies entries
      ensures Valid()
      ensures State() == old(State()).(entries := old(entries[..])[idx := Stored(e)])
    {
      StoredIsValid(e);
      entries[idx] := e;
      if e.lo0 % 2 == 1 && e.lo1 % 2 == 1 {
        entries[idx] := e;
      } else {
        entries[idx] := e.(lo0 := SetLowBit(e.lo0, false), lo1 := SetLowBit(e.lo1, false));
      }
      assert entries[..] == old(entries[..])[idx := Stored(e)];
      hide Stored, ValidEntry;
      forall x | x in entries[..] ensures ValidEntry(x) {
        var k :| 0 <= k < 32 && entries[k] == x;
        assert k != idx ==> x == old(entries[..])[k] && x in old(entries[..]);
      }
    }

    method SetEntryHi(value: U64)
      requires Valid()
      modifies this`entryHi
      ensures Valid() && State() == old(State()).(hi := MaskHi(value))
    {
      MaskedHi(value / 0x2000 % 0x8_0000, value % 0x100);
      hide ValidEntries;
      entryHi := MaskHi(value);
    }

    method SetPageMask(value: U64)
      requires Valid()
      modifies this`pageMask
      ensures Valid() && State() == old(State()).(mask := MaskPage(value))
    {
      pageMask := MaskPage(value);
    }

    method SetEntryLo0(value: U64)
      requires Valid()
      modifies this`entryLo0
      ensures Valid() && State() == old(State()).(lo0 := value)
    {
      entryLo0 := value;
    }

    method SetEntryLo1(value: U64)
      requires Valid()
      modifies this`entryLo1
      ensures Valid() && State() == old(State()).(lo1 := value)
    {
      entryLo1 := value;
    }

    method SetIndex(value: U32)
      requires Valid()
      modifies this`index
      ensures Valid() && State() == old(State()).(index := value % 64)
    {
      index := value % 64;
    }

    /** The ASID survives, so the mapping does not change. */
    method InformTlbException(address: U64)
      requires Valid()
      modifies this`entryHi
      ensures Valid() && State().View() == old(State()).View()
      ensures State() == old(State()).(hi := address / 0x2000 % 0x8000 * 0x2000 + old(entryHi) % 0x100)
    {
      FaultAddressFits(address / 0x2000 % 0x8000, entryHi % 0x100);
      entryHi := address / 0x2000 % 0x8000 * 0x2000 + entryHi % 0x100;
      hide MaskHi;
    }

    method ProbeTlbEntry() returns (p: U32)
      requires Valid()
      ensures p == ProbeFrom(entries[..], entryHi, 0)
    {
      hide ProbeMatch;
      var i := 0;
      while i < 32
        invariant 0 <= i <= 32
        invariant ProbeFrom(entries[..], entryHi, 0) == ProbeFrom(entries[..], entryHi, i)
      {
        if ProbeMatch(entries[i], entryHi) {
          return i;
        }
        i := i + 1;
      }
      p := PROBE_MISS;
    }

    // Cop0 commands on this TLB.

    method Tlbr()
      requires Valid()
      modifies this
      ensures Valid() && State() == ReadIndexed(old(State()))
    {
      var e := entries[index % 32];
      SetEntryLo0(e.lo0);
      SetEntryLo1(e.lo1);
      SetEntryHi(e.hi);
      SetPageMask(e.mask);
    }

    method Tlbwi()
      requires Valid()
      modifies entries
      ensures Valid() && State() == WriteIndexed(old(State()))
    {
      SetTlbEntry(index % 32, TlbEntry(entryLo0, entryLo1, entryHi, pageMask));
    }

    method Tlbp()
      requires Valid()
      modifies this
      ensures Valid()
      ensures State() == old(State()).(index := ProbeFrom(old(entries[..]), old(entryHi), 0) % 64)
    {
      var p := ProbeTlbEntry();
      SetIndex(p);
    }
  }
}
