/**
 * Where the TLB maps an address, in numbers: which entries translate it, which half of the entry holds its page,
 * and what its physical address is (src/mips_tlb_normal.cpp:16-60).
 */
module TlbMeaning {
  import opened Words
  import opened Bits
  import opened Tlb

  /** The entry maps pages of 2^k times 4 KB: the page mask covers twice the page. */
  ghost predicate HasPageSize(e: TlbEntry, k: nat, size: nat) {
    k <= 12 && size == 0x1000 * Pow2(k) && e.mask == 2 * size - 0x2000
  }

  /** EntryLo of the page of a: odd pages in lo1, even ones in lo0. */
  function HalfOf(e: TlbEntry, size: nat, a: U32): U64
    requires size > 0
  {
    if a / size % 2 == 1 then e.lo1 else e.lo0
  }

  /** The virtual page pair and the address space agree, and the page is valid. */
  predicate MapsPage(e: TlbEntry, size: nat, asid: int, a: U32)
    requires size > 0
  {
    && Low32(e.hi) / (2 * size) == a / (2 * size)
    && (e.lo0 % 2 == 1 || e.hi % 0x100 == asid)
    && HalfOf(e, size, a) / 2 % 2 == 1
  }

  /** The frame of the page, with the offset inside the page. */
  function MappedAddress(e: TlbEntry, size: nat, a: U32): U64
    requires size > 0
  {
    FrameAndOffset(FrameOf(HalfOf(e, size, a)), size, a)
  }

  /** Bits 6 to 25 of EntryLo, times 4 KB. */
  function FrameOf(lo: U64): U32 { lo / 64 % 0x10_0000 * 0x1000 }

  /** The frame rounded down to the page size, plus the offset in the page. */
  function FrameAndOffset(frame: U32, size: nat, a: U32): U64
    requires size > 0
  {
    NaturalDivision(frame, size);
    NaturalDivision(a, size);
    frame / size * size + a % size
  }

  lemma SizeIs(k: nat, size: nat)
    requires k <= 12 && size == 0x1000 * Pow2(k)
    ensures size == Pow2(12 + k) && 2 * size == Pow2(13 + k) && 0x1000 <= size <= 0x100_0000
    ensures Pow2(13) == 0x2000 && Pow2(32) == 0x1_0000_0000 && Pow2(13 + k) <= Pow2(32)
  {
    PowAdd(12, k);
    assert Pow2(12) == 0x1000 && Pow2(13) == 0x2000;
    Pow2Grows(k, 12);
    WordSizes();
    Pow2Grows(13 + k, 32);
  }

  lemma OddMaskIsSize(e: TlbEntry, k: nat, size: nat)
    requires HasPageSize(e, k, size)
    ensures OddMask(e) == size && OffsetMask(e) == size - 1
  {
    SizeIs(k, size);
    OddMaskValue(e, Pow2(k) - 1);
    hide OddMask;
  }

  /** A number from its bits above bit 13 and its low bits. */
  lemma MaskParts(x: nat)
    ensures x == Shl(x / 0x2000, 13) + x % 0x2000 && Shl(x / 0x2000, 13) == x / 0x2000 * 0x2000 && Pow2(13) == 0x2000
  {
    assert Pow2(13) == 0x2000;
    ShlIsProduct(x / 0x2000, 13);
    hide Shl, Pow2;
  }

  /** Both parts of the mask apply separately. */
  lemma AndParts(x: nat, high: nat, low: nat)
    requires low < 0x2000
    ensures And(x, high * 0x2000 + low) == And(x / 0x2000, high) * 0x2000 + And(x % 0x2000, low)
  {
    MaskParts(x);
    ShlIsProduct(high, 13);
    ShlIsProduct(And(x / 0x2000, high), 13);
    AndPack(x / 0x2000, x % 0x2000, high, low, 13);
    hide And, Shl, Pow2;
  }

  lemma FieldPowers()
    ensures Pow2(8) == 0x100 && Pow2(12) == 0x1000 && Pow2(15) == 0x8000 && Pow2(19) == 0x8_0000
  {
    assert Pow2(4) == 16;
    assert Pow2(8) == 0x100;
    assert Pow2(12) == 0x1000;
    assert Pow2(15) == 0x8000;
  }

  lemma ComplementQuotient(j: nat)
    requires j < 0x1000
    ensures (0xFFFF_FFFF_FFFF_FFFF - 0x2000 * j) / 0x2000 % 0x8_0000 == 0x7_FFFF - j
  {
  }

  lemma ComplementMask(mask: U64, j: nat)
    requires mask == 0x2000 * j && j < 0x1000
    ensures And(0xFFFF_FFFF_FFFF_FFFF - mask, 0xFFFF_E000) == 0xFFFF_E000 - mask
  {
    hide And;
    FieldPowers();
    ComplementQuotient(j);
    var x: nat := 0xFFFF_FFFF_FFFF_FFFF - mask;
    AndParts(x, 0x7_FFFF, 0);
    AndOfOnes(x / 0x2000, 19);
    AndOfZero(x % 0x2000);
    hide Pow2;
  }

  lemma VpnMaskIs(e: TlbEntry, k: nat, size: nat)
    requires HasPageSize(e, k, size)
    ensures VpnMask(e) == 0x1_0000_0000 - 2 * size
  {
    FieldPowers();
    Pow2Grows(k, 12);
    hide And, Pow2;
    ComplementMask(e.mask, Pow2(k) - 1);
  }

  /** The page pair of an address, as the mask sees it. */
  lemma PairOf(x: U64, k: nat, size: nat)
    requires k <= 12 && size == 0x1000 * Pow2(k) && size <= 0x100_0000
    ensures And(x, 0x1_0000_0000 - 2 * size) == Low32(x) / (2 * size) * (2 * size)
  {
    SizeIs(k, size);
    AndOfMask(x, 13 + k, 32);
    LowOfFewer(x, 13 + k, 32);
    DivParts(Low(x, 32), 13 + k);
    hide And, Pow2;
  }

  lemma SameMultiple(x: nat, y: nat, m: nat)
    requires m > 0
    ensures x * m == y * m <==> x == y
  {
    Spread(m, x, y);
    Spread(m, y, x);
  }

  lemma VpnMatchIs(e: TlbEntry, k: nat, size: nat, a: U32)
    requires HasPageSize(e, k, size)
    ensures VpnMatch(e, a) <==> Low32(e.hi) / (2 * size) == a / (2 * size)
  {
    SizeIs(k, size);
    VpnMaskIs(e, k, size);
    PairOf(e.hi, k, size);
    PairOf(a, k, size);
    SamePair(Low32(e.hi), a, 2 * size);
    hide And, VpnMask, Pow2, Low32;
    LowOfWord(a);
  }

  lemma LowOfWord(a: U32)
    ensures Low32(a) == a
  {
  }

  lemma SamePair(x: nat, y: nat, m: nat)
    requires m > 0
    ensures x / m * m == y / m * m <==> x / m == y / m
  {
    NaturalDivision(x, m);
    NaturalDivision(y, m);
    SameMultiple(x / m, y / m, m);
  }

  lemma SelectedIs(e: TlbEntry, k: nat, size: nat, a: U32)
    requires HasPageSize(e, k, size)
    ensures SelectedLo(e, a) == HalfOf(e, size, a)
  {
    OddMaskIsSize(e, k, size);
    SizeIs(k, size);
    AndOfBit(a, 12 + k);
    BitIs(a, 12 + k);
    hide And, OddMask, Pow2, Bit;
  }

  lemma FrameOfPage(pfn: U32, size: nat, j: nat)
    requires size == Pow2(j) && Pow2(j) <= 0x1_0000_0000 == Pow2(32) && j <= 32
    ensures And(pfn, 0xFFFF_FFFF - (size - 1)) == High(pfn, j) * Pow2(j)
  {
    AndOfMask(pfn, j, 32);
    LowOfSmall(pfn, 32);
    DivParts(pfn, j);
    hide And, Pow2, Low, High;
  }

  lemma OffsetInPage(a: U32, size: nat, j: nat)
    requires size == Pow2(j)
    ensures And(a, size - 1) == Low(a, j) && Low(a, j) < Pow2(j)
  {
    AndOfOnes(a, j);
    DivParts(a, j);
    hide And, Pow2, Low, High;
  }

  lemma PhysicalIs(pfn: U32, k: nat, size: nat, a: U32)
    requires k <= 12 && size == 0x1000 * Pow2(k) && 0x1000 <= size <= 0x100_0000
    ensures PhysicalAddress(pfn, size - 1, a) == FrameAndOffset(pfn, size, a)
  {
    hide *;
    SizeIs(k, size);
    var j := 12 + k;
    FrameOfPage(pfn, size, j);
    OffsetInPage(a, size, j);
    OrOfParts(High(pfn, j), Low(a, j), j);
    PhysicalParts(pfn, size, a, j);
  }

  lemma PhysicalParts(pfn: U32, size: nat, a: U32, j: nat)
    requires 0 < size < 0x1_0000_0000 && size == Pow2(j)
    ensures FrameAndOffset(pfn, size, a) == High(pfn, j) * Pow2(j) + Low(a, j)
    ensures PhysicalAddress(pfn, size - 1, a) == Or(And(pfn, 0xFFFF_FFFF - (size - 1)), And(a, size - 1))
  {
    hide And, Or, Pow2;
  }

  /** One entry: which addresses it translates, and where to. */
  lemma EntryMaps(e: TlbEntry, k: nat, size: nat, asid: int, a: U32)
    requires HasPageSize(e, k, size) && size > 0
    ensures Hits(e, asid, a) <==> MapsPage(e, size, asid, a)
    ensures Resolve(e, a) == Translation(true, HalfOf(e, size, a) / 4 % 2 == 0, MappedAddress(e, size, a))
  {
    SizeIs(k, size);
    VpnMatchIs(e, k, size, a);
    SelectedIs(e, k, size, a);
    OddMaskIsSize(e, k, size);
    PhysicalIs(FrameAddress(HalfOf(e, size, a)), k, size, a);
    hide VpnMatch, SelectedLo, OddMask, OffsetMask, PhysicalAddress, HalfOf, Pow2, FrameAndOffset;
  }

  // ---------------------------------------------------------------- the whole TLB

  /** The page size of each entry. */
  ghost predicate HasPageSizes(entries: seq<TlbEntry>, sizes: seq<nat>) {
    && |sizes| == |entries|
    && forall i :: 0 <= i < |entries| ==> sizes[i] > 0 && exists k :: HasPageSize(entries[i], k, sizes[i])
  }

  /** Entry i maps the page of a. */
  predicate MapsAt(entries: seq<TlbEntry>, sizes: seq<nat>, asid: int, a: U32, i: nat) {
    i < |entries| && i < |sizes| && sizes[i] > 0 && MapsPage(entries[i], sizes[i], asid, a)
  }

  /** What entry i says of a. */
  function MappedBy(entries: seq<TlbEntry>, sizes: seq<nat>, a: U32, i: nat): Translation {
    if i < |entries| && i < |sizes| && sizes[i] > 0 then
      Translation(true, HalfOf(entries[i], sizes[i], a) / 4 % 2 == 0, MappedAddress(entries[i], sizes[i], a))
    else NOT_FOUND
  }

  /** Entry i is the first from n on that maps a. */
  ghost predicate IsFirst(entries: seq<TlbEntry>, sizes: seq<nat>, asid: int, a: U32, n: nat, i: nat) {
    n <= i && MapsAt(entries, sizes, asid, a, i) && forall j: nat :: n <= j < i ==> !MapsAt(entries, sizes, asid, a, j)
  }

  ghost predicate SomeMaps(entries: seq<TlbEntry>, sizes: seq<nat>, asid: int, a: U32, n: nat) {
    exists i: nat :: n <= i && MapsAt(entries, sizes, asid, a, i)
  }

  lemma EntryAt(entries: seq<TlbEntry>, sizes: seq<nat>, asid: int, a: U32, i: nat)
    requires HasPageSizes(entries, sizes) && i < |entries|
    ensures Hits(entries[i], asid, a) <==> MapsAt(entries, sizes, asid, a, i)
    ensures Resolve(entries[i], a) == MappedBy(entries, sizes, a, i)
  {
    hide Hits, Resolve, MapsPage, HasPageSize, MappedAddress, HalfOf;
    var k :| HasPageSize(entries[i], k, sizes[i]);
    EntryMaps(entries[i], k, sizes[i], asid, a);
  }

  lemma {:induction false} SearchMaps(
    entries: seq<TlbEntry>, sizes: seq<nat>, asid: int, a: U32, n: nat, i: nat)
    requires HasPageSizes(entries, sizes) && n <= |entries|
    ensures Search(entries, asid, a, n).found <==> SomeMaps(entries, sizes, asid, a, n)
    ensures IsFirst(entries, sizes, asid, a, n, i) ==> Search(entries, asid, a, n) == MappedBy(entries, sizes, a, i)
    decreases |entries| - n
  {
    hide Hits, Resolve, MapsPage, HasPageSizes, MappedBy;
    if n < |entries| {
      EntryAt(entries, sizes, asid, a, n);
      SearchMaps(entries, sizes, asid, a, n + 1, i);
    }
  }

  /**
   * The translation of every address: kseg0 and kseg1 are the low 512 MB; elsewhere the first entry that maps
   * the page answers, and an address that none maps is not found.
   */
  lemma TranslationMaps(t: TlbView, sizes: seq<nat>, address: U64, i: nat)
    requires t.Normal? && HasPageSizes(t.entries, sizes)
    ensures var a: U32 := address % 0x1_0000_0000;
            if 0x8000_0000 <= a < 0xC000_0000 then Translate(t, address) == Translation(true, false, a % 0x2000_0000)
            else && (Translate(t, address).found <==> SomeMaps(t.entries, sizes, t.asid, a, 0))
                 && (IsFirst(t.entries, sizes, t.asid, a, 0, i) ==>
                       Translate(t, address) == MappedBy(t.entries, sizes, a, i))
  {
    hide Search, MapsAt, HasPageSizes, MappedBy, SomeMaps, IsFirst;
    SearchMaps(t.entries, sizes, t.asid, address % 0x1_0000_0000, 0, i);
  }

  // ---------------------------------------------------------------- the masks of the registers and of the probe

  lemma LowByte(x: nat)
    ensures x % 0x2000 % 0x100 == x % 0x100
  {
  }

  /** EntryHi keeps bits 13 to 31 and the ASID. */
  lemma EntryHiMask(x: U64)
    ensures MaskHi(x) == And(x, 0xFFFF_E0FF)
  {
    hide And;
    FieldPowers();
    AndParts(x, 0x7_FFFF, 0xFF);
    AndOfOnes(x / 0x2000, 19);
    AndOfOnes(x % 0x2000, 8);
    LowByte(x);
    hide Pow2;
  }

  /** PageMask keeps bits 13 to 24. */
  lemma PageMaskMask(x: U64)
    ensures MaskPage(x) == And(x, 0x1FF_E000)
  {
    hide And;
    FieldPowers();
    AndParts(x, 0xFFF, 0);
    AndOfOnes(x / 0x2000, 12);
    AndOfZero(x % 0x2000);
    hide Pow2;
  }

  /** What a probe looks for: bits 13 to 27 of EntryHi, and the ASID unless both halves are global. */
  predicate ProbeAnswers(e: TlbEntry, hi: U64) {
    && And(e.hi, 0xFFF_E000) == And(hi, 0xFFF_E000)
    && ((e.lo0 % 2 == 1 && e.lo1 % 2 == 1) || e.hi % 0x100 == hi % 0x100)
  }

  lemma ProbeMask(x: U64)
    ensures And(x, 0xFFF_E000) == ProbeVpn(x) * 0x2000
  {
    hide And;
    FieldPowers();
    AndParts(x, 0x7FFF, 0);
    AndOfOnes(x / 0x2000, 15);
    AndOfZero(x % 0x2000);
    hide Pow2;
  }

  lemma ProbeMatchIs(e: TlbEntry, hi: U64)
    ensures ProbeMatch(e, hi) <==> ProbeAnswers(e, hi)
  {
    hide And, ProbeVpn;
    ProbeMask(e.hi);
    ProbeMask(hi);
  }

  /** Entry i is the first that answers. */
  predicate FirstAnswer(s: TlbState, i: nat)
    requires |s.entries| == 32
  {
    i < 32 && ProbeAnswers(s.entries[i], s.hi) && forall k :: 0 <= k < i ==> !ProbeAnswers(s.entries[k], s.hi)
  }

  /**
   * TLBP leaves the least index that answers. When none does, the miss bit is lost and index 0 is left, as if
   * entry 0 had answered.
   */
  lemma ProbeIndex(s: TlbState, i: nat)
    requires |s.entries| == 32
    ensures var index := ProbeFrom(s.entries, s.hi, 0) % 64;
            && (FirstAnswer(s, i) ==> index == i)
            && ((forall k :: 0 <= k < 32 ==> !ProbeAnswers(s.entries[k], s.hi)) ==> index == 0)
  {
    hide ProbeMatch, ProbeAnswers, ProbeFrom;
    forall k | 0 <= k < 32 ensures ProbeMatch(s.entries[k], s.hi) <==> ProbeAnswers(s.entries[k], s.hi) {
      ProbeMatchIs(s.entries[k], s.hi);
    }
    ProbeFindsFirst(s.entries, s.hi, 0);
  }

  /** A TLB exception leaves EntryHi with bits 13 to 27 of the address and the ASID. */
  lemma FaultHi(address: U64, hi: U64)
    ensures address / 0x2000 % 0x8000 * 0x2000 + hi % 0x100 == Or(And(address, 0xFFF_E000), And(hi, 0xFF))
  {
    ProbeMask(address);
    FieldPowers();
    AndOfOnes(hi, 8);
    assert Pow2(13) == 0x2000;
    hide And, Or, Pow2, Shl;
    OrOfParts(ProbeVpn(address), hi % 0x100, 13);
  }
}
