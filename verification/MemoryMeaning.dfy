/**
 * What encoded loads and stores do (src/mips_base.cpp:1107-1380, 1942-2184, 2765-2940): the address, when it is
 * an error, the bytes in order, the extension, and the register; and the unaligned pairs as encoded instructions.
 */
module MemoryMeaning {
  import opened Words
  import opened Bits
  import opened Decoder
  import opened Encoding
  import opened Tlb
  import opened Memory
  import opened Handlers
  import opened InstructionMeaning
  import P = UnalignedPairs

  /** How many bytes an aligned load or store accesses. */
  function AccessSize(id: InstId): (n: nat)
    ensures n == 1 || n == 2 || n == 4 || n == 8
  {
    if id.KLb? || id.KLbu? || id.KSb? then 1
    else if id.KLh? || id.KLhu? || id.KSh? then 2
    else if id.KLw? || id.KLwu? || id.KSw? then 4
    else 8
  }

  predicate IsSignedLoad(id: InstId) { id.KLb? || id.KLh? || id.KLw? }

  /** The n bytes from p on as one number, the first the most significant. */
  function Number(mem: Mem, p: nat, n: nat): (v: nat)
    ensures v < Pow256(n)
  {
    if n == 0 then 0 else Number(mem, p, n - 1) * 256 + Peek(mem, p + n - 1)
  }

  /** A loaded number in a register: sign-extended by LB, LH and LW, zero-extended by the others. */
  function Widened(id: InstId, v: nat): U64 {
    var m := Pow256(AccessSize(id));
    Wrap64(if IsSignedLoad(id) && 2 * v >= m then v - m else v)
  }

  /** Base register plus signed offset, modulo 2^64. */
  function Target(i: Inst, gpr: Regs): U64
    requires i.Immediate?
  {
    Wrap64(gpr[i.rs] + Signed16(i.imm))
  }

  // ---------------------------------------------------------------- the bytes of an access

  lemma {:induction false} PeekedLast(mem: Mem, p: nat, n: nat)
    requires n > 0
    ensures PeekBytes(mem, p, n) == PeekBytes(mem, p, n - 1) + [Peek(mem, p + n - 1)]
    decreases n
  {
    hide Peek;
    if n > 1 { PeekedLast(mem, p + 1, n - 1); }
  }

  lemma {:induction false} PeekedIs(mem: Mem, p: nat, n: nat)
    ensures Value(PeekBytes(mem, p, n)) == Number(mem, p, n)
  {
    hide Peek, Pow256;
    if n > 0 {
      PeekedLast(mem, p, n);
      PeekedIs(mem, p, n - 1);
      ValueStep(PeekBytes(mem, p, n));
      hide PeekBytes, Value;
      assert PeekBytes(mem, p, n)[..n - 1] == PeekBytes(mem, p, n - 1);
    } else {
      NoBytes(0);
    }
  }

  /** Byte j of a number of n bytes: what is left after the bytes behind it are divided off. */
  lemma {:induction false} ByteOf(v: nat, n: nat, j: nat)
    requires j < n
    ensures Bytes(v, n)[j] == v / Pow256(n - 1 - j) % 256
    decreases n
  {
    BytesStep(v, n);
    hide Bytes, Pow256;
    if j < n - 1 {
      ByteOf(v / 256, n - 1, j);
      PowStep(n - 1 - j);
      DivDiv(v, 256, Pow256(n - 2 - j));
    } else {
      NoBytes(v);
    }
  }

  lemma {:induction false} Poked(mem: Mem, p: nat, b: seq<U8>, q: nat)
    ensures Peek(PokeBytes(mem, p, b), q) == if p <= q < p + |b| then b[q - p] else Peek(mem, q)
    decreases |b|
  {
    if b != [] { Poked(mem[p := b[0]], p + 1, b[1..], q); }
  }

  // ---------------------------------------------------------------- aligned loads and stores

  lemma LoadKind(id: InstId)
    requires LoadCode(id) != NO_CODE
    ensures IsLoad(id) && !IsUnalignedLoad(id) && !IsUnalignedStore(id)
  {
  }

  lemma StoreKind(id: InstId)
    requires StoreCode(id) != NO_CODE
    ensures IsStore(id) && !IsLoad(id) && !IsUnalignedLoad(id) && !IsUnalignedStore(id)
  {
  }

  /** What a load of n bytes at a does, before the register is written. */
  predicate LoadsWord(r: (Outcome, nat), t: TlbView, strict: bool, d: Data, a: U64, n: nat)
    requires n > 0
  {
    if strict && a % n != 0 then r.0 == Raise(AddressLoad, Some(a))
    else if !Translate(t, a).found then r.0 == Fatal
    else r == (Done(d), Number(d.mem, Translate(t, a).address, n))
  }

  lemma LoadWordIs(t: TlbView, strict: bool, raw: U32, d: Data, n: nat)
    requires n > 0
    ensures LoadsWord(LoadWord(t, strict, raw, d, n), t, strict, d, Address(raw, d.gpr), n)
  {
    hide Translate, Address, Value, PeekBytes, Number, Pow256;
    PeekedIs(d.mem, Translate(t, Address(raw, d.gpr)).address, n);
  }

  lemma SignedByte(v: nat)
    requires v < 0x100
    ensures Wrap64(Signed8(v)) == Widened(KLb, v) && v == Widened(KLbu, v)
  {
  }

  lemma SignedHalf(v: nat)
    requires v < 0x1_0000
    ensures Wrap64(Signed16(v)) == Widened(KLh, v) && v == Widened(KLhu, v)
  {
  }

  lemma SignedWord(v: nat)
    requires v < 0x1_0000_0000
    ensures Sext32(v) == Widened(KLw, v) && v == Widened(KLwu, v)
  {
  }

  lemma WholeDouble(v: nat)
    requires v < 0x1_0000_0000_0000_0000
    ensures v == Widened(KLd, v)
  {
  }

  /** The register a load writes, given what its access gave. */
  function Loaded(id: InstId, raw: U32, d: Data, r: (Outcome, nat)): Outcome {
    if r.0.Done? then ToRt(raw, d, Widened(id, r.1)) else r.0
  }

  lemma ByteLoadIs(t: TlbView, strict: bool, id: InstId, raw: U32, d: Data)
    requires id.KLb? || id.KLbu?
    ensures Load(t, strict, id, raw, d) == Loaded(id, raw, d, LoadWord(t, false, raw, d, 1))
  {
    hide LoadWord, Rt, Wrap64, Signed8, Signed16, Sext32, Pow256, Widened, SetReg;
    var r := LoadWord(t, false, raw, d, 1);
    if r.0.Done? { SignedByte(r.1); }
  }

  lemma HalfLoadIs(t: TlbView, strict: bool, id: InstId, raw: U32, d: Data)
    requires id.KLh? || id.KLhu?
    ensures Load(t, strict, id, raw, d) == Loaded(id, raw, d, LoadWord(t, strict, raw, d, 2))
  {
    hide LoadWord, Rt, Wrap64, Signed8, Signed16, Sext32, Pow256, Widened, SetReg;
    var r := LoadWord(t, strict, raw, d, 2);
    if r.0.Done? { SignedHalf(r.1); }
  }

  lemma WordLoadIs(t: TlbView, strict: bool, id: InstId, raw: U32, d: Data)
    requires id.KLw? || id.KLwu?
    ensures Load(t, strict, id, raw, d) == Loaded(id, raw, d, LoadWord(t, strict, raw, d, 4))
  {
    hide LoadWord, Rt, Wrap64, Signed8, Signed16, Sext32, Pow256, Widened, SetReg;
    var r := LoadWord(t, strict, raw, d, 4);
    if r.0.Done? { SignedWord(r.1); }
  }

  lemma DoubleLoadIs(t: TlbView, strict: bool, raw: U32, d: Data)
    ensures Load(t, strict, KLd, raw, d) == Loaded(KLd, raw, d, LoadWord(t, strict, raw, d, 8))
  {
    hide LoadWord, Rt, Wrap64, Signed8, Signed16, Sext32, Pow256, Widened, SetReg;
    var r := LoadWord(t, strict, raw, d, 8);
    if r.0.Done? { WholeDouble(r.1); }
  }

  lemma ComputesLoad(t: TlbView, strict: bool, raw: U32, d: Data)
    requires LoadCode(Decode(raw)) != NO_CODE
    ensures Compute(t, strict, raw, d) == Load(t, strict, Decode(raw), raw, d)
  {
    LoadKind(Decode(raw));
    hide Decode, LoadCode, IsLoad, IsUnalignedLoad, IsUnalignedStore, Load, Store, Unaligned, Alu;
  }

  lemma ComputesStore(t: TlbView, strict: bool, raw: U32, d: Data)
    requires StoreCode(Decode(raw)) != NO_CODE
    ensures Compute(t, strict, raw, d) == Store(t, strict, Decode(raw), raw, d)
  {
    StoreKind(Decode(raw));
    hide Decode, StoreCode, IsLoad, IsStore, IsUnalignedLoad, IsUnalignedStore, Load, Store, Unaligned, Alu;
  }

  lemma LoadIsLoaded(t: TlbView, strict: bool, id: InstId, raw: U32, d: Data)
    requires LoadCode(id) != NO_CODE
    ensures var n := AccessSize(id);
            Load(t, strict, id, raw, d) == Loaded(id, raw, d, LoadWord(t, strict && n > 1, raw, d, n))
  {
    hide Load, Loaded, LoadWord;
    if id.KLb? || id.KLbu? {
      ByteLoadIs(t, strict, id, raw, d);
    } else if id.KLh? || id.KLhu? {
      HalfLoadIs(t, strict, id, raw, d);
    } else if id.KLw? || id.KLwu? {
      WordLoadIs(t, strict, id, raw, d);
    } else {
      DoubleLoadIs(t, strict, raw, d);
    }
  }

  /** What a load of n bytes at a does to register reg. */
  predicate Reads(o: Outcome, t: TlbView, strict: bool, d: Data, a: U64, id: InstId, reg: RegIndex) {
    var n := AccessSize(id);
    if strict && a % n != 0 then o == Raise(AddressLoad, Some(a))
    else if !Translate(t, a).found then o == Fatal
    else Gives(o, d, reg, Widened(id, Number(d.mem, Translate(t, a).address, n)))
  }

  lemma LoadedReads(t: TlbView, strict: bool, id: InstId, raw: U32, d: Data, n: nat)
    requires LoadCode(id) != NO_CODE && n == AccessSize(id)
    ensures Reads(Loaded(id, raw, d, LoadWord(t, strict && n > 1, raw, d, n)), t, strict, d, Address(raw, d.gpr), id,
                  Rt(raw))
  {
    hide LoadCode, LoadWord, AccessSize, Widened, Number, Translate, Address, Rt, Pow256;
    LoadWordIs(t, strict && n > 1, raw, d, n);
  }

  /**
   * LB to LD: a strict CPU raises an address error with the address exactly when it is not a multiple of the size;
   * an untranslated address ends the run; otherwise rt gets the bytes at the address, widened.
   */
  lemma LoadReads(t: TlbView, strict: bool, i: Inst, d: Data)
    requires Valid(i) && i.Immediate? && LoadCode(i.id) != NO_CODE
    ensures Reads(Compute(t, strict, Encode(i), d), t, strict, d, Target(i, d.gpr), i.id, i.rt)
  {
    hide *;
    ImmediateFields(i);
    ComputesLoad(t, strict, Encode(i), d);
    LoadIsLoaded(t, strict, i.id, Encode(i), d);
    LoadedReads(t, strict, i.id, Encode(i), d, AccessSize(i.id));
    AddressIs(i, Encode(i), d.gpr);
  }

  lemma AddressIs(i: Inst, raw: U32, gpr: Regs)
    requires i.Immediate? && Rs(raw) == i.rs && Imm(raw) == i.imm
    ensures Address(raw, gpr) == Target(i, gpr)
  {
    hide Rs, Imm, Wrap64;
  }

  /** Byte q after a store of the n low bytes of v at p: the most significant of them first. */
  function StoredByte(mem: Mem, p: nat, v: nat, n: nat, q: nat): U8 {
    if p <= q < p + n then v / Pow256(n - 1 - (q - p)) % 256 else Peek(mem, q)
  }

  ghost predicate Stores(o: Outcome, d: Data, p: nat, v: nat, n: nat) {
    && o.Done? && o == Done(d.(mem := o.data.mem))
    && forall q: nat :: Peek(o.data.mem, q) == StoredByte(d.mem, p, v, n, q)
  }

  lemma StoreNIs(t: TlbView, d: Data, a: U64, v: nat, n: nat)
    requires Translate(t, a).found && !Translate(t, a).readOnly
    ensures var r := StoreN(t, d.mem, a, v, n);
            r.Some? && Stores(Done(d.(mem := r.value)), d, Translate(t, a).address, v, n)
  {
    hide Translate, Bytes, PokeBytes, Peek, Pow256;
    var p, b := Translate(t, a).address, Bytes(v, n);
    forall q: nat ensures Peek(PokeBytes(d.mem, p, b), q) == StoredByte(d.mem, p, v, n, q) {
      Poked(d.mem, p, b, q);
      if p <= q < p + n { ByteOf(v, n, q - p); }
    }
  }

  lemma StoreIs(t: TlbView, strict: bool, id: InstId, raw: U32, d: Data)
    requires StoreCode(id) != NO_CODE
    ensures var n := AccessSize(id);
            Store(t, strict, id, raw, d) == StoreWord(t, strict && n > 1, raw, d, n)
  {
    hide StoreWord;
  }

  /** What a store of the low bytes of v at a does. */
  ghost predicate Writes(o: Outcome, t: TlbView, strict: bool, d: Data, a: U64, n: nat, v: U64)
    requires n > 0
  {
    if strict && a % n != 0 then o == Raise(AddressStore, Some(a))
    else if !Translate(t, a).found || Translate(t, a).readOnly then o == Fatal
    else Stores(o, d, Translate(t, a).address, v, n)
  }

  lemma StoreWordWrites(t: TlbView, strict: bool, raw: U32, d: Data, n: nat)
    requires n > 0
    ensures Writes(StoreWord(t, strict && n > 1, raw, d, n), t, strict, d, Address(raw, d.gpr), n, d.gpr[Rt(raw)])
  {
    hide Translate, Address, Rt, Stores, Bytes, PokeBytes, Pow256;
    var a := Address(raw, d.gpr);
    if Translate(t, a).found && !Translate(t, a).readOnly { StoreNIs(t, d, a, d.gpr[Rt(raw)], n); }
  }

  /** SB to SD: the same for stores, of the low bytes of rt; all other bytes and all registers stay. */
  lemma StoreWrites(t: TlbView, strict: bool, i: Inst, d: Data)
    requires Valid(i) && i.Immediate? && StoreCode(i.id) != NO_CODE
    ensures Writes(Compute(t, strict, Encode(i), d), t, strict, d, Target(i, d.gpr), AccessSize(i.id), d.gpr[i.rt])
  {
    hide *;
    ImmediateFields(i);
    ComputesStore(t, strict, Encode(i), d);
    StoreIs(t, strict, i.id, Encode(i), d);
    StoreWordWrites(t, strict, Encode(i), d, AccessSize(i.id));
    AddressIs(i, Encode(i), d.gpr);
  }

  // ---------------------------------------------------------------- unaligned pairs

  /** Two encoded instructions on the same registers, the second at the last byte of the word. */
  predicate IsPairOf(i: Inst, j: Inst, w: nat) {
    && Valid(i) && Valid(j) && i.Immediate? && j.Immediate? && P.IsWidth(w)
    && j.rs == i.rs && j.rt == i.rt && Signed16(j.imm) == Signed16(i.imm) + w - 1
  }

  /** LWL and LWR, or LDL and LDR. */
  predicate LoadsPair(i: InstId, j: InstId, w: nat) {
    (w == 4 && i.KLwl? && j.KLwr?) || (w == 8 && i.KLdl? && j.KLdr?)
  }

  predicate StoresPair(i: InstId, j: InstId, w: nat) {
    (w == 4 && i.KSwl? && j.KSwr?) || (w == 8 && i.KSdl? && j.KSdr?)
  }

  lemma PairCode(id: InstId)
    ensures id.KLwl? ==> PrimaryCode(id) == 34
    ensures id.KLwr? ==> PrimaryCode(id) == 38
    ensures id.KLdl? ==> PrimaryCode(id) == 26
    ensures id.KLdr? ==> PrimaryCode(id) == 27
    ensures id.KSwl? ==> PrimaryCode(id) == 42
    ensures id.KSwr? ==> PrimaryCode(id) == 46
    ensures id.KSdl? ==> PrimaryCode(id) == 44
    ensures id.KSdr? ==> PrimaryCode(id) == 45
  {
    hide PrimaryCode;
    UnalignedOpcode(id);
  }

  lemma UnalignedOpcode(id: InstId)
    ensures UnalignedCode(id) != NO_CODE ==> PrimaryCode(id) == UnalignedCode(id)
  {
    hide BranchCode, ImmediateCode, LoadCode, StoreCode, OtherCode, UnalignedCode;
    if UnalignedCode(id) != NO_CODE { UnalignedIsNoBranch(id); }
  }

  lemma PairFields(i: Inst, j: Inst, w: nat)
    requires IsPairOf(i, j, w)
    ensures Valid(i) && Valid(j) && i.Immediate? && j.Immediate? && P.IsWidth(w)
    ensures Rt(Encode(i)) == i.rt && Rs(Encode(i)) == i.rs && Rt(Encode(j)) == i.rt
    ensures LoadsPair(i.id, j.id, w) ==> P.IsLoadPair(Encode(i), Encode(j), w)
    ensures StoresPair(i.id, j.id, w) ==> P.IsStorePair(Encode(i), Encode(j), w)
    ensures forall gpr :: Address(Encode(i), gpr) == Target(i, gpr)
  {
    hide Encode, Decode, Valid, Op, Rs, Rt, Imm, PrimaryCode, Address, Target;
    ImmediateFields(i);
    ImmediateFields(j);
    PairCode(i.id);
    PairCode(j.id);
    forall gpr ensures Address(Encode(i), gpr) == Target(i, gpr) { AddressIs(i, Encode(i), gpr); }
  }

  /** The encoded pair loads the bytes at its first address, whatever the alignment and whatever rt held. */
  lemma LoadPairReads(t: TlbView, strict: bool, i: Inst, j: Inst, d: Data, w: nat)
    requires IsPairOf(i, j, w) && LoadsPair(i.id, j.id, w) && i.rt != 0 && i.rt != i.rs
    requires P.Readable(t, Target(i, d.gpr), w)
    ensures var value := Value(P.Seen(t, d.mem, Target(i, d.gpr), w));
            && value < Pow256(w)
            && P.Sequence(t, strict, [Encode(i), Encode(j)], d)
               == Done(d.(gpr := d.gpr[i.rt := P.Extended(value, w)]))
  {
    hide *;
    PairFields(i, j, w);
    P.LoadPairInstructions(t, strict, Encode(i), Encode(j), d, w);
    P.SequenceOf(t, strict, Encode(i), Encode(j), d, Compute(t, strict, Encode(i), d).data);
  }

  /** The encoded pair stores the low bytes of rt at its first address, and only there. */
  lemma StorePairWrites(t: TlbView, strict: bool, i: Inst, j: Inst, d: Data, w: nat) returns (m: Mem)
    requires t.Normal? && ValidView(t) && IsPairOf(i, j, w) && StoresPair(i.id, j.id, w)
    requires P.Writable(t, Target(i, d.gpr), w)
    ensures P.Sequence(t, strict, [Encode(i), Encode(j)], d) == Done(d.(mem := m))
    ensures P.Stored(t, d.mem, m, Target(i, d.gpr), P.LowPart(d.gpr[i.rt], w), w, 0, w)
  {
    hide *;
    PairFields(i, j, w);
    m := P.StorePairInstructions(t, strict, Encode(i), Encode(j), d, w);
    P.SequenceOf(t, strict, Encode(i), Encode(j), d, Compute(t, strict, Encode(i), d).data);
  }

  // ---------------------------------------------------------------- when an unaligned access completes

  /** Byte k upward or downward from a may be read, or written. */
  predicate Accessible(t: TlbView, a: U64, down: bool, writes: bool, k: int) {
    var r := Translate(t, Wrap64(if down then a - k else a + k));
    r.found && !(writes && r.readOnly)
  }

  /** All bytes from k to n do. */
  ghost predicate AllAccessible(t: TlbView, a: U64, down: bool, writes: bool, k: int, n: int) {
    forall j :: k <= j < n ==> Accessible(t, a, down, writes, j)
  }

  lemma AllStep(t: TlbView, a: U64, down: bool, writes: bool, k: int, n: int)
    ensures k >= n ==> AllAccessible(t, a, down, writes, k, n)
    ensures k < n ==> (AllAccessible(t, a, down, writes, k, n)
                       <==> Accessible(t, a, down, writes, k) && AllAccessible(t, a, down, writes, k + 1, n))
  {
    hide Accessible;
  }

  lemma {:induction false} LeftLoads(t: TlbView, mem: Mem, a: U64, v: nat, w: nat, i: nat)
    requires 0 < w && i <= LeftCount(a, w)
    ensures LoadLeft(t, mem, a, v, w, i).Some? <==> AllAccessible(t, a, false, false, i, LeftCount(a, w))
    decreases LeftCount(a, w) - i
  {
    hide Translate, PutByte, AllAccessible, LeftCount, Wrap64, Peek, Pow256;
    AllStep(t, a, false, false, i, LeftCount(a, w));
    if i < LeftCount(a, w) && Load8(t, mem, Wrap64(a + i)).Some? {
      LeftLoads(t, mem, a, PutByte(v, w, w - 1 - i, Load8(t, mem, Wrap64(a + i)).value), w, i + 1);
    }
  }

  lemma {:induction false} RightLoads(t: TlbView, mem: Mem, a: U64, v: nat, w: nat, i: nat)
    requires 0 < w && i <= RightCount(a, w)
    ensures LoadRight(t, mem, a, v, w, i).Some? <==> AllAccessible(t, a, true, false, i, RightCount(a, w))
    decreases RightCount(a, w) - i
  {
    hide Translate, PutByte, AllAccessible, RightCount, Wrap64, Peek, Pow256;
    AllStep(t, a, true, false, i, RightCount(a, w));
    if i < RightCount(a, w) && Load8(t, mem, Wrap64(a - i)).Some? {
      RightLoads(t, mem, a, PutByte(v, w, i, Load8(t, mem, Wrap64(a - i)).value), w, i + 1);
    }
  }

  lemma {:induction false} LeftStores(t: TlbView, mem: Mem, a: U64, v: nat, w: nat, i: nat)
    requires 0 < w && i <= LeftCount(a, w)
    ensures StoreLeft(t, mem, a, v, w, i).Some? <==> AllAccessible(t, a, false, true, i, LeftCount(a, w))
    decreases LeftCount(a, w) - i
  {
    hide Translate, GetByte, AllAccessible, LeftCount, Wrap64;
    AllStep(t, a, false, true, i, LeftCount(a, w));
    if i < LeftCount(a, w) {
      var m := Store8(t, mem, Wrap64(a + i), GetByte(v, w, w - 1 - i));
      if m.Some? { LeftStores(t, m.value, a, v, w, i + 1); }
    }
  }

  lemma {:induction false} RightStores(t: TlbView, mem: Mem, a: U64, v: nat, w: nat, i: nat)
    requires 0 < w && i <= RightCount(a, w)
    ensures StoreRight(t, mem, a, v, w, i).Some? <==> AllAccessible(t, a, true, true, i, RightCount(a, w))
    decreases RightCount(a, w) - i
  {
    hide Translate, GetByte, AllAccessible, RightCount, Wrap64;
    AllStep(t, a, true, true, i, RightCount(a, w));
    if i < RightCount(a, w) {
      var m := Store8(t, mem, Wrap64(a - i), GetByte(v, w, i));
      if m.Some? { RightStores(t, m.value, a, v, w, i + 1); }
    }
  }

  predicate GoesDown(id: InstId) { id.KLwr? || id.KLdr? || id.KSwr? || id.KSdr? }

  predicate IsUnalignedStoreId(id: InstId) { id.KSwl? || id.KSwr? || id.KSdl? || id.KSdr? }

  /** 4 bytes for LWL, LWR, SWL and SWR, 8 for the others. */
  function PairWidth(id: InstId): nat { if id.KLwl? || id.KLwr? || id.KSwl? || id.KSwr? then 4 else 8 }

  /** From the address to the end of its word for the left forms, from its start for the right forms. */
  function PairCount(id: InstId, a: U64): nat {
    if GoesDown(id) then a % PairWidth(id) + 1 else PairWidth(id) - a % PairWidth(id)
  }

  lemma UnalignedKind(id: InstId)
    requires UnalignedCode(id) != NO_CODE
    ensures IsUnalignedStore(id) == IsUnalignedStoreId(id) && IsUnalignedLoad(id) == !IsUnalignedStoreId(id)
    ensures Width(id) == PairWidth(id)
    ensures (id.KLwl? || id.KLdl? || id.KSwl? || id.KSdl?) == !GoesDown(id)
  {
  }

  lemma MergedCompletes(t: TlbView, id: InstId, mem: Mem, a: U64, v: U64)
    requires UnalignedCode(id) != NO_CODE && IsUnalignedLoad(id)
    ensures Merged(t, id, mem, a, v).Some? <==> AllAccessible(t, a, GoesDown(id), false, 0, PairCount(id, a))
  {
    UnalignedKind(id);
    LeftLoads(t, mem, a, Operand(id, v), Width(id), 0);
    RightLoads(t, mem, a, Operand(id, v), Width(id), 0);
    hide UnalignedCode, IsUnalignedLoad, IsUnalignedStore, IsUnalignedStoreId, Width, PairWidth, Operand, LoadLeft;
    hide LoadRight, AllAccessible, GoesDown;
  }

  lemma ScatteredCompletes(t: TlbView, id: InstId, mem: Mem, a: U64, v: U64)
    requires UnalignedCode(id) != NO_CODE && IsUnalignedStore(id)
    ensures Scattered(t, id, mem, a, v).Some? <==> AllAccessible(t, a, GoesDown(id), true, 0, PairCount(id, a))
  {
    UnalignedKind(id);
    LeftStores(t, mem, a, Operand(id, v), Width(id), 0);
    RightStores(t, mem, a, Operand(id, v), Width(id), 0);
    hide UnalignedCode, IsUnalignedLoad, IsUnalignedStore, IsUnalignedStoreId, Width, PairWidth, Operand, StoreLeft;
    hide StoreRight, AllAccessible, GoesDown;
  }

  lemma UnalignedOutcome(t: TlbView, id: InstId, raw: U32, d: Data)
    requires UnalignedCode(id) != NO_CODE && (IsUnalignedLoad(id) || IsUnalignedStore(id))
    ensures var a := Address(raw, d.gpr);
            Unaligned(t, id, raw, d).Done?
            <==> AllAccessible(t, a, GoesDown(id), IsUnalignedStoreId(id), 0, PairCount(id, a))
    ensures Unaligned(t, id, raw, d).Done? || Unaligned(t, id, raw, d) == Fatal
  {
    UnalignedKind(id);
    hide UnalignedCode, IsUnalignedLoad, IsUnalignedStore, IsUnalignedStoreId, Width, PairWidth, Merged, Scattered;
    hide AllAccessible, GoesDown, PairCount, Address, Rt, Pow256;
    var a, v := Address(raw, d.gpr), d.gpr[Rt(raw)];
    if IsUnalignedLoad(id) { MergedCompletes(t, id, d.mem, a, v); } else { ScatteredCompletes(t, id, d.mem, a, v); }
  }

  /** An unaligned access raises no exception: it completes if and only if all its bytes are accessible. */
  lemma UnalignedCompletes(t: TlbView, strict: bool, i: Inst, d: Data)
    requires Valid(i) && i.Immediate? && UnalignedCode(i.id) != NO_CODE
    ensures var o, a := Compute(t, strict, Encode(i), d), Target(i, d.gpr);
            && (o.Done? <==> AllAccessible(t, a, GoesDown(i.id), IsUnalignedStoreId(i.id), 0, PairCount(i.id, a)))
            && (o.Done? || o == Fatal)
  {
    hide *;
    ImmediateFields(i);
    UnalignedKind(i.id);
    P.UnalignedIs(t, strict, Encode(i), d);
    UnalignedOutcome(t, i.id, Encode(i), d);
    AddressIs(i, Encode(i), d.gpr);
  }
}
