/**
 * The unaligned load and store pairs (src/mips_base.cpp:2022-2184, 2802-2940): LWL/LWR, LDL/LDR, SWL/SWR and
 * SDL/SDR access exactly the bytes a .. a+w-1, most significant first, for every address a.
 */
module UnalignedPairs {
  import opened Words
  import opened Decoder
  import opened Encoding
  import opened Tlb
  import opened Memory
  import opened Handlers

  predicate IsWidth(w: nat) { w == 4 || w == 8 }

  lemma WidthIs(w: nat)
    requires IsWidth(w)
    ensures w == 4 || w == 8
  {
  }

  /** The address of byte k of the word at a. */
  function ByteAt(a: U64, k: int): U64 { Wrap64(a + k) }

  function Phys(t: TlbView, a: U64, k: int): nat { Translate(t, ByteAt(a, k)).address }

  ghost predicate Readable(t: TlbView, a: U64, w: nat) {
    forall k :: 0 <= k < w ==> Translate(t, ByteAt(a, k)).found
  }

  ghost predicate Writable(t: TlbView, a: U64, w: nat) {
    forall k :: 0 <= k < w ==> Translate(t, ByteAt(a, k)).found && !Translate(t, ByteAt(a, k)).readOnly
  }

  /** The bytes a program sees at a .. a+w-1. */
  function Seen(t: TlbView, mem: Mem, a: U64, w: nat): (b: seq<U8>)
    ensures |b| == w
  {
    if w == 0 then [] else Seen(t, mem, a, w - 1) + [Peek(mem, Phys(t, a, w - 1))]
  }

  lemma {:induction false} SeenAt(t: TlbView, mem: Mem, a: U64, w: nat, k: nat)
    requires k < w
    ensures Seen(t, mem, a, w)[k] == Peek(mem, Phys(t, a, k))
  {
    hide Translate;
    if k < w - 1 { SeenAt(t, mem, a, w - 1, k); }
  }

  // ---------------------------------------------------------------- addresses of a pair

  /** The second half of a pair is given the address of the last byte. */
  function LastByte(a: U64, w: nat): U64 { ByteAt(a, w - 1) }

  lemma LastByteOffset(a: U64, w: nat)
    requires IsWidth(w)
    ensures LastByte(a, w) % w == (if a % w == 0 then w - 1 else a % w - 1)
  {
    if w == 4 { LastOf4(a); } else { LastOf8(a); }
  }

  lemma LastOf4(a: U64)
    ensures Wrap64(a + 3) % 4 == (if a % 4 == 0 then 3 else a % 4 - 1)
  {
  }

  lemma LastOf8(a: U64)
    ensures Wrap64(a + 7) % 8 == (if a % 8 == 0 then 7 else a % 8 - 1)
  {
  }

  lemma BackFromLast(a: U64, w: nat, i: nat)
    requires IsWidth(w)
    ensures Wrap64(LastByte(a, w) - i) == ByteAt(a, w - 1 - i)
  {
    WrapTwice(a + w - 1, -(i as int));
    assert a + (w - 1 - i) == a + w - 1 - i;
  }

  lemma WrapTwice(x: int, k: int)
    ensures Wrap64(Wrap64(x) + k) == Wrap64(x + k)
  {
    assert x + k == x / 0x1_0000_0000_0000_0000 * 0x1_0000_0000_0000_0000 + (Wrap64(x) + k);
  }

  // ---------------------------------------------------------------- the loading loops

  lemma PutByteBytes(v: nat, w: nat, k: nat, b: U8)
    requires k < w
    ensures Bytes(PutByte(v, w, k, b), w) == Bytes(v, w)[w - 1 - k := b]
  {
    BytesOfValue(Bytes(v, w)[w - 1 - k := b]);
  }

  lemma LeftLoadStep(t: TlbView, mem: Mem, a: U64, v: nat, w: nat, i: nat)
    requires IsWidth(w) && i < LeftCount(a, w) && Readable(t, a, w)
    ensures LoadLeft(t, mem, a, v, w, i)
            == LoadLeft(t, mem, a, PutByte(v, w, w - 1 - i, Peek(mem, Phys(t, a, i))), w, i + 1)
  {
    hide Translate, PutByte, Peek, LeftCount;
  }

  lemma RightLoadStep(t: TlbView, mem: Mem, a: U64, v: nat, w: nat, i: nat)
    requires IsWidth(w) && i < RightCount(LastByte(a, w), w) && Readable(t, a, w)
    ensures LoadRight(t, mem, LastByte(a, w), v, w, i)
            == LoadRight(t, mem, LastByte(a, w), PutByte(v, w, i, Peek(mem, Phys(t, a, w - 1 - i))), w, i + 1)
  {
    hide Translate, PutByte, Peek, RightCount, LastByte;
    BackFromLast(a, w, i);
  }

  lemma LoadsEnd(t: TlbView, mem: Mem, a: U64, v: nat, w: nat)
    requires 0 < w
    ensures LoadLeft(t, mem, a, v, w, LeftCount(a, w)) == Some(v) == LoadRight(t, mem, a, v, w, RightCount(a, w))
  {
  }

  /** LWL/LDL from step i on: the bytes from position i to the end of the memory word are replaced. */
  lemma {:induction false} LoadLeftBytes(t: TlbView, mem: Mem, a: U64, v: nat, w: nat, i: nat)
    requires IsWidth(w) && i <= LeftCount(a, w) && v < Pow256(w) && Readable(t, a, w)
    ensures var r := LoadLeft(t, mem, a, v, w, i);
            && r.Some? && r.value < Pow256(w)
            && forall k :: 0 <= k < w ==>
                 Bytes(r.value, w)[k] == if i <= k < LeftCount(a, w) then Peek(mem, Phys(t, a, k)) else Bytes(v, w)[k]
    decreases LeftCount(a, w) - i
  {
    hide LoadLeft, Bytes, PutByte, Pow256, Peek, Phys, LeftCount, Readable;
    if i < LeftCount(a, w) {
      var b := Peek(mem, Phys(t, a, i));
      LeftLoadStep(t, mem, a, v, w, i);
      PutByteBytes(v, w, w - 1 - i, b);
      LoadLeftBytes(t, mem, a, PutByte(v, w, w - 1 - i, b), w, i + 1);
    } else {
      LoadsEnd(t, mem, a, v, w);
    }
  }

  lemma {:induction false} LoadRightBytes(t: TlbView, mem: Mem, a: U64, v: nat, w: nat, i: nat)
    requires IsWidth(w) && i <= RightCount(LastByte(a, w), w) && v < Pow256(w) && Readable(t, a, w)
    ensures var r := LoadRight(t, mem, LastByte(a, w), v, w, i);
            && r.Some? && r.value < Pow256(w)
            && forall k :: 0 <= k < w ==>
                 Bytes(r.value, w)[k]
                 == if i <= w - 1 - k < RightCount(LastByte(a, w), w) then Peek(mem, Phys(t, a, k)) else Bytes(v, w)[k]
    decreases RightCount(LastByte(a, w), w) - i
  {
    hide LoadRight, Bytes, PutByte, Pow256, Peek, Phys, RightCount, Readable, LastByte;
    if i < RightCount(LastByte(a, w), w) {
      var b := Peek(mem, Phys(t, a, w - 1 - i));
      RightLoadStep(t, mem, a, v, w, i);
      PutByteBytes(v, w, i, b);
      LoadRightBytes(t, mem, a, PutByte(v, w, i, b), w, i + 1);
    } else {
      LoadsEnd(t, mem, LastByte(a, w), v, w);
    }
  }

  /** A left load at a and a right load at its last byte give the value of the bytes a .. a+w-1. */
  lemma LoadPair(t: TlbView, mem: Mem, a: U64, v: nat, w: nat)
    requires IsWidth(w) && v < Pow256(w) && Readable(t, a, w)
    ensures var left := LoadLeft(t, mem, a, v, w, 0);
            left.Some? && LoadRight(t, mem, LastByte(a, w), left.value, w, 0) == Some(Value(Seen(t, mem, a, w)))
  {
    hide LoadLeft, LoadRight, Bytes, Value, Seen, LastByte, Phys, Pow256, Readable;
    LastByteOffset(a, w);
    LoadLeftBytes(t, mem, a, v, w, 0);
    var left := LoadLeft(t, mem, a, v, w, 0).value;
    LoadRightBytes(t, mem, a, left, w, 0);
    var r := LoadRight(t, mem, LastByte(a, w), left, w, 0).value;
    assert Bytes(r, w) == Seen(t, mem, a, w) by {
      forall k | 0 <= k < w ensures Bytes(r, w)[k] == Seen(t, mem, a, w)[k] {
        SeenAt(t, mem, a, w, k);
      }
    }
    ValueOfBytes(r, w);
  }

  // ---------------------------------------------------------------- the storing loops

  /** Byte addresses of one word keep their low twelve bits, so they are different physical bytes. */
  lemma BytesAreDistinct(t: TlbView, a: U64, j: int, k: int)
    requires t.Normal? && ValidView(t) && 0 <= j < k < 8
    requires Translate(t, ByteAt(a, j)).found && Translate(t, ByteAt(a, k)).found
    ensures Phys(t, a, j) != Phys(t, a, k)
  {
    hide Translate;
    TranslationIsPageGranular(t, ByteAt(a, j), ByteAt(a, j));
    TranslationIsPageGranular(t, ByteAt(a, k), ByteAt(a, k));
    OffsetsDiffer(a, j, k);
  }

  lemma OffsetsDiffer(a: U64, j: int, k: int)
    requires 0 <= j < k < 8
    ensures ByteAt(a, j) % 0x1000 != ByteAt(a, k) % 0x1000
  {
    OffsetOf(a, j);
    OffsetOf(a, k);
    hide ByteAt;
    var o := a % 0x1000;
    assert (a + j) % 0x1000 == (o + j) % 0x1000 &&
        (a + k) % 0x1000 == (o + k) % 0x1000 by { OffsetSum(a, j); OffsetSum(a, k); }
  }

  lemma OffsetSum(a: U64, k: int)
    ensures (a + k) % 0x1000 == (a % 0x1000 + k) % 0x1000
  {
  }

  lemma OffsetOf(a: U64, k: int)
    ensures ByteAt(a, k) % 0x1000 == (a + k) % 0x1000
  {
  }

  /** m holds the bytes of v at positions lo .. hi-1 of the word at a, and otherwise what mem holds. */
  ghost predicate Stored(t: TlbView, mem: Mem, m: Mem, a: U64, v: nat, w: nat, lo: int, hi: int) {
    && (forall k :: lo <= k < hi && 0 <= k < w ==> Peek(m, Phys(t, a, k)) == Bytes(v, w)[k])
    && (forall p: nat :: (forall k :: lo <= k < hi ==> p != Phys(t, a, k)) ==> Peek(m, p) == Peek(mem, p))
  }

  lemma PutOne(t: TlbView, mem: Mem, a: U64, v: nat, w: nat, k: nat)
    requires k < w
    ensures Stored(t, mem, mem[Phys(t, a, k) := Bytes(v, w)[k]], a, v, w, k, k + 1)
  {
    hide Translate, Bytes;
  }

  /** Storing position j and then others: the first byte survives, being a different address. */
  lemma StoredJoin(t: TlbView, mem: Mem, m: Mem, m': Mem, a: U64, v: nat, w: nat, lo: int, mid: int, hi: int)
    requires t.Normal? && ValidView(t) && IsWidth(w) && Readable(t, a, w) && 0 <= lo <= mid <= hi <= w
    requires (Stored(t, mem, m, a, v, w, lo, mid) && Stored(t, m, m', a, v, w, mid, hi))
             || (Stored(t, mem, m, a, v, w, mid, hi) && Stored(t, m, m', a, v, w, lo, mid))
    ensures Stored(t, mem, m', a, v, w, lo, hi)
  {
    hide Phys, Peek, Bytes, Translate, ByteAt;
    forall k | lo <= k < hi ensures Peek(m', Phys(t, a, k)) == Bytes(v, w)[k] {
      forall j | lo <= j < hi && j != k ensures Phys(t, a, k) != Phys(t, a, j) {
        BytesAreDistinct(t, a, if j < k then j else k, if j < k then k else j);
      }
    }
  }

  lemma {:induction false} StoreLeftBytes(t: TlbView, mem: Mem, a: U64, v: nat, w: nat, i: nat)
    requires t.Normal? && ValidView(t) && IsWidth(w) && i <= LeftCount(a, w) && Writable(t, a, w)
    ensures var r := StoreLeft(t, mem, a, v, w, i); r.Some? && Stored(t, mem, r.value, a, v, w, i, LeftCount(a, w))
    decreases LeftCount(a, w) - i
  {
    hide Stored, Bytes, Peek, ValidView, LeftCount, Pow256;
    if i < LeftCount(a, w) {
      var m := mem[Phys(t, a, i) := Bytes(v, w)[i]];
      PutOne(t, mem, a, v, w, i);
      StoreLeftBytes(t, m, a, v, w, i + 1);
      StoredJoin(t, mem, m, StoreLeft(t, m, a, v, w, i + 1).value, a, v, w, i, i + 1, LeftCount(a, w));
    } else {
      StoredNothing(t, mem, a, v, w, i);
    }
  }

  lemma StoredNothing(t: TlbView, mem: Mem, a: U64, v: nat, w: nat, i: int)
    ensures Stored(t, mem, mem, a, v, w, i, i)
  {
    hide Phys, Bytes;
  }

  lemma {:induction false} StoreRightBytes(t: TlbView, mem: Mem, a: U64, v: nat, w: nat, i: nat)
    requires t.Normal? && ValidView(t) && IsWidth(w) && i <= RightCount(LastByte(a, w), w) && Writable(t, a, w)
    ensures var r := StoreRight(t, mem, LastByte(a, w), v, w, i);
            r.Some? && Stored(t, mem, r.value, a, v, w, w - RightCount(LastByte(a, w), w), w - i)
    decreases RightCount(LastByte(a, w), w) - i
  {
    hide Stored, Bytes, Peek, ValidView, LastByte, Pow256, Translate, RightCount;
    var last := LastByte(a, w);
    if i < RightCount(last, w) {
      BackFromLast(a, w, i);
      var k := w - 1 - i;
      var m := mem[Phys(t, a, k) := Bytes(v, w)[k]];
      PutOne(t, mem, a, v, w, k);
      StoreRightBytes(t, m, a, v, w, i + 1);
      StoredJoin(t, mem, m, StoreRight(t, m, last, v, w, i + 1).value, a, v, w, w - RightCount(last, w), k, w - i);
    } else {
      StoredNothing(t, mem, a, v, w, w - i);
    }
  }

  /** A left store at a and a right store at its last byte change exactly the bytes a .. a+w-1. */
  lemma StorePair(t: TlbView, mem: Mem, a: U64, v: nat, w: nat)
    requires t.Normal? && ValidView(t) && IsWidth(w) && Writable(t, a, w)
    ensures var left := StoreLeft(t, mem, a, v, w, 0);
            && left.Some? && StoreRight(t, left.value, LastByte(a, w), v, w, 0).Some?
            && Stored(t, mem, StoreRight(t, left.value, LastByte(a, w), v, w, 0).value, a, v, w, 0, w)
  {
    hide StoreLeft, StoreRight, Stored, LastByte, ValidView;
    LastByteOffset(a, w);
    StoreLeftBytes(t, mem, a, v, w, 0);
    var m := StoreLeft(t, mem, a, v, w, 0).value;
    StoreRightBytes(t, m, a, v, w, 0);
    var m' := StoreRight(t, m, LastByte(a, w), v, w, 0).value;
    if a % w == 0 {
      StoredTwice(t, mem, m, m', a, v, w);
    } else {
      StoredJoin(t, mem, m, m', a, v, w, 0, LeftCount(a, w), w);
    }
  }

  /** When aligned, both halves store the whole word. */
  lemma StoredTwice(t: TlbView, mem: Mem, m: Mem, m': Mem, a: U64, v: nat, w: nat)
    requires Stored(t, mem, m, a, v, w, 0, w) && Stored(t, m, m', a, v, w, 0, w)
    ensures Stored(t, mem, m', a, v, w, 0, w)
  {
    hide Phys, Bytes, Peek;
  }

  /** What a pair of stores wrote is what a program then sees. */
  lemma StoredIsSeen(t: TlbView, mem: Mem, m: Mem, a: U64, v: nat, w: nat)
    requires v < Pow256(w) && Stored(t, mem, m, a, v, w, 0, w)
    ensures Value(Seen(t, m, a, w)) == v
  {
    hide Phys, Peek, Bytes, Value, Seen, Pow256;
    assert Seen(t, m, a, w) == Bytes(v, w) by {
      forall k | 0 <= k < w ensures Seen(t, m, a, w)[k] == Bytes(v, w)[k] {
        SeenAt(t, m, a, w, k);
      }
    }
    ValueOfBytes(v, w);
  }

  // ---------------------------------------------------------------- the instructions

  /** raw2 is the other half of raw1: same registers, offset of the last byte. */
  predicate IsPair(raw1: U32, raw2: U32, w: nat) {
    Rs(raw1) == Rs(raw2) && Rt(raw1) == Rt(raw2) && ImmSigned(raw2) == ImmSigned(raw1) + w - 1
  }

  /** LWL and LWR, or LDL and LDR, by their opcodes. */
  predicate IsLoadPair(raw1: U32, raw2: U32, w: nat) {
    && IsPair(raw1, raw2, w)
    && ((w == 4 && Op(raw1) == 34 && Op(raw2) == 38) || (w == 8 && Op(raw1) == 26 && Op(raw2) == 27))
  }

  /** SWL and SWR, or SDL and SDR. */
  predicate IsStorePair(raw1: U32, raw2: U32, w: nat) {
    && IsPair(raw1, raw2, w)
    && ((w == 4 && Op(raw1) == 42 && Op(raw2) == 46) || (w == 8 && Op(raw1) == 44 && Op(raw2) == 45))
  }

  /** A loaded value as it is written to a register. */
  function Extended(v: nat, w: nat): U64
    requires IsWidth(w) && v < Pow256(w)
  {
    if w == 4 then Sext32(v) else v
  }

  function LowPart(v: U64, w: nat): U64 { if w == 4 then Low32(v) else v }

  lemma LowOfExtended(v: nat, w: nat)
    requires IsWidth(w) && v < Pow256(w)
    ensures LowPart(Extended(v, w), w) == v
  {
  }

  lemma LowPartFits(v: U64, w: nat)
    requires IsWidth(w)
    ensures LowPart(v, w) < Pow256(w)
  {
  }

  lemma PairAddresses(raw1: U32, raw2: U32, w: nat, gpr: Regs, gpr': Regs)
    requires IsPair(raw1, raw2, w) && IsWidth(w) && gpr'[Rs(raw1)] == gpr[Rs(raw1)]
    ensures Address(raw2, gpr') == LastByte(Address(raw1, gpr), w)
  {
    hide Rs, Rt, ImmSigned;
    WrapTwice(gpr[Rs(raw1)] + ImmSigned(raw1), w - 1);
  }

  lemma UnalignedIs(t: TlbView, strict: bool, raw: U32, d: Data)
    requires IsUnalignedLoad(Decode(raw)) || IsUnalignedStore(Decode(raw))
    ensures Compute(t, strict, raw, d) == Unaligned(t, Decode(raw), raw, d)
  {
    hide Decode, Unaligned;
  }

  lemma LeftLoadIs(t: TlbView, strict: bool, raw: U32, d: Data, w: nat, v: nat)
    requires (w == 4 && Decode(raw).KLwl?) || (w == 8 && Decode(raw).KLdl?)
    requires Rt(raw) != 0 && v < Pow256(w)
    requires LoadLeft(t, d.mem, Address(raw, d.gpr), LowPart(d.gpr[Rt(raw)], w), w, 0) == Some(v)
    ensures Compute(t, strict, raw, d) == Done(d.(gpr := d.gpr[Rt(raw) := Extended(v, w)]))
  {
    hide Compute, LoadLeft, LoadRight, Address, Rt, Decode, Low32, Sext32, Pow256;
    UnalignedIs(t, strict, raw, d);
  }

  lemma RightLoadIs(t: TlbView, strict: bool, raw: U32, d: Data, w: nat, v: nat)
    requires (w == 4 && Decode(raw).KLwr?) || (w == 8 && Decode(raw).KLdr?)
    requires Rt(raw) != 0 && v < Pow256(w)
    requires LoadRight(t, d.mem, Address(raw, d.gpr), LowPart(d.gpr[Rt(raw)], w), w, 0) == Some(v)
    ensures Compute(t, strict, raw, d) == Done(d.(gpr := d.gpr[Rt(raw) := Extended(v, w)]))
  {
    hide Compute, LoadLeft, LoadRight, Address, Rt, Decode, Low32, Sext32, Pow256;
    UnalignedIs(t, strict, raw, d);
  }

  /**
   * LWL rt,o(b); LWR rt,o+3(b) -- and LDL/LDR with o+7 -- load the (sign-extended) value of the bytes at
   * o(b), whatever the alignment and whatever rt held.
   */
  lemma LoadPairInstructions(t: TlbView, strict: bool, raw1: U32, raw2: U32, d: Data, w: nat)
    requires IsWidth(w) && IsLoadPair(raw1, raw2, w) && Rt(raw1) != 0 && Rt(raw1) != Rs(raw1)
    requires Readable(t, Address(raw1, d.gpr), w)
    ensures var value := Value(Seen(t, d.mem, Address(raw1, d.gpr), w));
            && Compute(t, strict, raw1, d).Done? && value < Pow256(w)
            && Compute(t, strict, raw2, Compute(t, strict, raw1, d).data)
               == Done(d.(gpr := d.gpr[Rt(raw1) := Extended(value, w)]))
  {
    hide *;
    WidthIs(w);
    var a, v := Address(raw1, d.gpr), LowPart(d.gpr[Rt(raw1)], w);
    LowPartFits(d.gpr[Rt(raw1)], w);
    LoadPair(t, d.mem, a, v, w);
    LoadLeftBytes(t, d.mem, a, v, w, 0);
    var left := LoadLeft(t, d.mem, a, v, w, 0).value;
    var value := Value(Seen(t, d.mem, a, w));
    var d1 := d.(gpr := d.gpr[Rt(raw1) := Extended(left, w)]);
    PairParts(raw1, raw2, w);
    LeftLoadIs(t, strict, raw1, d, w, left);
    LowOfExtended(left, w);
    PairAddresses(raw1, raw2, w, d.gpr, d1.gpr);
    RightLoadIs(t, strict, raw2, d1, w, value);
    assert d1.gpr[Rt(raw1) := Extended(value, w)] == d.gpr[Rt(raw1) := Extended(value, w)];
  }

  lemma PairParts(raw1: U32, raw2: U32, w: nat)
    requires IsLoadPair(raw1, raw2, w) || IsStorePair(raw1, raw2, w)
    ensures IsPair(raw1, raw2, w) && Rt(raw1) == Rt(raw2)
    ensures IsLoadPair(raw1, raw2, w) ==>
              && ((w == 4 && Decode(raw1).KLwl?) || (w == 8 && Decode(raw1).KLdl?))
              && ((w == 4 && Decode(raw2).KLwr?) || (w == 8 && Decode(raw2).KLdr?))
    ensures IsStorePair(raw1, raw2, w) ==>
              && ((w == 4 && Decode(raw1).KSwl?) || (w == 8 && Decode(raw1).KSdl?))
              && ((w == 4 && Decode(raw2).KSwr?) || (w == 8 && Decode(raw2).KSdr?))
  {
    hide Decode, Op, Rs, Rt, ImmSigned;
    Encoding.UnalignedIs(raw1);
    Encoding.UnalignedIs(raw2);
  }

  lemma LeftStoreIs(t: TlbView, strict: bool, raw: U32, d: Data, w: nat, m: Mem)
    requires (w == 4 && Decode(raw).KSwl?) || (w == 8 && Decode(raw).KSdl?)
    requires StoreLeft(t, d.mem, Address(raw, d.gpr), LowPart(d.gpr[Rt(raw)], w), w, 0) == Some(m)
    ensures Compute(t, strict, raw, d) == Done(d.(mem := m))
  {
    hide Compute, StoreLeft, StoreRight, Address, Rt, Decode, Low32;
    UnalignedIs(t, strict, raw, d);
  }

  lemma RightStoreIs(t: TlbView, strict: bool, raw: U32, d: Data, w: nat, m: Mem)
    requires (w == 4 && Decode(raw).KSwr?) || (w == 8 && Decode(raw).KSdr?)
    requires StoreRight(t, d.mem, Address(raw, d.gpr), LowPart(d.gpr[Rt(raw)], w), w, 0) == Some(m)
    ensures Compute(t, strict, raw, d) == Done(d.(mem := m))
  {
    hide Compute, StoreLeft, StoreRight, Address, Rt, Decode, Low32;
    UnalignedIs(t, strict, raw, d);
  }

  /** SWL rt,o(b); SWR rt,o+3(b) -- and SDL/SDR with o+7 -- store the low bytes of rt at o(b), and only there. */
  lemma StorePairInstructions(t: TlbView, strict: bool, raw1: U32, raw2: U32, d: Data, w: nat) returns (m: Mem)
    requires t.Normal? && ValidView(t) && IsWidth(w) && IsStorePair(raw1, raw2, w)
    requires Writable(t, Address(raw1, d.gpr), w)
    ensures Compute(t, strict, raw1, d).Done?
    ensures Compute(t, strict, raw2, Compute(t, strict, raw1, d).data) == Done(d.(mem := m))
    ensures Stored(t, d.mem, m, Address(raw1, d.gpr), LowPart(d.gpr[Rt(raw1)], w), w, 0, w)
  {
    hide *;
    WidthIs(w);
    var a, v := Address(raw1, d.gpr), LowPart(d.gpr[Rt(raw1)], w);
    StorePair(t, d.mem, a, v, w);
    var left := StoreLeft(t, d.mem, a, v, w, 0).value;
    m := StoreRight(t, left, LastByte(a, w), v, w, 0).value;
    PairParts(raw1, raw2, w);
    LeftStoreIs(t, strict, raw1, d, w, left);
    PairAddresses(raw1, raw2, w, d.gpr, d.gpr);
    RightStoreIs(t, strict, raw2, d.(mem := left), w, m);
  }

  /** Instructions executed one after the other. */
  function Sequence(t: TlbView, strict: bool, raws: seq<U32>, d: Data): Outcome {
    if raws == [] then Done(d)
    else
      var o := Sequence(t, strict, raws[..|raws| - 1], d);
      if o.Done? then Compute(t, strict, raws[|raws| - 1], o.data) else o
  }

  lemma SequenceOf(t: TlbView, strict: bool, x: U32, y: U32, d: Data, d1: Data)
    requires Compute(t, strict, x, d) == Done(d1)
    ensures Sequence(t, strict, [x, y], d) == Compute(t, strict, y, d1)
  {
    hide Compute;
    assert [x, y][..1] == [x] && [x][..0] == [];
    assert Sequence(t, strict, [], d) == Done(d) && Sequence(t, strict, [x], d) == Done(d1);
  }

  lemma {:induction false} SequenceJoin(t: TlbView, strict: bool, xs: seq<U32>, ys: seq<U32>, d: Data, d1: Data)
    requires Sequence(t, strict, xs, d) == Done(d1)
    ensures Sequence(t, strict, xs + ys, d) == Sequence(t, strict, ys, d1)
    decreases |ys|
  {
    hide Compute;
    if ys == [] {
      assert xs + ys == xs;
    } else {
      assert (xs + ys)[..|xs + ys| - 1] == xs + ys[..|ys| - 1];
      SequenceJoin(t, strict, xs, ys[..|ys| - 1], d, d1);
    }
  }

  /** A load pair at the same place undoes a store pair: the stored part of the register comes back. */
  lemma StoreThenLoad(t: TlbView, strict: bool, s1: U32, s2: U32, l1: U32, l2: U32, d: Data, w: nat) returns (m: Mem)
    requires t.Normal? && ValidView(t) && IsWidth(w) && IsStorePair(s1, s2, w) && IsLoadPair(l1, l2, w)
    requires Address(s1, d.gpr) == Address(l1, d.gpr) && Writable(t, Address(s1, d.gpr), w)
    requires Rt(l1) != 0 && Rt(l1) != Rs(l1)
    ensures var v := LowPart(d.gpr[Rt(s1)], w);
            && v < Pow256(w)
            && Sequence(t, strict, [s1, s2] + [l1, l2], d)
               == Done(d.(mem := m, gpr := d.gpr[Rt(l1) := Extended(v, w)]))
  {
    hide *;
    var a, v := Address(s1, d.gpr), LowPart(d.gpr[Rt(s1)], w);
    LowPartFits(d.gpr[Rt(s1)], w);
    m := StorePairInstructions(t, strict, s1, s2, d, w);
    var d2 := d.(mem := m);
    SequenceOf(t, strict, s1, s2, d, Compute(t, strict, s1, d).data);
    StoredIsSeen(t, d.mem, m, a, v, w);
    WritableIsReadable(t, a, w);
    LoadPairInstructions(t, strict, l1, l2, d2, w);
    SequenceOf(t, strict, l1, l2, d2, Compute(t, strict, l1, d2).data);
    SequenceJoin(t, strict, [s1, s2], [l1, l2], d, d2);
  }

  lemma WritableIsReadable(t: TlbView, a: U64, w: nat)
    requires Writable(t, a, w)
    ensures Readable(t, a, w)
  {
    hide Translate, ByteAt;
  }

  /** Inside one page the pair loads what a single misaligned load of the bus would. */
  lemma PairIsBusLoad(t: TlbView, mem: Mem, a: U64, w: nat)
    requires t.Normal? && ValidView(t) && IsWidth(w) && a % 0x1000 + w <= 0x1000 && Translate(t, a).found
    ensures Readable(t, a, w) && LoadN(t, mem, a, w) == Some(Value(Seen(t, mem, a, w)))
  {
    hide Translate, ValidView, Value, Seen, PeekBytes, Page;
    forall k | 0 <= k < w
      ensures Translate(t, ByteAt(a, k)).found && Phys(t, a, k) == Translate(t, a).address + k
    {
      InPage(a, k);
      TranslationIsPageGranular(t, a, ByteAt(a, k));
    }
    var b := PeekBytes(mem, Translate(t, a).address, w);
    assert Seen(t, mem, a, w) == b by {
      forall k | 0 <= k < w ensures Seen(t, mem, a, w)[k] == b[k] {
        SeenAt(t, mem, a, w, k);
        PeekAt(mem, Translate(t, a).address, w, k);
      }
    }
  }

  lemma {:induction false} PeekAt(mem: Mem, p: nat, n: nat, k: nat)
    requires k < n
    ensures PeekBytes(mem, p, n)[k] == Peek(mem, p + k)
    decreases n
  {
    if k > 0 { PeekAt(mem, p + 1, n - 1, k - 1); }
  }

  lemma InPage(a: U64, k: int)
    requires 0 <= k && a % 0x1000 + k < 0x1000
    ensures ByteAt(a, k) == a + k && Page(a) == Page(ByteAt(a, k)) && ByteAt(a, k) % 0x1000 == a % 0x1000 + k
  {
    var q, r := a / 0x1000, a % 0x1000;
    assert a + k == q * 0x1000 + (r + k);
    assert (a + k) / 0x1000 == q;
    PageOfLow(a);
    PageOfLow(ByteAt(a, k));
    hide Page;
  }
}
