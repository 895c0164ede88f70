/** The bus as a total big-endian byte memory, reached through the TLB (src/mips_base.cpp:1106-1380). */
module Memory {
  import opened Words
  import opened Tlb

  /** Physical bytes; an absent key reads as zero. */
  type Mem = map<nat, U8>

  function Peek(mem: Mem, p: nat): U8 {
    if p in mem then mem[p] else 0
  }

  // ---------------------------------------------------------------- bytes of a register, big-endian

  function Bytes(v: nat, w: nat): (b: seq<U8>)
    ensures |b| == w
  {
    if w == 0 then [] else Bytes(v / 256, w - 1) + [v % 256]
  }

  function Value(b: seq<U8>): (v: nat)
    ensures v < Pow256(|b|)
  {
    if b == [] then 0 else Value(b[..|b| - 1]) * 256 + b[|b| - 1]
  }

  function Pow256(w: nat): (p: nat)
    ensures p > 0
    ensures w == 1 ==> p == 0x100
    ensures w == 2 ==> p == 0x10000
    ensures w == 3 ==> p == 0x1000000
    ensures w == 4 ==> p == 0x100000000
    ensures w == 5 ==> p == 0x10000000000
    ensures w == 6 ==> p == 0x1000000000000
    ensures w == 7 ==> p == 0x100000000000000
    ensures w == 8 ==> p == 0x10000000000000000
  {
    if w == 0 then 1 else 256 * Pow256(w - 1)
  }

  lemma BytesStep(v: nat, w: nat)
    requires w > 0
    ensures Bytes(v, w) == Bytes(v / 256, w - 1) + [v % 256] && Bytes(v, w)[..w - 1] == Bytes(v / 256, w - 1)
  {
  }

  lemma ValueStep(b: seq<U8>)
    requires b != []
    ensures Value(b) == Value(b[..|b| - 1]) * 256 + b[|b| - 1]
  {
  }

  lemma PowStep(w: nat)
    requires w > 0
    ensures Pow256(w) == 256 * Pow256(w - 1) && Pow256(0) == 1
  {
  }

  lemma NoBytes(v: nat)
    ensures Bytes(v, 0) == [] && Value([]) == 0 && Pow256(0) == 1
  {
  }

  lemma {:induction false} ValueOfBytes(v: nat, w: nat)
    requires v < Pow256(w)
    ensures Value(Bytes(v, w)) == v
  {
    hide Bytes, Value, Pow256;
    if w > 0 {
      PowStep(w);
      QuotientFits(v, Pow256(w - 1));
      ValueOfBytes(v / 256, w - 1);
      BytesStep(v, w);
      ValueStep(Bytes(v, w));
    } else {
      NoBytes(v);
    }
  }

  lemma QuotientFits(v: nat, m: nat)
    requires v < 256 * m
    ensures v / 256 < m && v == v / 256 * 256 + v % 256
  {
  }

  lemma {:induction false} BytesOfValue(b: seq<U8>)
    ensures Bytes(Value(b), |b|) == b
  {
    if b != [] {
      BytesOfValue(b[..|b| - 1]);
      assert b == b[..|b| - 1] + [b[|b| - 1]];
    }
  }

  /** v & ~(0xFF << 8k) | (b << 8k), in a register of w bytes. */
  function PutByte(v: nat, w: nat, k: nat, b: U8): (r: nat)
    requires k < w
    ensures r < Pow256(w)
  {
    Value(Bytes(v, w)[w - 1 - k := b])
  }

  /** (uint8_t)(v >> 8k) */
  function GetByte(v: nat, w: nat, k: nat): U8
    requires k < w
  {
    Bytes(v, w)[w - 1 - k]
  }

  // ---------------------------------------------------------------- single accesses

  function Load8(t: TlbView, mem: Mem, a: U64): Option<U8> {
    var r := Translate(t, a);
    if r.found then Some(Peek(mem, r.address)) else None
  }

  function PeekBytes(mem: Mem, p: nat, n: nat): (b: seq<U8>)
    ensures |b| == n
    decreases n
  {
    if n == 0 then [] else [Peek(mem, p)] + PeekBytes(mem, p + 1, n - 1)
  }

  /** A bus load of n bytes at one translated address. */
  function LoadN(t: TlbView, mem: Mem, a: U64, n: nat): (r: Option<nat>)
    ensures r.Some? ==> r.value < Pow256(n)
  {
    var r := Translate(t, a);
    if r.found then Some(Value(PeekBytes(mem, r.address, n))) else None
  }

  function PokeBytes(mem: Mem, p: nat, b: seq<U8>): Mem
    decreases |b|
  {
    if b == [] then mem else PokeBytes(mem[p := b[0]], p + 1, b[1..])
  }

  /** A bus store; a miss and a write to a read-only page both raise a TLB exception, which panics. */
  function StoreN(t: TlbView, mem: Mem, a: U64, v: nat, n: nat): Option<Mem> {
    var r := Translate(t, a);
    if r.found && !r.readOnly then Some(PokeBytes(mem, r.address, Bytes(v, n))) else None
  }

  function Store8(t: TlbView, mem: Mem, a: U64, b: U8): Option<Mem> {
    var r := Translate(t, a);
    if r.found && !r.readOnly then Some(mem[r.address := b]) else None
  }

  // ---------------------------------------------------------------- the unaligned loops

  /** Bytes from `a` to the end of its word, and from its start to `a`. */
  function LeftCount(a: U64, w: nat): (n: nat)
    requires 0 < w
    ensures 1 <= n <= w
  {
    w - a % w
  }

  function RightCount(a: U64, w: nat): (n: nat)
    requires 0 < w
    ensures 1 <= n <= w
  {
    a % w + 1
  }

  /** LWL/LDL: bytes upward from `a` to the end of its word go to the high end of the register. */
  function LoadLeft(t: TlbView, mem: Mem, a: U64, v: nat, w: nat, i: nat): (r: Option<nat>)
    requires 0 < w && i <= LeftCount(a, w)
    ensures r.Some? && i < LeftCount(a, w) ==> r.value < Pow256(w)
    decreases LeftCount(a, w) - i
  {
    if i == LeftCount(a, w) then Some(v)
    else
      match Load8(t, mem, Wrap64(a + i))
      case None => None
      case Some(b) => LoadLeft(t, mem, a, PutByte(v, w, w - 1 - i, b), w, i + 1)
  }

  /** LWR/LDR: bytes downward from `a` to the start of its word go to the low end of the register. */
  function LoadRight(t: TlbView, mem: Mem, a: U64, v: nat, w: nat, i: nat): (r: Option<nat>)
    requires 0 < w && i <= RightCount(a, w)
    ensures r.Some? && i < RightCount(a, w) ==> r.value < Pow256(w)
    decreases RightCount(a, w) - i
  {
    if i == RightCount(a, w) then Some(v)
    else
      match Load8(t, mem, Wrap64(a - i))
      case None => None
      case Some(b) => LoadRight(t, mem, a, PutByte(v, w, i, b), w, i + 1)
  }

  function StoreLeft(t: TlbView, mem: Mem, a: U64, v: nat, w: nat, i: nat): Option<Mem>
    requires 0 < w && i <= LeftCount(a, w)
    decreases LeftCount(a, w) - i
  {
    if i == LeftCount(a, w) then Some(mem)
    else
      match Store8(t, mem, Wrap64(a + i), GetByte(v, w, w - 1 - i))
      case None => None
      case Some(m) => StoreLeft(t, m, a, v, w, i + 1)
  }

  function StoreRight(t: TlbView, mem: Mem, a: U64, v: nat, w: nat, i: nat): Option<Mem>
    requires 0 < w && i <= RightCount(a, w)
    decreases RightCount(a, w) - i
  {
    if i == RightCount(a, w) then Some(mem)
    else
      match Store8(t, mem, Wrap64(a - i), GetByte(v, w, i))
      case None => None
      case Some(m) => StoreRight(t, m, a, v, w, i + 1)
  }
}
