/** Basic blocks: the scan of OnNewBlock (src/mips_base.cpp:1383-1428). */
module Blocks {
  import opened Words
  import opened Decoder
  import opened Machine

  datatype Entry = Entry(address: U32, opcode: U32)

  const MAX_LENGTH := 64

  /** The word Fetch gives at a 32-bit address. */
  function WordAt(env: Env, a: nat): Option<U32> {
    FetchWord(env, Wrap32(a))
  }

  /** An instruction with a delay slot at a 32-bit address. */
  predicate BranchAt(env: Env, a: nat) {
    WordAt(env, a).Some? && DoesInstHaveDelaySlot(WordAt(env, a).value)
  }

  /** No branch sits in the delay slot of another. */
  ghost predicate StraightSlots(env: Env) {
    forall a: nat :: BranchAt(env, a) ==> !BranchAt(env, a + 4)
  }

  /** Entries from `a` up to the first branch, at most `n`. None when a fetch misses the TLB. */
  function Body(env: Env, a: nat, n: nat): (r: Option<seq<Entry>>)
    requires n > 0
    ensures r.Some? ==> 1 <= |r.value| <= n
    decreases n
  {
    match WordAt(env, a)
    case None => None
    case Some(w) =>
      var e := [Entry(Wrap32(a), w)];
      if IsInstBranch(w) || n == 1 then Some(e)
      else
        match Body(env, a + 4, n - 1)
        case None => None
        case Some(rest) => Some(e + rest)
  }

  function Last(b: seq<Entry>): U32
    requires b != []
  {
    b[|b| - 1].opcode
  }

  /** The block that starts at `a`: its body and, after a branch, the delay slot. */
  function Scan(env: Env, a: nat): (r: Option<seq<Entry>>)
    ensures r.Some? ==> 1 <= |r.value| <= MAX_LENGTH
  {
    match Body(env, a, MAX_LENGTH - 1)
    case None => None
    case Some(body) =>
      if !DoesInstHaveDelaySlot(Last(body)) then Some(body)
      else
        match WordAt(env, a + 4 * |body|)
        case None => None
        case Some(slot) => Some(body + [Entry(Wrap32(a + 4 * |body|), slot)])
  }

  function Prepend(head: seq<Entry>, tail: Option<seq<Entry>>): Option<seq<Entry>> {
    if tail.None? then None else Some(head + tail.value)
  }

  /** What is left to scan after `head`, when n more entries are allowed from a. */
  lemma ScanOneMore(env: Env, head: seq<Entry>, a: nat, n: nat)
    requires n > 0
    ensures var w := WordAt(env, a);
            Prepend(head, Body(env, a, n))
            == if w.None? then None
               else
                 var longer := head + [Entry(Wrap32(a), w.value)];
                 if IsInstBranch(w.value) || n == 1 then Some(longer) else Prepend(longer, Body(env, a + 4, n - 1))
  {
    hide WordAt, IsInstBranch;
    var w := WordAt(env, a);
    if w.Some? && Body(env, a, n).Some? && !IsInstBranch(w.value) && n > 1 {
      var e := [Entry(Wrap32(a), w.value)];
      assert head + (e + Body(env, a + 4, n - 1).value) == head + e + Body(env, a + 4, n - 1).value;
    }
  }

  /** The entry loop of OnNewBlock, filling the block's array; a fetch that misses the TLB panics. */
  method ScanBody(env: Env, start: U32, entries: array<Entry>) returns (length: nat, panicked: bool)
    requires entries.Length == MAX_LENGTH
    modifies entries
    ensures match Body(env, start, MAX_LENGTH - 1)
            case None => panicked
            case Some(b) => !panicked && length == |b| && entries[..length] == b
  {
    hide WordAt, IsInstBranch, Body;
    length := 0;
    var done := false;
    assert Body(env, start, MAX_LENGTH - 1) == Prepend([], Body(env, start, MAX_LENGTH - 1)) by {
      var all := Body(env, start, MAX_LENGTH - 1);
      assert all.Some? ==> [] + all.value == all.value;
    }
    while length < MAX_LENGTH - 1 && !done
      invariant length < MAX_LENGTH && (length == MAX_LENGTH - 1 ==> done)
      invariant Body(env, start, MAX_LENGTH - 1)
                == if done then Some(entries[..length])
                   else Prepend(entries[..length], Body(env, start + 4 * length, MAX_LENGTH - 1 - length))
      decreases MAX_LENGTH - length, if done then 0 else 1
    {
      ScanOneMore(env, entries[..length], start + 4 * length, MAX_LENGTH - 1 - length);
      var word := WordAt(env, start + 4 * length);
      if word == None {
        return length, true;
      }
      ghost var was := entries[..length];
      entries[length] := Entry(Wrap32(start + 4 * length), word.value);
      assert entries[..length + 1] == was + [entries[length]];
      length := length + 1;
      done := IsInstBranch(word.value) || length == MAX_LENGTH - 1;
    }
    panicked := false;
  }

  /** The whole scan: the body and, after a branch, its delay slot. */
  method ScanBlock(env: Env, start: U32, entries: array<Entry>) returns (length: nat, panicked: bool)
    requires entries.Length == MAX_LENGTH
    modifies entries
    ensures match Scan(env, start)
            case None => panicked
            case Some(b) => !panicked && length == |b| && entries[..length] == b
  {
    hide WordAt, Body, DoesInstHaveDelaySlot;
    length, panicked := ScanBody(env, start, entries);
    if !panicked && DoesInstHaveDelaySlot(entries[length - 1].opcode) {
      var slot := WordAt(env, start + 4 * length);
      if slot == None {
        return length, true;
      }
      ghost var body := entries[..length];
      entries[length] := Entry(Wrap32(start + 4 * length), slot.value);
      assert entries[..length + 1] == body + [entries[length]];
      length := length + 1;
    }
  }

  // ---------------------------------------------------------------- shape

  /** Contiguous entries that hold what Fetch gives at their addresses. */
  ghost predicate MatchesCode(env: Env, a: nat, b: seq<Entry>) {
    forall i :: 0 <= i < |b| ==> b[i].address == Wrap32(a + 4 * i) && WordAt(env, a + 4 * i) == Some(b[i].opcode)
  }

  /** No branch before position `k`. */
  ghost predicate StraightLine(b: seq<Entry>, k: int) {
    forall i :: 0 <= i < k && i < |b| ==> !IsInstBranch(b[i].opcode)
  }

  /** A trap ends a block without a slot. */
  predicate IsTrap(w: U32) {
    IsInstBranch(w) && !DoesInstHaveDelaySlot(w)
  }

  /** How a block ends: at the length cap, with a branch and its slot, or with a trap. */
  ghost predicate WellEnded(b: seq<Entry>) {
    || (|b| == 63 && StraightLine(b, |b|))
    || (2 <= |b| <= 64 && StraightLine(b, |b| - 2) && DoesInstHaveDelaySlot(b[|b| - 2].opcode))
    || (1 <= |b| < 64 && StraightLine(b, |b| - 1) && IsTrap(Last(b)))
  }

  lemma {:induction false} BodyShape(env: Env, a: nat, n: nat)
    requires n > 0 && Body(env, a, n).Some?
    ensures var b := Body(env, a, n).value;
            MatchesCode(env, a, b) && StraightLine(b, |b| - 1) && (IsInstBranch(Last(b)) || |b| == n)
    decreases n
  {
    hide WordAt, IsInstBranch;
    var b := Body(env, a, n).value;
    if |b| > 1 {
      var rest := Body(env, a + 4, n - 1).value;
      BodyShape(env, a + 4, n - 1);
      forall i | 0 <= i < |b|
        ensures b[i].address == Wrap32(a + 4 * i) && WordAt(env, a + 4 * i) == Some(b[i].opcode)
        ensures i < |b| - 1 ==> !IsInstBranch(b[i].opcode)
      {
        if i > 0 {
          assert b[i] == rest[i - 1];
          assert a + 4 * i == (a + 4) + 4 * (i - 1);
        }
      }
      assert Last(b) == Last(rest);
    }
  }

  lemma SlotIsBranch(w: U32)
    ensures DoesInstHaveDelaySlot(w) ==> IsInstBranch(w)
  {
  }

  /** Every block: 1 to 64 entries, contiguous, equal to the code, and ended as it should be. */
  lemma ScanShape(env: Env, a: nat)
    requires Scan(env, a).Some?
    ensures var b := Scan(env, a).value;
            1 <= |b| <= 64 && MatchesCode(env, a, b) && WellEnded(b)
  {
    hide WordAt, IsInstBranch, DoesInstHaveDelaySlot, Body;
    BodyShape(env, a, MAX_LENGTH - 1);
    var body := Body(env, a, MAX_LENGTH - 1).value;
    var b := Scan(env, a).value;
    SlotIsBranch(Last(body));
    if |b| > |body| {
      assert b[..|body|] == body;
      assert b[|b| - 2] == body[|body| - 1];
      assert forall i :: 0 <= i < |body| ==> b[i] == body[i];
    }
  }

  lemma {:induction false} BodyIs(env: Env, a: nat, n: nat, b: seq<Entry>)
    requires 1 <= |b| <= n && MatchesCode(env, a, b) && StraightLine(b, |b| - 1) && (IsInstBranch(Last(b)) || |b| == n)
    ensures Body(env, a, n) == Some(b)
    decreases n
  {
    hide WordAt, IsInstBranch;
    assert a + 4 * 0 == a && b[0].address == Wrap32(a + 4 * 0) && WordAt(env, a + 4 * 0) == Some(b[0].opcode);
    if |b| > 1 {
      var rest := b[1..];
      forall i | 0 <= i < |rest|
        ensures rest[i].address == Wrap32(a + 4 + 4 * i) && WordAt(env, a + 4 + 4 * i) == Some(rest[i].opcode)
      {
        assert rest[i] == b[i + 1] && a + 4 + 4 * i == a + 4 * (i + 1);
      }
      assert Last(rest) == Last(b);
      BodyIs(env, a + 4, n - 1, rest);
      assert b == [b[0]] + rest;
    } else {
      assert b == [b[0]];
    }
  }

  /** The scan's answer is the one well-ended sequence of entries that the code holds from a on. */
  lemma ScanIs(env: Env, a: nat, b: seq<Entry>)
    requires MatchesCode(env, a, b) && WellEnded(b)
    ensures Scan(env, a) == Some(b)
  {
    hide WordAt, IsInstBranch, DoesInstHaveDelaySlot, Body;
    if |b| >= 2 && DoesInstHaveDelaySlot(b[|b| - 2].opcode) {
      SlotIsBranch(b[|b| - 2].opcode);
      var body := b[..|b| - 1];
      BodyIs(env, a, MAX_LENGTH - 1, body);
      assert b[|b| - 1].address == Wrap32(a + 4 * (|b| - 1)) && b == body + [b[|b| - 1]];
    } else {
      SlotIsBranch(Last(b));
      BodyIs(env, a, MAX_LENGTH - 1, b);
    }
  }

  // ---------------------------------------------------------------- suffixes

  /** The block ended with a branch and its delay slot. */
  predicate HasSlot(b: seq<Entry>) {
    |b| >= 2 && DoesInstHaveDelaySlot(b[|b| - 2].opcode)
  }

  /** Entries up to and including the terminating branch. */
  function BodyCount(b: seq<Entry>): nat {
    if HasSlot(b) then |b| - 1 else |b|
  }

  /** The length cap ended the block, not a branch. */
  predicate Capped(b: seq<Entry>)
    requires b != []
  {
    !HasSlot(b) && !IsInstBranch(Last(b))
  }

  /** A block scanned from entry j of b ends where b ends. */
  predicate SharesEnd(b: seq<Entry>, j: nat)
    requires j < |b|
  {
    j == 0 || (!Capped(b) && (j < BodyCount(b) || IsTrap(b[j].opcode)))
  }

  lemma SuffixMatches(env: Env, a: nat, b: seq<Entry>, j: nat)
    requires MatchesCode(env, a, b) && j <= |b|
    ensures MatchesCode(env, a + 4 * j, b[j..])
  {
    hide WordAt;
    forall i | 0 <= i < |b[j..]|
      ensures b[j..][i].address == Wrap32(a + 4 * j + 4 * i) && WordAt(env, a + 4 * j + 4 * i) == Some(b[j..][i].opcode)
    {
      assert a + 4 * j + 4 * i == a + 4 * (j + i);
    }
  }

  lemma SuffixWellEnded(b: seq<Entry>, j: nat)
    requires WellEnded(b) && j < |b| && SharesEnd(b, j)
    ensures WellEnded(b[j..])
  {
    hide IsInstBranch, DoesInstHaveDelaySlot;
    SlotIsBranch(b[j].opcode);
    assert b[0..] == b;
    assert Last(b[j..]) == Last(b);
    if |b| >= 2 { SlotIsBranch(b[|b| - 2].opcode); }
  }

  /** Starting anywhere up to the terminating branch of an uncapped block, or at a trap in its slot, gives its rest. */
  lemma SuffixIsBlock(env: Env, a: nat, j: nat)
    requires Scan(env, a).Some? && j < |Scan(env, a).value| && SharesEnd(Scan(env, a).value, j)
    ensures Scan(env, a + 4 * j) == Some(Scan(env, a).value[j..])
  {
    hide Scan, WellEnded, MatchesCode, SharesEnd;
    var b := Scan(env, a).value;
    ScanShape(env, a);
    SuffixMatches(env, a, b, j);
    SuffixWellEnded(b, j);
    ScanIs(env, a + 4 * j, b[j..]);
  }

  ghost predicate SameOpcodes(x: seq<Entry>, y: seq<Entry>) {
    |x| == |y| && forall i :: 0 <= i < |x| ==> x[i].opcode == y[i].opcode
  }

  /** c starts at entry j of b and holds the same words where they overlap. */
  ghost predicate Overlays(b: seq<Entry>, c: seq<Entry>, j: nat) {
    forall i :: 0 <= i < |c| && j + i < |b| ==> c[i].opcode == b[j + i].opcode
  }

  lemma EndsMeet(b: seq<Entry>, c: seq<Entry>, j: nat)
    requires WellEnded(b) && WellEnded(c) && j < |b| && Overlays(b, c, j)
    ensures j + |c| == |b| ==> SharesEnd(b, j)
  {
    hide DoesInstHaveDelaySlot, IsInstBranch;
    SlotIsBranch(b[j].opcode);
    if j + |c| == |b| {
      assert c[|c| - 1].opcode == b[|b| - 1].opcode && c[0].opcode == b[j].opcode;
      if |c| >= 2 {
        SlotIsBranch(c[|c| - 2].opcode);
        assert c[|c| - 2].opcode == b[|b| - 2].opcode;
      }
    }
  }

  /** A well-ended sequence has no longer well-ended continuation. */
  lemma NothingLonger(b: seq<Entry>, c: seq<Entry>)
    requires WellEnded(b) && WellEnded(c) && |b| <= |c|
    requires forall i :: 0 <= i < |b| ==> c[i].opcode == b[i].opcode
    ensures |b| == |c|
  {
    hide DoesInstHaveDelaySlot, IsInstBranch;
    assert c[|b| - 1].opcode == b[|b| - 1].opcode;
    SlotIsBranch(c[|b| - 1].opcode);
    if |b| >= 2 {
      SlotIsBranch(b[|b| - 2].opcode);
      assert c[|b| - 2].opcode == b[|b| - 2].opcode;
    }
  }

  /** Well-ended sequences with the same words have the same length. */
  lemma SameWordsSameLength(b: seq<Entry>, c: seq<Entry>)
    requires WellEnded(b) && WellEnded(c) && Overlays(b, c, 0)
    ensures |b| == |c| && SameOpcodes(b, c)
  {
    hide WellEnded;
    if |b| <= |c| { NothingLonger(b, c); } else { NothingLonger(c, b); }
  }

  /**
   * Two scans that overlap end together exactly when the later one starts no later than the terminating
   * branch of an uncapped block, or at a trap in its delay slot.
   */
  lemma OverlappingScansShareEnd(b: seq<Entry>, c: seq<Entry>, j: nat)
    requires WellEnded(b) && WellEnded(c) && j < |b| && Overlays(b, c, j)
    ensures j + |c| == |b| <==> SharesEnd(b, j)
  {
    hide WellEnded, SharesEnd;
    EndsMeet(b, c, j);
    if SharesEnd(b, j) {
      SuffixWellEnded(b, j);
      SameWordsSameLength(b[j..], c);
    }
  }

  /** A scan from inside a block reaches its end. */
  lemma NothingShorter(b: seq<Entry>, c: seq<Entry>, j: nat)
    requires WellEnded(b) && WellEnded(c) && j < |b| && Overlays(b, c, j)
    ensures j + |c| >= |b|
  {
    hide DoesInstHaveDelaySlot, IsInstBranch;
    if j + |c| < |b| {
      var i := j + |c| - 1;
      assert c[|c| - 1].opcode == b[i].opcode;
      SlotIsBranch(b[i].opcode);
      if |c| >= 2 {
        assert c[|c| - 2].opcode == b[i - 1].opcode;
        SlotIsBranch(b[i - 1].opcode);
      }
    }
  }

  lemma ScansOverlay(env: Env, a: nat, b: seq<Entry>, c: seq<Entry>, j: nat)
    requires MatchesCode(env, a, b) && MatchesCode(env, a + 4 * j, c)
    ensures Overlays(b, c, j)
  {
    hide WordAt;
    forall i | 0 <= i < |c| && j + i < |b| ensures c[i].opcode == b[j + i].opcode {
      assert a + 4 * j + 4 * i == a + 4 * (j + i);
    }
  }

  /** The same for scans at two virtual addresses. */
  lemma ScansShareEnd(env: Env, a: nat, j: nat)
    requires Scan(env, a).Some? && j < |Scan(env, a).value| && Scan(env, a + 4 * j).Some?
    ensures j + |Scan(env, a + 4 * j).value| == |Scan(env, a).value| <==> SharesEnd(Scan(env, a).value, j)
  {
    hide Scan, WellEnded, MatchesCode, SharesEnd, Overlays;
    ScanShape(env, a);
    ScanShape(env, a + 4 * j);
    ScansOverlay(env, a, Scan(env, a).value, Scan(env, a + 4 * j).value, j);
    OverlappingScansShareEnd(Scan(env, a).value, Scan(env, a + 4 * j).value, j);
  }

  /** The same words, read at another address or through another translation, give the same block. */
  lemma ScanFollowsWords(env: Env, a: nat, env': Env, a': nat)
    requires Scan(env, a).Some?
    requires forall i :: 0 <= i < |Scan(env, a).value| ==>
            WordAt(env', a' + 4 * i) == Some(Scan(env, a).value[i].opcode)
    ensures Scan(env', a').Some? && SameOpcodes(Scan(env, a).value, Scan(env', a').value)
  {
    hide Scan, WordAt, IsInstBranch, DoesInstHaveDelaySlot;
    ScanShape(env, a);
    var b := Scan(env, a).value;
    var c := seq(|b|, i requires 0 <= i < |b| => Entry(Wrap32(a' + 4 * i), b[i].opcode));
    assert SameOpcodes(b, c) && MatchesCode(env', a', c);
    assert WellEnded(c);
    ScanIs(env', a', c);
  }
}
