/** Laws of the Count/Compare timer (src/mips_cop0.cpp:447-505). */
module Timer {
  import opened Words
  import opened Cop0

  /** Counting step by step from `start` meets `compare` within `delta` steps. */
  ghost predicate Meets(start: U32, compare: U32, delta: nat) {
    exists i :: 1 <= i <= delta && Reaches(start, compare, i)
  }

  /** Count equals Compare after `i` steps. */
  predicate Reaches(start: U32, compare: U32, i: int) {
    Wrap32(start + i) == compare
  }

  lemma MeetsStep(start: U32, compare: U32, i: nat)
    ensures Meets(start, compare, i + 1) <==> Meets(start, compare, i) || Reaches(start, compare, i + 1)
    ensures Wrap32(Wrap32(start + i) + 1) == Wrap32(start + i + 1)
  {
    Wrap32Parts(start + i);
    Wrap32Shift(Wrap32(start + i) + 1, (start + i) / 0x1_0000_0000);
    hide Wrap32, Reaches;
  }

  lemma MoreSteps(start: U32, compare: U32, i: nat, n: nat)
    requires i <= n && Meets(start, compare, i)
    ensures Meets(start, compare, n)
  {
    hide Reaches;
  }

  lemma NoSteps(start: U32, compare: U32)
    ensures !Meets(start, compare, 0) && Wrap32(start + 0) == start
  {
    hide Reaches;
  }

  /** The disabled slow path (src/mips_cop0.cpp:466-475), with an unbounded loop index. */
  method CountingLoop(start: U32, compare: U32, delta: nat) returns (result: bool)
    ensures result <==> Meets(start, compare, delta)
  {
    hide Meets, Wrap32;
    var count: int := start;
    var i := 0;
    NoSteps(start, compare);
    while i < delta
      invariant 0 <= i <= delta && count == Wrap32(start + i)
      invariant !Meets(start, compare, i)
    {
      MeetsStep(start, compare, i);
      count := Wrap32(count + 1);
      if count == compare {
        MoreSteps(start, compare, i + 1, delta);
        return true;
      }
      i := i + 1;
    }
    result := false;
  }

  /** The wrap-aware comparison gives the slow path's answer for every gap up to 2^32. */
  lemma FastMeetsSlow(start: U32, compare: U32, delta: nat)
    requires 1 <= delta <= 0x1_0000_0000
    ensures Crossed(start, Wrap32(start + delta), compare) <==> Meets(start, compare, delta)
  {
    var i: int := Wrap32(compare - start - 1) + 1;
    FirstReach(start, compare);
    DistanceOf(start, delta);
    Wrap32Is(delta - 1, 0, delta - 1);
    hide Wrap32, Reaches;
    if Meets(start, compare, delta) {
      var j :| 1 <= j <= delta && Reaches(start, compare, j);
      OnlyReach(start, compare, i, j);
    }
  }

  /** The first step that reaches Compare. */
  lemma FirstReach(start: U32, compare: U32)
    ensures Reaches(start, compare, Wrap32(compare - start - 1) + 1)
  {
    Wrap32Parts(compare - start - 1);
    Wrap32Is(start + Wrap32(compare - start - 1) + 1, -((compare - start - 1) / 0x1_0000_0000), compare);
    hide Wrap32;
  }

  lemma OnlyReach(start: U32, compare: U32, i: int, j: int)
    requires Reaches(start, compare, i) && Reaches(start, compare, j)
    requires 1 <= i <= 0x1_0000_0000 && 1 <= j <= 0x1_0000_0000
    ensures i == j
  {
    hide Wrap32;
    SameResidue(start + i, start + j);
  }

  lemma DistanceOf(start: U32, delta: nat)
    requires delta >= 1
    ensures Wrap32(Wrap32(start + delta) - start - 1) == Wrap32(delta - 1)
  {
    Wrap32Parts(start + delta);
    Wrap32Shift(delta - 1, -((start + delta) / 0x1_0000_0000));
    hide Wrap32;
  }

  lemma SameResidue(x: int, y: int)
    requires Wrap32(x) == Wrap32(y) && -0x1_0000_0000 < x - y < 0x1_0000_0000
    ensures x == y
  {
  }

  /** Beyond 2^32 the slow path always fires, so the two agree exactly when the fast one fires too. */
  lemma BeyondOneRevolution(start: U32, compare: U32, delta: nat)
    requires delta > 0x1_0000_0000
    ensures Meets(start, compare, delta)
    ensures (Crossed(start, Wrap32(start + delta), compare) <==> Meets(start, compare, delta))
            <==> Wrap32(compare - start - 1) <= Wrap32(delta - 1)
  {
    FirstReach(start, compare);
    DistanceOf(start, delta);
  }

  // ---------------------------------------------------------------- whole runs

  /** Count equals Compare at instant `x`. */
  predicate Match(c: Cop0Regs, x: int) {
    CountAt(c, x) == c.compare
  }

  ghost predicate MatchIn(c: Cop0Regs, from: int, to: int) {
    exists x :: from < x <= to && Match(c, x)
  }

  lemma CheckIsExact(c: Cop0Regs, now: nat)
    requires !c.suppress && c.lastCheck <= now <= c.lastCheck + 0x1_0000_0000
    ensures CheckCompare(c, now).0 == c.(lastCheck := now)
    ensures CheckCompare(c, now).1 <==> MatchIn(c, c.lastCheck, now)
  {
    if c.lastCheck < now {
      var start, delta := CountAt(c, c.lastCheck), now - c.lastCheck;
      CountAdvances(c, c.lastCheck, delta);
      FastMeetsSlow(start, c.compare, delta);
      if Meets(start, c.compare, delta) {
        var i :| 1 <= i <= delta && Reaches(start, c.compare, i);
        CountAdvances(c, c.lastCheck, i);
        assert Match(c, c.lastCheck + i);
      }
      if MatchIn(c, c.lastCheck, now) {
        var x :| c.lastCheck < x <= now && Match(c, x);
        CountAdvances(c, c.lastCheck, x - c.lastCheck);
        assert Reaches(start, c.compare, x - c.lastCheck);
      }
    }
  }

  /**
   * After a write of Compare, or of Count with a value that does not lie ahead, the next check reports nothing
   * and the check after it exactly the matches in between.
   */
  lemma WriteRestarts(c: Cop0Regs, idx: int, v: U64, is32: bool, t0: nat, t1: nat, t2: nat)
    requires idx == 11 || (idx == 9 && Low32(v) <= t0)
    requires t1 <= t2 <= t1 + 0x1_0000_0000
    ensures var (c1, r1) := CheckCompare(Write(c, idx, v, is32, t0), t1);
            !r1 && (CheckCompare(c1, t2).1 <==> MatchIn(c1, t1, t2))
  {
    var (c1, r1) := CheckCompare(Write(c, idx, v, is32, t0), t1);
    CheckIsExact(c1, t2);
    hide Low32, Wrap32, MatchIn;
  }

  lemma CountAdvances(c: Cop0Regs, from: int, i: int)
    ensures CountAt(c, from + i) == Wrap32(CountAt(c, from) + i)
  {
  }

  /** What successive checks at the given instants report. */
  function Reports(c: Cop0Regs, times: seq<nat>): (r: seq<bool>)
    ensures |r| == |times|
    decreases |times|
  {
    if times == [] then []
    else [CheckCompare(c, times[0]).1] + Reports(CheckCompare(c, times[0]).0, times[1..])
  }

  /** The instant before the i-th interval: the previous check. */
  function Before(c: Cop0Regs, times: seq<nat>, i: nat): nat
    requires i < |times|
  {
    if i == 0 then c.lastCheck else times[i - 1]
  }

  /** Check instants never go back and lie at most one revolution of Count apart. */
  ghost predicate Paced(c: Cop0Regs, times: seq<nat>) {
    forall i :: 0 <= i < |times| ==> Before(c, times, i) <= times[i] <= Before(c, times, i) + 0x1_0000_0000
  }

  /** Without writes, the i-th check reports exactly whether Count met Compare since the check before. */
  lemma {:induction false} ReportsAreExact(c: Cop0Regs, times: seq<nat>, i: nat)
    requires !c.suppress && Paced(c, times) && i < |times|
    ensures Reports(c, times)[i] <==> MatchIn(c, Before(c, times, i), times[i])
    decreases |times|
  {
    assert Before(c, times, 0) <= times[0] <= Before(c, times, 0) + 0x1_0000_0000;
    CheckIsExact(c, times[0]);
    if i > 0 {
      var c', rest := CheckCompare(c, times[0]).0, times[1..];
      forall k | 0 <= k < |rest|
        ensures Before(c', rest, k) == Before(c, times, k + 1) && rest[k] == times[k + 1]
      {
      }
      assert Paced(c', rest) by {
        forall k | 0 <= k < |rest|
          ensures Before(c', rest, k) <= rest[k] <= Before(c', rest, k) + 0x1_0000_0000
        {
          assert Before(c, times, k + 1) <= times[k + 1] <= Before(c, times, k + 1) + 0x1_0000_0000;
        }
      }
      ReportsAreExact(c', rest, i - 1);
      assert Before(c', rest, i - 1) == Before(c, times, i);
      assert forall x :: Match(c', x) == Match(c, x);
    }
  }

  lemma {:induction false} TimesAscend(c: Cop0Regs, times: seq<nat>, i: nat, j: nat)
    requires Paced(c, times) && i <= j < |times|
    ensures times[i] <= times[j] && c.lastCheck <= times[i]
    decreases j
  {
    assert Before(c, times, j) <= times[j];
    if i < j {
      TimesAscend(c, times, i, j - 1);
    } else if j > 0 {
      TimesAscend(c, times, j - 1, j - 1);
    }
  }

  /** Every instant between the first and the last check lies in exactly one check interval. */
  lemma {:induction false} IntervalsPartition(c: Cop0Regs, times: seq<nat>, x: int) returns (i: nat)
    requires Paced(c, times) && times != [] && c.lastCheck < x <= times[|times| - 1]
    ensures i < |times| && Before(c, times, i) < x <= times[i]
    ensures forall j :: 0 <= j < |times| && Before(c, times, j) < x <= times[j] ==> j == i
  {
    i := 0;
    while times[i] < x
      invariant i < |times| && Before(c, times, i) < x
      decreases |times| - i
    {
      if i == |times| - 1 { assert false; }
      i := i + 1;
    }
    forall j | 0 <= j < |times| && Before(c, times, j) < x <= times[j] ensures j == i {
      if j < i { TimesAscend(c, times, j, i - 1); }
      if i < j { TimesAscend(c, times, i, j - 1); }
    }
  }

  /** No timer interrupt is lost and none is reported twice: each match shows up in its one interval. */
  lemma MatchIsReportedOnce(c: Cop0Regs, times: seq<nat>, x: int) returns (i: nat)
    requires !c.suppress && Paced(c, times) && times != [] && c.lastCheck < x <= times[|times| - 1]
    requires Match(c, x)
    ensures i < |times| && Before(c, times, i) < x <= times[i] && Reports(c, times)[i]
    ensures forall j :: 0 <= j < |times| && Before(c, times, j) < x <= times[j] ==> j == i
  {
    i := IntervalsPartition(c, times, x);
    ReportsAreExact(c, times, i);
  }

  // ---------------------------------------------------------------- any mix of operations

  datatype TimerOp = Advance(cycles: nat) | Check | SetCompare(value: U32) | SetCount(value: U32) | GetCount

  /** One operation at timestamp `total`; only Advance moves time. */
  function Apply(c: Cop0Regs, total: nat, op: TimerOp): (Cop0Regs, nat) {
    match op
    case Advance(n) => (c, total + n)
    case Check => (CheckCompare(c, total / 2).0, total)
    case SetCompare(v) => (c.(compare := v, suppress := true), total)
    case SetCount(v) => (WriteCount(c, v, total / 2), total)
    case GetCount => (ReadCount(c, total / 2).0, total)
  }

  function Run(c: Cop0Regs, total: nat, ops: seq<TimerOp>): (Cop0Regs, nat)
    decreases |ops|
  {
    if ops == [] then (c, total)
    else var (c', total') := Apply(c, total, ops[0]); Run(c', total', ops[1..])
  }

  lemma OneOp(c: Cop0Regs, total: nat, op: TimerOp)
    ensures Run(c, total, [op]) == Apply(c, total, op) && Run(c, total, []) == (c, total)
  {
    hide Apply;
    var (c', total') := Apply(c, total, op);
    assert Run(c', total', []) == (c', total');
  }

  lemma {:induction false} RunAppend(c: Cop0Regs, total: nat, a: seq<TimerOp>, b: seq<TimerOp>)
    ensures Run(c, total, a + b) == Run(Run(c, total, a).0, Run(c, total, a).1, b)
    decreases |a|
  {
    hide Apply;
    if a == [] {
      assert a + b == b;
    } else {
      var (c', total') := Apply(c, total, a[0]);
      RunAppend(c', total', a[1..], b);
      assert (a + b)[0] == a[0] && (a + b)[1..] == a[1..] + b;
    }
  }

  /** Neither recorded instant lies in the future. */
  predicate Causal(c: Cop0Regs, total: nat) {
    c.lastCheck <= total / 2 && c.countStart <= total / 2
  }

  /** "Time went backwards" and the repair in GetCount are unreachable after a reset, in every run. */
  lemma {:induction false} RunsAreCausal(c: Cop0Regs, total: nat, ops: seq<TimerOp>)
    requires Causal(c, total)
    ensures var (c', total') := Run(c, total, ops); Causal(c', total') && total <= total'
    ensures ReadCount(c, total / 2).0 == c
    decreases |ops|
  {
    if ops != [] {
      var (c', total') := Apply(c, total, ops[0]);
      assert Causal(c', total');
      RunsAreCausal(c', total', ops[1..]);
    }
  }

  /** The instants of the checks in a run of operations. */
  function CheckTimes(c: Cop0Regs, total: nat, ops: seq<TimerOp>): seq<nat>
    decreases |ops|
  {
    if ops == [] then []
    else
      var (c', total') := Apply(c, total, ops[0]);
      (if ops[0].Check? then [total / 2] else []) + CheckTimes(c', total', ops[1..])
  }

  /** What they answer. */
  function Answers(c: Cop0Regs, total: nat, ops: seq<TimerOp>): seq<bool>
    decreases |ops|
  {
    if ops == [] then []
    else
      var (c', total') := Apply(c, total, ops[0]);
      (if ops[0].Check? then [CheckCompare(c, total / 2).1] else []) + Answers(c', total', ops[1..])
  }

  lemma OneAnswer(c: Cop0Regs, total: nat)
    ensures Answers(c, total, [Check]) == [CheckCompare(c, total / 2).1] && CheckTimes(c, total, [Check]) == [total / 2]
  {
    hide CheckCompare, Apply;
    var (c', total') := Apply(c, total, Check);
    assert Answers(c', total', []) == [] && CheckTimes(c', total', []) == [];
  }

  lemma {:induction false} NoChecks(c: Cop0Regs, total: nat, ops: seq<TimerOp>)
    requires forall op :: op in ops ==> !op.Check?
    ensures Answers(c, total, ops) == [] && CheckTimes(c, total, ops) == []
    decreases |ops|
  {
    hide Apply, CheckCompare;
    if ops != [] { NoChecks(Apply(c, total, ops[0]).0, Apply(c, total, ops[0]).1, ops[1..]); }
  }

  /** No write to Count or Compare. */
  ghost predicate Quiet(ops: seq<TimerOp>) {
    forall op :: op in ops ==> !op.SetCount? && !op.SetCompare?
  }

  /** Without writes the checks of a run are successive checks at their instants. */
  lemma {:induction false} QuietRunReports(c: Cop0Regs, total: nat, ops: seq<TimerOp>)
    requires Causal(c, total) && Quiet(ops)
    ensures Answers(c, total, ops) == Reports(c, CheckTimes(c, total, ops))
    decreases |ops|
  {
    hide CheckCompare;
    if ops != [] {
      var (c', total') := Apply(c, total, ops[0]);
      StaysCausal(c, total, ops[0]);
      QuietRunReports(c', total', ops[1..]);
      var times := CheckTimes(c', total', ops[1..]);
      if ops[0].Check? {
        assert ([total / 2] + times)[1..] == times;
      } else {
        QuietKeeps(c, total, ops[0]);
        assert [] + times == times;
      }
    }
  }

  lemma StaysCausal(c: Cop0Regs, total: nat, op: TimerOp)
    requires Causal(c, total)
    ensures Causal(Apply(c, total, op).0, Apply(c, total, op).1)
  {
  }

  lemma QuietKeeps(c: Cop0Regs, total: nat, op: TimerOp)
    requires Causal(c, total) && (op.Advance? || op.GetCount?)
    ensures Apply(c, total, op).0 == c
  {
  }

  /** The run, its answers and its instants, one operation at a time. */
  lemma FirstOp(c: Cop0Regs, total: nat, ops: seq<TimerOp>)
    requires ops != []
    ensures var (c', total') := Apply(c, total, ops[0]);
            && Run(c, total, ops) == Run(c', total', ops[1..])
            && Answers(c, total, ops) == Answers(c, total, [ops[0]]) + Answers(c', total', ops[1..])
            && CheckTimes(c, total, ops) == CheckTimes(c, total, [ops[0]]) + CheckTimes(c', total', ops[1..])
  {
    hide Apply, CheckCompare;
  }

  lemma {:induction false} AnswersAppend(c: Cop0Regs, total: nat, a: seq<TimerOp>, b: seq<TimerOp>)
    ensures var (c', total') := Run(c, total, a);
            && Answers(c, total, a + b) == Answers(c, total, a) + Answers(c', total', b)
            && CheckTimes(c, total, a + b) == CheckTimes(c, total, a) + CheckTimes(c', total', b)
    decreases |a|
  {
    if a == [] {
      assert a + b == b;
    } else {
      hide *;
      var (c', total') := Apply(c, total, a[0]);
      AnswersAppend(c', total', a[1..], b);
      assert (a + b)[0] == a[0] && (a + b)[1..] == a[1..] + b;
      FirstOp(c, total, a);
      FirstOp(c, total, a + b);
    }
  }
}
