/**
 * The load delay of the MIPS I configuration (src/mips_base.cpp:799-834, 875-942): one pending load, counted
 * down by ExecuteDelayedLoad at the end of every instruction, refines a machine with a single delay slot.
 */
module LoadDelay {
  import opened Words
  import opened Decoder
  import opened Encoding
  import opened Handlers

  type CopIndex = x: int | 0 <= x < 4 witness 0

  /** What an instruction can read: the integer registers and the coprocessor registers. */
  datatype View = View(gpr: Regs, cop: map<(int, int), U32>)

  /**
   * An instruction as the delay sees it. Values are functions of the registers it reads. A flushing
   * instruction completes a pending load first (dst 0 writes nothing).
   */
  datatype Effect =
    | Other
    | WriteGpr(dst: RegIndex, value: View -> U64)
    | WriteCop(cop: CopIndex, dst: RegIndex, word: View -> U32)
    | LoadGpr(dst: RegIndex, word: View -> U32)
    | LoadCop(cop: CopIndex, dst: RegIndex, word: View -> U32)
    | Flushing(dst: RegIndex, value: View -> U64)

  datatype Pending = ToGpr(dst: RegIndex, value: U32) | ToCop(cop: CopIndex, dst: RegIndex, value: U32)

  // ---------------------------------------------------------------- from opcodes to effects

  predicate IsDelayedLoad(id: InstId) {
    id.KLb? || id.KLbu? || id.KLh? || id.KLhu? || id.KLw?
  }

  /** The integer branches of MIPS I, LWL and LWR complete a pending load; coprocessor branches do not. */
  predicate Flushes(id: InstId) {
    || id.KBeq? || id.KBne? || id.KBgtz? || id.KBlez? || id.KBgez? || id.KBgezal? || id.KBltz?
    || id.KBltzal? || id.KLwl? || id.KLwr?
  }

  predicate HasRtDest(id: InstId) {
    || id.KAddi? || id.KAddiu? || id.KSlti? || id.KSltiu? || id.KAndi? || id.KOri? || id.KXori?
    || id.KLui? || id.KMfc? || id.KCfc?
  }

  predicate HasRdDest(id: InstId) {
    match id
    case KAdd | KAddu | KSub | KSubu | KAnd | KOr | KXor | KNor | KSlt | KSltu | KSll | KSllv | KSrl | KSrlv
       | KSra | KSrav | KMfhi | KMflo | KJalr => true
    case _ => false
  }

  /** The register a completed instruction writes directly; 0 when it writes none. */
  function DirectDest(raw: U32): RegIndex {
    var id := Decode(raw);
    if id.KLwl? || id.KLwr? || HasRtDest(id) then Rt(raw)
    else if id.KBgezal? || id.KBltzal? || id.KJal? then 31
    else if HasRdDest(id) then Rd(raw)
    else 0
  }

  /**
   * The effect of an opcode of the MIPS I configuration. `value` and `word` are what it computes or loads;
   * one that raises an exception does not complete, and writes and queues nothing.
   */
  function EffectOf(raw: U32, completes: bool, value: View -> U64, word: View -> U32): Effect {
    var id := Decode(raw);
    if Flushes(id) then Flushing(if completes then DirectDest(raw) else 0, value)
    else if !completes then Other
    else if IsDelayedLoad(id) then LoadGpr(Rt(raw), word)
    else if id.KLwc? then LoadCop(CopId(raw), Rt(raw), word)
    else if id.KMtc? then WriteCop(CopId(raw), Rd(raw), word)
    else if DirectDest(raw) != 0 then WriteGpr(DirectDest(raw), value)
    else Other
  }

  // ---------------------------------------------------------------- the effect by the fields of the word

  /** The branches of opcodes 1 and 4 to 7, and LWL and LWR. */
  predicate FlushFields(op: int, rt: int) {
    (op == 1 && rt % 4 < 2) || 4 <= op < 8 || op == 34 || op == 38
  }

  /** LB, LH, LW, LBU and LHU. */
  predicate LoadFields(op: int) { op == 32 || op == 33 || op == 35 || op == 36 || op == 37 }

  /** The function codes of MIPS I with a destination in rd: shifts, JALR, MFHI, MFLO and arithmetic. */
  predicate RdFields(funct: int) {
    || funct == 0 || funct == 2 || funct == 3 || funct == 4 || funct == 6 || funct == 7 || funct == 9
    || funct == 16 || funct == 18 || 32 <= funct < 40 || funct == 42 || funct == 43
  }

  /** The register written directly, by the fields; a nop's rd is 0. */
  function DestField(op: int, rs: int, rt: RegIndex, rd: RegIndex, funct: int): RegIndex {
    if 8 <= op < 16 || op == 34 || op == 38 || (16 <= op < 20 && (rs == 0 || rs == 2)) then rt
    else if op == 3 || (op == 1 && rt / 16 == 1 && rt % 4 < 2) then 31
    else if op == 0 && RdFields(funct) then rd
    else 0
  }

  /** The classification of a word, by its fields. */
  predicate Classified(raw: U32) {
    var id, op, rs, rt := Decode(raw), Op(raw), Rs(raw), Rt(raw);
    && (Flushes(id) <==> FlushFields(op, rt)) && (IsDelayedLoad(id) <==> LoadFields(op))
    && (id.KLwc? <==> op == 49 || op == 50) && (id.KMtc? <==> 16 <= op < 20 && rs == 4)
    && DirectDest(raw) == DestField(op, rs, rt, Rd(raw), Funct(raw))
  }

  lemma ShiftDelay(raw: U32)
    requires Op(raw) == 0 && Funct(raw) != 1 && ShiftCode(Decode(raw)) == Funct(raw)
    ensures Classified(raw)
  {
    hide Decode, Op, Rs, Rt, Rd, Funct;
  }

  lemma WideShiftDelay(raw: U32)
    requires Op(raw) == 0 && WideShiftCode(Decode(raw)) == Funct(raw)
    ensures Classified(raw)
  {
    hide Decode, Op, Rs, Rt, Rd, Funct;
  }

  lemma ControlDelay(raw: U32)
    requires Op(raw) == 0 && ControlCode(Decode(raw)) == Funct(raw) && (Funct(raw) == 0 ==> Rd(raw) == 0)
    ensures Classified(raw)
  {
    hide Decode, Op, Rs, Rt, Rd, Funct;
  }

  lemma HiLoDelay(raw: U32)
    requires Op(raw) == 0 && HiLoCode(Decode(raw)) == Funct(raw)
    ensures Classified(raw)
  {
    hide Decode, Op, Rs, Rt, Rd, Funct;
  }

  lemma ArithmeticDelay(raw: U32)
    requires Op(raw) == 0 && ArithmeticCode(Decode(raw)) == Funct(raw)
    ensures Classified(raw)
  {
    hide Decode, Op, Rs, Rt, Rd, Funct;
  }

  lemma LogicDelay(raw: U32)
    requires Op(raw) == 0 && LogicCode(Decode(raw)) == Funct(raw)
    ensures Classified(raw)
  {
    hide Decode, Op, Rs, Rt, Rd, Funct;
  }

  lemma BranchDelay(raw: U32)
    requires BranchCode(Decode(raw)) == Op(raw)
    ensures Classified(raw)
  {
    hide Decode, Op, Rs, Rt, Rd, Funct;
  }

  lemma ImmediateDelay(raw: U32)
    requires ImmediateCode(Decode(raw)) == Op(raw)
    ensures Classified(raw)
  {
    hide Decode, Op, Rs, Rt, Rd, Funct;
  }

  lemma LoadOpDelay(raw: U32)
    requires LoadCode(Decode(raw)) == Op(raw)
    ensures Classified(raw)
  {
    hide Decode, Op, Rs, Rt, Rd, Funct;
  }

  lemma StoreDelay(raw: U32)
    requires StoreCode(Decode(raw)) == Op(raw)
    ensures Classified(raw)
  {
    hide Decode, Op, Rs, Rt, Rd, Funct;
  }

  lemma UnalignedDelay(raw: U32)
    requires UnalignedCode(Decode(raw)) == Op(raw)
    ensures Classified(raw)
  {
    hide Decode, Op, Rs, Rt, Rd, Funct;
  }

  lemma OtherDelay(raw: U32)
    requires OtherCode(Decode(raw)) == Op(raw)
    ensures Classified(raw)
  {
    hide Decode, Op, Rs, Rt, Rd, Funct;
  }

  lemma TargetDelay(raw: U32)
    requires TargetCode(Decode(raw)) == Op(raw) && Op(raw) > 0
    ensures Classified(raw)
  {
    hide Decode, Op, Rs, Rt, Rd, Funct;
  }

  lemma RegImmDelay(raw: U32)
    requires Op(raw) == 1
    ensures Classified(raw)
  {
    hide Decode, Op, Rs, Rt, Rd, Funct;
    RegImmIs(raw);
  }

  lemma CopMemoryDelay(raw: U32)
    requires IsCopMemoryOp(Op(raw)) && Op(raw) < 64
    ensures Classified(raw)
  {
    hide Decode, Op, Rs, Rt, Rd, Funct;
    CopMemoryIs(raw);
  }

  lemma MoveDelay(raw: U32)
    requires 16 <= Op(raw) < 20 && MoveCode(Decode(raw)) == Rs(raw)
    ensures Classified(raw)
  {
    hide Decode, Op, Rs, Rt, Rd, Funct;
  }

  lemma CopBranchDelay(raw: U32)
    requires 16 <= Op(raw) < 20 && Rs(raw) == 8 && CopBranchCode(Decode(raw)) == Rt(raw)
    ensures Classified(raw)
  {
    hide Decode, Op, Rs, Rt, Rd, Funct;
  }

  lemma CommandDelay(raw: U32)
    requires 16 <= Op(raw) < 20 && Decode(raw).KCop? && (Rs(raw) == 3 || Rs(raw) == 7 || Rs(raw) > 8)
    ensures Classified(raw)
  {
    hide Decode, Op, Rs, Rt, Rd, Funct;
  }

  lemma UnknownDelay(raw: U32)
    requires Decode(raw).KUnknown?
    requires !FlushFields(Op(raw), Rt(raw)) && !LoadFields(Op(raw)) && Op(raw) != 49 && Op(raw) != 50
    requires !(16 <= Op(raw) < 20 && Rs(raw) == 4) && DestField(Op(raw), Rs(raw), Rt(raw), Rd(raw), Funct(raw)) == 0
    ensures Classified(raw)
  {
    hide Decode, Op, Rs, Rt, Rd, Funct;
  }

  lemma SpecialDelay(raw: U32)
    requires Op(raw) == 0
    ensures Classified(raw)
  {
    hide Op, Decode, ShiftCode, WideShiftCode, ControlCode, HiLoCode, ArithmeticCode, LogicCode, Funct, Rd, Shamt;
    hide Classified, Rs, Rt;
    var f := Funct(raw);
    if f in {1, 5, 10, 11, 14, 21, 40, 41, 57, 61} || 48 <= f < 56 || (f == 15 && !HasNoTarget(raw)) {
      NoSpecialWord(raw);
      UnknownDelay(raw);
    } else if f in {0, 2, 3, 4, 6, 7} && !(f == 0 && HasNoTarget(raw)) {
      ShiftWord(raw);
      ShiftDelay(raw);
    } else if f in {20, 22, 23, 56, 58, 59, 60, 62, 63} {
      WideShiftWord(raw);
      WideShiftDelay(raw);
    } else if f in {0, 8, 9, 12, 13, 15} {
      ControlWord(raw);
      ControlDelay(raw);
    } else if 16 <= f < 20 || 24 <= f < 32 {
      HiLoWord(raw);
      HiLoDelay(raw);
    } else if 32 <= f < 36 || 42 <= f < 48 {
      ArithmeticWord(raw);
      ArithmeticDelay(raw);
    } else {
      LogicWord(raw);
      LogicDelay(raw);
    }
  }

  lemma PrimaryDelay(raw: U32)
    requires Op(raw) != 0 && !(16 <= Op(raw) < 20)
    ensures Classified(raw)
  {
    hide Op, Decode, BranchCode, ImmediateCode, LoadCode, StoreCode, UnalignedCode, OtherCode, TargetCode;
    hide Classified, Rs, Rt, Rd, Funct;
    var op := Op(raw);
    if op == 1 {
      RegImmDelay(raw);
    } else if op < 4 {
      TargetWord(raw);
      TargetDelay(raw);
    } else if 4 <= op < 8 || 20 <= op < 24 {
      BranchWord(raw);
      BranchDelay(raw);
    } else if 28 <= op < 32 || op == 51 || op == 59 {
      NoPrimaryWord(raw);
      UnknownDelay(raw);
    } else if IsCopMemoryOp(op) {
      CopMemoryDelay(raw);
    } else if 8 <= op < 16 || 24 <= op < 26 {
      ImmediateWord(raw);
      ImmediateDelay(raw);
    } else if op in {32, 33, 35, 36, 37, 39, 55} {
      LoadOpcode(raw);
      LoadOpDelay(raw);
    } else if op in {40, 41, 43, 63} {
      StoreOpcode(raw);
      StoreDelay(raw);
    } else if op in {26, 27, 34, 38, 42, 44, 45, 46} {
      UnalignedWord(raw);
      UnalignedDelay(raw);
    } else {
      OtherWord(raw);
      OtherDelay(raw);
    }
  }

  lemma CopDelay(raw: U32)
    requires 16 <= Op(raw) < 20
    ensures Classified(raw)
  {
    hide Op, Decode, Rs, Rt, Rd, Funct, MoveCode, CopBranchCode, Classified;
    UnknownBranch(raw);
    if Decode(raw).KUnknown? {
      UnknownDelay(raw);
    } else {
      CopWord(raw);
      if Rs(raw) == 8 {
        CopBranchDelay(raw);
      } else if IsMoveField(Rs(raw)) {
        MoveDelay(raw);
      } else {
        CommandDelay(raw);
      }
    }
  }

  lemma AllClassified(raw: U32)
    ensures Classified(raw)
  {
    hide Op, Classified;
    if Op(raw) == 0 {
      SpecialDelay(raw);
    } else if 16 <= Op(raw) < 20 {
      CopDelay(raw);
    } else {
      PrimaryDelay(raw);
    }
  }

  /** The effect of every word, by its fields: what flushes, what is delayed and where, and what is written at once. */
  lemma EffectByFields(raw: U32, completes: bool, value: View -> U64, word: View -> U32)
    ensures var op, rs, rt, rd := Op(raw), Rs(raw), Rt(raw), Rd(raw);
            var dest := DestField(op, rs, rt, rd, Funct(raw));
            EffectOf(raw, completes, value, word)
            == if FlushFields(op, rt) then Flushing(if completes then dest else 0, value)
               else if !completes then Other
               else if LoadFields(op) then LoadGpr(rt, word)
               else if op == 49 || op == 50 then LoadCop(op % 4, rt, word)
               else if 16 <= op < 20 && rs == 4 then WriteCop(op % 4, rd, word)
               else if dest != 0 then WriteGpr(dest, value)
               else Other
  {
    AllClassified(raw);
    CopIdIs(raw);
    hide Decode, Op, Rs, Rt, Rd, Funct, CopId, Flushes, IsDelayedLoad, DirectDest, DestField, FlushFields, LoadFields;
  }

  // ---------------------------------------------------------------- the reference: one delay slot

  function Deliver(v: View, p: Option<Pending>): View {
    match p
    case None => v
    case Some(ToGpr(d, w)) => v.(gpr := SetReg(v.gpr, d, w))
    case Some(ToCop(c, d, w)) => v.(cop := v.cop[(c, d) := w])
  }

  datatype Machine = Machine(view: View, slot: Option<Pending>)

  /**
   * The pending load arrives after the instruction has read its operands, and before its own register write
   * takes effect; a coprocessor write comes before it.
   */
  function Next(m: Machine, e: Effect): Machine {
    var late := Deliver(m.view, m.slot);
    match e
    case Other => Machine(late, None)
    case WriteGpr(d, f) => Machine(late.(gpr := SetReg(late.gpr, d, f(m.view))), None)
    case WriteCop(c, d, f) => Machine(Deliver(m.view.(cop := m.view.cop[(c, d) := f(m.view)]), m.slot), None)
    case LoadGpr(d, f) => Machine(late, Some(ToGpr(d, f(m.view))))
    case LoadCop(c, d, f) => Machine(late, Some(ToCop(c, d, f(m.view))))
    case Flushing(d, f) => Machine(late.(gpr := SetReg(late.gpr, d, f(late))), None)
  }

  // ---------------------------------------------------------------- the object

  class DelayedLoads {
    var gpr: Regs
    var cop: map<(int, int), U32>
    var isActive: bool
    var delayCounter: int
    var copId: int
    var dst: int
    var value: U32

    /** At every instruction boundary an active load has been counted exactly once. */
    ghost predicate Valid()
      reads this
    {
      isActive ==> delayCounter == 1 && InRange()
    }

    ghost predicate InRange()
      reads this
    {
      0 <= dst < 32 && -1 <= copId < 4
    }

    ghost function Slot(): Option<Pending>
      requires isActive ==> InRange()
      reads this
    {
      if !isActive then None
      else if copId < 0 then Some(ToGpr(dst, value))
      else Some(ToCop(copId, dst, value))
    }

    ghost function Contents(): View
      reads this
    {
      View(gpr, cop)
    }

    constructor (gpr: Regs, cop: map<(int, int), U32>)
      ensures Valid() && Contents() == View(gpr, cop) && Slot() == None
    {
      this.gpr, this.cop := gpr, cop;
      isActive, delayCounter, copId, dst, value := false, 0, 0, 0, 0;
    }

    /** Only the active flag is cleared; the counter may hold anything. */
    method Reset()
      modifies this`isActive
      ensures Valid() && Slot() == None && Contents() == old(Contents())
    {
      isActive := false;
    }

    /** A write to the destination of a pending load cancels the load. */
    method Write(idx: RegIndex, v: U64)
      requires isActive ==> InRange()
      modifies this`gpr, this`isActive
      ensures gpr == SetReg(old(gpr), idx, v)
      ensures isActive <==> old(isActive) && !(idx != 0 && copId < 0 && dst == idx)
    {
      if idx == 0 {
        return;
      }
      if isActive && copId < 0 && dst == idx {
        isActive := false;
      }
      gpr := gpr[idx := v];
    }

    /** Counts a pending load; at the second count it is delivered. */
    method ExecuteDelayedLoad()
      requires isActive ==> InRange() && 0 <= delayCounter <= 1
      modifies this`gpr, this`cop, this`isActive, this`delayCounter
      ensures isActive <==> old(isActive && delayCounter == 0)
      ensures isActive ==> delayCounter == 1 && InRange() && Slot() == old(Slot())
      ensures Contents() == if old(delayCounter == 1) then Deliver(old(Contents()), old(Slot())) else old(Contents())
    {
      if !isActive {
        return;
      }
      delayCounter := delayCounter + 1;
      if delayCounter != 2 {
        return;
      }
      if copId < 0 {
        Write(dst, value);
      } else {
        cop := cop[(copId, dst) := value];
      }
      isActive := false;
      delayCounter := 0;
    }

    /** Queues a load; one that is already pending is completed first, and must then be gone. */
    method Queue(cop: int, dst: RegIndex, value: U32) returns (panicked: bool)
      requires Valid() && -1 <= cop < 4
      modifies this
      ensures !panicked && isActive && delayCounter == 0 && InRange()
      ensures Contents() == Deliver(old(Contents()), old(Slot()))
      ensures Slot() == Some(if cop < 0 then ToGpr(dst, value) else ToCop(cop, dst, value))
    {
      if isActive {
        ExecuteDelayedLoad();
        if isActive {
          return true;
        }
      }
      isActive, delayCounter, this.dst, copId, this.value := true, 0, dst, cop, value;
      panicked := false;
    }

    /** One instruction: its effect, then ExecuteDelayedLoad. Neither panic can be reached. */
    method RunInst(e: Effect) returns (panicked: bool)
      requires Valid()
      modifies this
      ensures Valid() && !panicked
      ensures Machine(Contents(), Slot()) == Next(Machine(old(Contents()), old(Slot())), e)
    {
      panicked := false;
      match e {
        case Other =>
        case WriteGpr(d, f) => Write(d, f(View(gpr, cop)));
        case WriteCop(c, d, f) => cop := cop[(c as int, d as int) := f(View(gpr, cop))];
        case LoadGpr(d, f) => panicked := Queue(-1, d, f(View(gpr, cop)));
        case LoadCop(c, d, f) => panicked := Queue(c, d, f(View(gpr, cop)));
        case Flushing(d, f) =>
          ExecuteDelayedLoad();
          Write(d, f(View(gpr, cop)));
      }
      ExecuteDelayedLoad();
    }

    /** One instruction given by its opcode. */
    method RunOpcode(raw: U32, completes: bool, value: View -> U64, word: View -> U32) returns (panicked: bool)
      requires Valid()
      modifies this
      ensures Valid() && !panicked
      ensures Machine(Contents(), Slot())
              == Next(Machine(old(Contents()), old(Slot())), EffectOf(raw, completes, value, word))
    {
      hide Next, EffectOf;
      panicked := RunInst(EffectOf(raw, completes, value, word));
    }
  }

  // ---------------------------------------------------------------- when the value becomes visible

  function Run(m: Machine, es: seq<Effect>): Machine {
    if es == [] then m else Next(Run(m, es[..|es| - 1]), es[|es| - 1])
  }

  lemma LoadIs(raw: U32, value: View -> U64, word: View -> U32)
    requires IsDelayedLoad(Decode(raw))
    ensures EffectOf(raw, true, value, word) == LoadGpr(Rt(raw), word) && DirectDest(raw) == 0
  {
    hide Decode, Rt, Rd;
  }

  /**
   * A load followed by any instruction: the second reads the old value unless its opcode flushes, and after
   * it the register holds the loaded value unless the instruction itself wrote it.
   */
  lemma LoadedValueArrives(m: Machine, raw1: U32, word1: View -> U32, raw2: U32, done: bool, value: View -> U64,
          word: View -> U32)
    requires IsDelayedLoad(Decode(raw1)) && Rt(raw1) != 0
    ensures var d := Rt(raw1);
            var m1 := Next(m, EffectOf(raw1, true, value, word1));
            var m2 := Next(m1, EffectOf(raw2, done, value, word));
            var seen := if Flushes(Decode(raw2)) then Deliver(m1.view, m1.slot) else m1.view;
            && m1.view == Deliver(m.view, m.slot)
            && seen.gpr[d] == (if Flushes(Decode(raw2)) then word1(m.view) else Deliver(m.view, m.slot).gpr[d])
            && m2.view.gpr[d] == if done && DirectDest(raw2) == d then value(seen) else word1(m.view)
  {
    LoadIs(raw1, value, word1);
    DestIs(raw2, done, value, word);
    hide Decode, Rt, Rd, Flushes, IsDelayedLoad, DirectDest, EffectOf;
  }

  /** Only the direct destination is written at once, and only by an instruction that completes. */
  lemma DestIs(raw: U32, done: bool, value: View -> U64, word: View -> U32)
    ensures var e := EffectOf(raw, done, value, word);
            && (e.Flushing? <==> Flushes(Decode(raw)))
            && (e.Flushing? || e.WriteGpr? ==> e.value == value && (done ==> e.dst == DirectDest(raw)))
            && (e.Flushing? && !done ==> e.dst == 0) && (e.WriteGpr? ==> done)
            && (!e.Flushing? && !e.WriteGpr? ==> !done || DirectDest(raw) == 0)
  {
    hide Rt, Rd;
  }

  // ---------------------------------------------------------------- programs that do not notice

  /** The machine without a load delay. */
  function Immediate(v: View, e: Effect): View {
    match e
    case Other => v
    case WriteGpr(d, f) => v.(gpr := SetReg(v.gpr, d, f(v)))
    case WriteCop(c, d, f) => v.(cop := v.cop[(c, d) := f(v)])
    case LoadGpr(d, f) => v.(gpr := SetReg(v.gpr, d, f(v)))
    case LoadCop(c, d, f) => v.(cop := v.cop[(c, d) := f(v)])
    case Flushing(d, f) => v.(gpr := SetReg(v.gpr, d, f(v)))
  }

  function ImmediateRun(v: View, es: seq<Effect>): View {
    if es == [] then v else Immediate(ImmediateRun(v, es[..|es| - 1]), es[|es| - 1])
  }

  /** The instruction computes the same with and without the pending value, and does not write under it. */
  predicate Indifferent(m: Machine, e: Effect) {
    var late := Deliver(m.view, m.slot);
    match e
    case Other => true
    case WriteGpr(d, f) => f(m.view) == f(late)
    case WriteCop(c, d, f) => f(m.view) == f(late) &&
        !(m.slot.Some? && m.slot.value.ToCop? && m.slot.value.cop == c && m.slot.value.dst == d)
    case LoadGpr(d, f) => f(m.view) == f(late)
    case LoadCop(c, d, f) => f(m.view) == f(late)
    case Flushing(d, f) => true
  }

  lemma NextIsImmediate(m: Machine, e: Effect)
    requires Indifferent(m, e)
    ensures Deliver(Next(m, e).view, Next(m, e).slot) == Immediate(Deliver(m.view, m.slot), e)
  {
    if e.WriteCop? && m.slot.Some? && m.slot.value.ToCop? {
      var c, d, p := e.cop as int, e.dst as int, m.slot.value;
      var x := e.word(m.view);
      assert m.view.cop[(c, d) := x][(p.cop, p.dst) := p.value] == m.view.cop[(p.cop, p.dst) := p.value][(c, d) := x];
    }
  }

  /** A program that never depends on the delay runs as if loads were immediate, once the last one arrives. */
  lemma {:induction false} DelayIsInvisible(m: Machine, es: seq<Effect>)
    requires forall k :: 0 <= k < |es| ==> Indifferent(Run(m, es[..k]), es[k])
    ensures var r := Run(m, es); Deliver(r.view, r.slot) == ImmediateRun(Deliver(m.view, m.slot), es)
    decreases |es|
  {
    hide Indifferent, Next, Immediate, Deliver;
    if es != [] {
      var n := |es| - 1;
      var before := es[..n];
      forall k | 0 <= k < |before| ensures Indifferent(Run(m, before[..k]), before[k]) {
        assert before[..k] == es[..k];
      }
      DelayIsInvisible(m, before);
      assert Indifferent(Run(m, es[..n]), es[n]);
      NextIsImmediate(Run(m, before), es[n]);
    }
  }
}
