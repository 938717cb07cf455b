/** What data processing computes: shifted operands and arithmetic results as the integers words
    stand for, logical results bit by bit, and conditions after a comparison as orders. */
module ArmInstructions {
  import opened ArmState
  import opened ArmWords
  import opened ArmFlags
  import opened ArmPsr
  import opened ArmBlock
  import opened ArmTransfer
  import opened ArmOperands
  import opened ArmExecute
  import opened ArmBits
  import opened ArmShifts

  // ---- Arithmetic ----

  predicate IsSum(op: Opcode) {
    op.ADD? || op.ADC? || op.CMN?
  }

  /** The integer an arithmetic operation is for; C stands for a carry into a sum, and for the
      absence of a borrow from a difference. */
  function Exact(op: Opcode, a: int, b: int, carry: bool): int
    requires !IsLogical(op)
  {
    match op
    case ADD => a + b
    case CMN => a + b
    case ADC => a + b + In(carry)
    case SUB => a - b
    case CMP => a - b
    case SBC => a - b - In(!carry)
    case RSB => b - a
    case RSC => b - a - In(!carry)
  }

  /** The flags say what an operation with this unbounded result, on unsigned and on signed
      operands, gave: sign and zeroness of the word left, whether the unsigned result needed a
      carry or no borrow, and whether the signed one does not fit a word. */
  predicate Describes(g: Flags, sum: bool, natural: int, signed: int) {
    && (g.n <==> natural % 0x1_0000_0000 >= 0x8000_0000)
    && (g.z <==> natural % 0x1_0000_0000 == 0)
    && (g.c <==> if sum then natural >= 0x1_0000_0000 else natural >= 0)
    && (g.v <==> !(-0x8000_0000 <= signed < 0x8000_0000))
  }

  lemma ResultExact(op: Opcode, lhs: word, rhs: word, carry: bool)
    requires !IsLogical(op)
    ensures Nat(Result(op, lhs, rhs, carry)) == Exact(op, Nat(lhs), Nat(rhs), carry) % 0x1_0000_0000
  {
    hide Nat, Word;
    NatWord(Exact(op, Nat(lhs), Nat(rhs), carry));
  }

  /** A word that holds an integer modulo 2^32 holds a signed counterpart of it exactly when that
      one fits. */
  lemma Wraps(natural: int, k: int, v: word)
    requires -0x1_0000_0000 <= natural < 0x2_0000_0000 && -2 <= k <= 2
    requires natural >= 0x1_0000_0000 ==> Nat(v) == natural - 0x1_0000_0000
    requires 0 <= natural < 0x1_0000_0000 ==> Nat(v) == natural
    requires natural < 0 ==> Nat(v) == natural + 0x1_0000_0000
    requires -0x1_0000_0001 <= natural + k * 0x1_0000_0000 <= 0xffff_ffff
    ensures Nat(v) == natural % 0x1_0000_0000
    ensures Int(v) == natural + k * 0x1_0000_0000 <==> -0x8000_0000 <= natural + k * 0x1_0000_0000 < 0x8000_0000
  {
    hide Nat;
  }

  lemma SumDescribed(f: Flags, lhs: word, rhs: word, carry: bool)
    ensures var v := Plus(lhs, rhs, In(carry));
            var natural, signed := Nat(lhs) + Nat(rhs) + In(carry), Int(lhs) + Int(rhs) + In(carry);
            && Describes(AddFlags(f, lhs, rhs, v), true, natural, signed)
            && Describes(NegZero(AddFlags(f, lhs, rhs, v), v), true, natural, signed)
  {
    hide Nat, AddFlags, Plus;
    AddFlagsTrue(f, lhs, rhs, carry);
    PlusNat(lhs, rhs, In(carry));
    var k: int := (if Neg(lhs) then -1 else 0) + (if Neg(rhs) then -1 else 0);
    Wraps(Nat(lhs) + Nat(rhs) + In(carry), k, Plus(lhs, rhs, In(carry)));
  }

  lemma DifferenceDescribed(f: Flags, lhs: word, rhs: word, borrow: bool)
    ensures var v := Minus(lhs, rhs, In(borrow));
            var natural, signed := Nat(lhs) - Nat(rhs) - In(borrow), Int(lhs) - Int(rhs) - In(borrow);
            && Describes(NegZero(SubFlags(f, lhs, rhs, v), v), false, natural, signed)
            && Describes(SubFlags(NegZero(f, v), lhs, rhs, v), false, natural, signed)
  {
    hide Nat, Int, SubFlags, Minus;
    DifferenceTrue(f, lhs, rhs, borrow);
    DifferenceTrue(NegZero(f, Minus(lhs, rhs, In(borrow))), lhs, rhs, borrow);
  }

  lemma DifferenceTrue(f: Flags, lhs: word, rhs: word, borrow: bool)
    ensures var v := Minus(lhs, rhs, In(borrow));
            var natural, signed := Nat(lhs) - Nat(rhs) - In(borrow), Int(lhs) - Int(rhs) - In(borrow);
            var g := SubFlags(f, lhs, rhs, v);
            && Nat(v) == natural % 0x1_0000_0000 && g.n == f.n && g.z == f.z && (g.c <==> natural >= 0)
            && (g.v <==> !(-0x8000_0000 <= signed < 0x8000_0000))
  {
    hide Nat, SubFlags, Minus;
    SubFlagsTrue(f, lhs, rhs, borrow);
    MinusNat(lhs, rhs, In(borrow));
    var k: int := (if Neg(lhs) then -1 else 0) + (if Neg(rhs) then 1 else 0);
    Wraps(Nat(lhs) - Nat(rhs) - In(borrow), k, Minus(lhs, rhs, In(borrow)));
  }

  /** The flags after an arithmetic operation and, but for tests, after its result is written. */
  function FinalFlags(op: Opcode, f: Flags, lhs: word, rhs: word, v: word): Flags {
    if IsTest(op) then ArithmeticFlags(op, f, lhs, rhs, v) else NegZero(ArithmeticFlags(op, f, lhs, rhs, v), v)
  }

  lemma ArithmeticDescribed(op: Opcode, f: Flags, lhs: word, rhs: word, carry: bool)
    requires !IsLogical(op)
    ensures Describes(FinalFlags(op, f, lhs, rhs, Result(op, lhs, rhs, carry)), IsSum(op),
                      Exact(op, Nat(lhs), Nat(rhs), carry), Exact(op, Int(lhs), Int(rhs), carry))
  {
    hide Nat, Int, AddFlags, SubFlags, Minus, Plus, NegZero, Describes;
    if IsSum(op) {
      SumDescribed(f, lhs, rhs, op.ADC? && carry);
    } else if op.RSB? || op.RSC? {
      DifferenceDescribed(f, rhs, lhs, op.RSC? && !carry);
    } else {
      DifferenceDescribed(f, lhs, rhs, op.SBC? && !carry);
    }
  }

  // ---- Data processing ----

  /** A shift by a register, which takes a cycle of its own. */
  predicate ShiftsByReg(instr: word) {
    !IsImmediate(instr) && Low12(instr) >= 15 && Set(instr, 4)
  }

  /** The processor when the right-hand operand has been read. */
  function Shifted(c: Cpu, instr: word): (d: Cpu)
    requires Ready(c)
    ensures Ready(d)
  {
    if ShiftsByReg(instr) then IncPc(c, false) else c
  }

  /** The left-hand operand. Only the arithmetic forms with the S bit read it before a register
      shift advances register 15. */
  function First(c: Cpu, instr: word): word
    requires Ready(c)
  {
    LHS(if Sets(instr) && !IsLogical(OpcodeOf(instr)) then c else Shifted(c, instr), instr)
  }

  function Second(c: Cpu, instr: word): word
    requires Ready(c)
  {
    PlainRHS(c, instr).value
  }

  /** Of registers 0-14 only `r` changes, and of everything else only the flags and what reading
      the operands does to register 15 and the pipeline. */
  ghost predicate WritesOnly(c: Cpu, d: Cpu, instr: word, r: nat)
    requires Ready(c)
  {
    && |d.reg| == 16 && (forall k :: 0 <= k < 15 && k != r ==> d.reg[k] == c.reg[k])
    && d.reg[15] == Shifted(c, instr).reg[15]
    && d == c.(reg := d.reg, flags := d.flags, next := Shifted(c, instr).next)
  }

  /** Where the result of an operation goes; 16 is nowhere. */
  function Target(instr: word): nat {
    if IsTest(OpcodeOf(instr)) then 16 else Dest(instr)
  }

  lemma PlainShifted(c: Cpu, instr: word)
    requires Ready(c)
    ensures PlainRHS(c, instr).cpu == Shifted(c, instr)
    ensures Shifted(c, instr).flags == c.flags && WritesOnly(c, Shifted(c, instr), instr, 16)
  {
    hide ShiftByReg, ShiftByConst, RHS, ShiftCount, Immediate, Set, Low12, Forth;
  }

  lemma LogicalShifted(c: Cpu, instr: word)
    requires Ready(c) && (IsImmediate(instr) || !BareR15(instr))
    ensures var o := LogicalRHS(c, instr); o == Operand(WithCarry(Shifted(c, instr), o.cpu.flags.c), Second(c, instr))
  {
    hide DPSRegRHS, DPRegRHS, Immediate, Low12, BitOf, BareR15;
    if !IsImmediate(instr) {
      RegisterShifted(c, instr);
    }
  }

  lemma RegisterShifted(c: Cpu, instr: word)
    requires Ready(c) && !IsImmediate(instr) && !BareR15(instr)
    ensures var o := DPSRegRHS(c, instr);
            o == Operand(WithCarry(Shifted(c, instr), o.cpu.flags.c), DPRegRHS(c, instr).value)
  {
    hide ShiftByReg, ShiftByConst, RHS, ShiftCount, Set, Low12, IncPc, CarryByConst, CarryByReg, IsImmediate;
    hide ShiftKind, ShiftAmount;
    hide RHSReg, BareR15;
    if Low12(instr) < 15 {
      assert DPSRegRHS(c, instr).cpu == c;
    } else if Set(instr, 4) {
    } else {
    }
  }

  /** Register `r`, unless it is 16, and the flags. */
  function Written(c: Cpu, r: nat, v: word, f: Flags): Cpu
    requires |c.reg| == 16 && r <= 16
  {
    if r == 16 then c.(flags := f) else SetReg(c, r, v).(flags := f)
  }

  lemma ArithmeticIs(c: Cpu, instr: word)
    requires Ready(c) && !IsLogical(OpcodeOf(instr)) && Dest(instr) != 15
    requires IsTest(OpcodeOf(instr)) ==> Sets(instr)
    ensures var op, a, b := OpcodeOf(instr), First(c, instr), Second(c, instr);
            var v := Result(op, a, b, c.flags.c);
            DataProcess(c, instr) ==
              Written(Shifted(c, instr), Target(instr), v, if Sets(instr) then FinalFlags(op, c.flags, a, b, v) else c.flags)
  {
    hide ShiftsByReg, PlainRHS, LHS, OpcodeOf, Sets, ArithmeticFlags, NegZero, Result, IncPc, Dest, WritesOnly;
    PlainShifted(c, instr);
  }

  lemma WrittenOnly(c: Cpu, instr: word, r: nat, v: word, f: Flags)
    requires Ready(c) && r <= 16 && r != 15
    ensures WritesOnly(c, Written(Shifted(c, instr), r, v, f), instr, r)
  {
    hide ShiftsByReg, PlainRHS, Forth;
    PlainShifted(c, instr);
  }

  /** ADD, ADC, SUB, SBC, RSB, RSC, CMP and CMN: the destination holds the sum or difference
      modulo 2^32, with the S bit the flags describe it, and nothing else changes. */
  lemma Arithmetic(c: Cpu, instr: word)
    requires Ready(c) && !IsLogical(OpcodeOf(instr)) && Dest(instr) != 15
    requires IsTest(OpcodeOf(instr)) ==> Sets(instr)
    ensures var op, d := OpcodeOf(instr), DataProcess(c, instr);
            var a, b := First(c, instr), Second(c, instr);
            var natural, signed := Exact(op, Nat(a), Nat(b), c.flags.c), Exact(op, Int(a), Int(b), c.flags.c);
            && WritesOnly(c, d, instr, Target(instr))
            && (!IsTest(op) ==> Nat(d.reg[Dest(instr)]) == natural % 0x1_0000_0000)
            && (if Sets(instr) then Describes(d.flags, IsSum(op), natural, signed) else d.flags == c.flags)
  {
    hide Nat, Int, Exact, Describes, Shifted, First, Second, OpcodeOf, Sets, FinalFlags, Result, Dest, WritesOnly;
    hide DataProcess, IsSum;
    var op, a, b := OpcodeOf(instr), First(c, instr), Second(c, instr);
    var v := Result(op, a, b, c.flags.c);
    ArithmeticIs(c, instr);
    WrittenOnly(c, instr, Target(instr), v, if Sets(instr) then FinalFlags(op, c.flags, a, b, v) else c.flags);
    ResultExact(op, a, b, c.flags.c);
    ArithmeticDescribed(op, c.flags, a, b, c.flags.c);
  }

  // ---- Logical operations ----

  /** What a logical operation does to one bit of each operand. */
  predicate BitLogic(op: Opcode, a: bool, b: bool)
    requires IsLogical(op)
  {
    match op
    case AND => a && b
    case TST => a && b
    case EOR => a != b
    case TEQ => a != b
    case ORR => a || b
    case MOV => b
    case BIC => a && !b
    case MVN => !b
  }

  lemma Bitwise(op: Opcode, lhs: word, rhs: word, carry: bool, n: nat)
    requires IsLogical(op) && n < 32
    ensures BitOf(Result(op, lhs, rhs, carry), n) <==> BitLogic(op, BitOf(lhs, n), BitOf(rhs, n))
  {
    hide BitOf, And, Or, Xor, Not, Plus, Minus;
    AndOrBit(lhs, rhs, n);
    AndOrBit(lhs, Not(rhs), n);
    XorBit(lhs, rhs, n);
    NotBit(rhs, n);
  }

  /** AND, EOR, ORR, MOV, BIC, MVN, TST and TEQ: every bit of the destination is the operation
      on the operands' bits; with the S bit N and Z describe the result, C is the shifter's carry
      and V stays; nothing else changes. */
  lemma Logical(c: Cpu, instr: word)
    requires Ready(c) && IsLogical(OpcodeOf(instr)) && Dest(instr) != 15
    requires IsTest(OpcodeOf(instr)) ==> Sets(instr)
    requires Readable(instr)
    ensures var op, d := OpcodeOf(instr), DataProcess(c, instr);
            var v := Result(op, First(c, instr), Second(c, instr), c.flags.c);
            && WritesOnly(c, d, instr, Target(instr))
            && (forall n: nat :: n < 32 ==>
                  (BitOf(v, n) <==> BitLogic(op, BitOf(First(c, instr), n), BitOf(Second(c, instr), n))))
            && (!IsTest(op) ==> d.reg[Dest(instr)] == v)
            && d.flags == if Sets(instr) then NegZero(c.flags.(c := LogicalRHS(c, instr).cpu.flags.c), v) else c.flags
  {
    hide BitOf, BitLogic, First, Second, Shifted, OpcodeOf, Sets, Result, Dest, WritesOnly, DataProcess, NegZero;
    hide LogicalRHS, BareR15;
    var op := OpcodeOf(instr);
    var v := Result(op, First(c, instr), Second(c, instr), c.flags.c);
    forall n: nat | n < 32
      ensures BitOf(v, n) <==> BitLogic(op, BitOf(First(c, instr), n), BitOf(Second(c, instr), n))
    {
      Bitwise(op, First(c, instr), Second(c, instr), c.flags.c, n);
    }
    LogicalIs(c, instr);
    WrittenOnly(c, instr, Target(instr), v,
                if Sets(instr) then NegZero(c.flags.(c := LogicalRHS(c, instr).cpu.flags.c), v) else c.flags);
  }

  lemma LogicalIs(c: Cpu, instr: word)
    requires Ready(c) && IsLogical(OpcodeOf(instr)) && Dest(instr) != 15
    requires IsTest(OpcodeOf(instr)) ==> Sets(instr)
    requires Readable(instr)
    ensures var v := Result(OpcodeOf(instr), First(c, instr), Second(c, instr), c.flags.c);
            DataProcess(c, instr) ==
              Written(Shifted(c, instr), Target(instr), v,
                      if Sets(instr) then NegZero(c.flags.(c := LogicalRHS(c, instr).cpu.flags.c), v) else c.flags)
  {
    hide ShiftsByReg, PlainRHS, LogicalRHS, LHS, OpcodeOf, Sets, NegZero, IncPc, Dest, WritesOnly, BareR15, IsImmediate;
    hide And, Or, Xor, Not, Plus, Minus;
    PlainShifted(c, instr);
    CarryFree(OpcodeOf(instr), LHS(Shifted(c, instr), instr), Second(c, instr), c.flags.c);
    if Sets(instr) {
      LogicalShifted(c, instr);
      LogicalReads(c, instr);
    }
  }

  lemma CarryFree(op: Opcode, lhs: word, rhs: word, carry: bool)
    requires IsLogical(op)
    ensures Result(op, lhs, rhs, carry) == Result(op, lhs, rhs, false)
  {
    hide And, Or, Xor, Not, Plus, Minus;
  }

  /** The carry does not matter to reading the left-hand operand. */
  lemma LogicalReads(c: Cpu, instr: word)
    requires Ready(c) && (IsImmediate(instr) || !BareR15(instr))
    ensures LHS(LogicalRHS(c, instr).cpu, instr) == LHS(Shifted(c, instr), instr)
  {
    hide LogicalRHS, Shifted, BareR15, IsImmediate;
    LogicalShifted(c, instr);
  }

  // ---- Shifted operands ----

  /** The register a register operand comes from, as it reads when the shift is made. */
  function Unshifted(c: Cpu, instr: word): word
    requires Ready(c)
  {
    RHS(Shifted(c, instr), instr)
  }

  /** By how many places it is shifted. */
  function Moves(c: Cpu, instr: word): nat
    requires Ready(c)
  {
    if ShiftsByReg(instr) then ShiftCount(IncPc(c, false), instr) else Places(ShiftKind(instr), ShiftAmount(instr))
  }

  predicate Extends(instr: word) {
    !ShiftsByReg(instr) && IsRrx(ShiftKind(instr), ShiftAmount(instr))
  }

  lemma ShortForm(instr: word)
    requires Low12(instr) < 15
    ensures ShiftKind(instr) == 0 && ShiftAmount(instr) == 0 && RHSReg(instr) < 15
  {}

  /** A register operand is the register shifted by the places its instruction or its count
      register says, or rotated through the carry. */
  lemma ShiftedOperand(c: Cpu, instr: word)
    requires Ready(c) && !IsImmediate(instr)
    ensures var w, r := Unshifted(c, instr), Second(c, instr);
            if Extends(instr) then Nat(r) == Nat(w) / 2 + if c.flags.c then 0x8000_0000 else 0
            else Shifts(ShiftKind(instr), w, Moves(c, instr), r)
  {
    hide Nat, Shifts, ShiftByReg, ShiftByConst, ShiftCount, ShiftKind, ShiftAmount, Low12, Set, IncPc;
    var w, kind, n := Unshifted(c, instr), ShiftKind(instr), ShiftAmount(instr);
    if Low12(instr) < 15 {
      ShortForm(instr);
      ShiftByConstMeans(0, w, 0, false);
      NotShifted(w);
    } else if ShiftsByReg(instr) {
      ShiftByRegMeans(kind, w, Moves(c, instr));
    } else {
      ShiftByConstMeans(kind, w, n, c.flags.c);
    }
  }

  lemma NotShifted(w: word)
    ensures ShiftByConst(0, w, 0, false) == w
  {
    NoShift(w);
  }

  lemma Unrotated(instr: word)
    ensures Low12(instr) > 255 <==> Field(instr, 8) != 0
  {}

  /** With the S bit, a logical operation's carry is the last bit its operand's shift or rotation
      moved out, and the old carry when the operand was not shifted. */
  lemma ShifterCarry(c: Cpu, instr: word)
    requires Ready(c) && (IsImmediate(instr) || !BareR15(instr))
    ensures LogicalRHS(c, instr).cpu.flags.c <==>
              if IsImmediate(instr) then
                if Field(instr, 8) == 0 then c.flags.c else Nat(Second(c, instr)) >= 0x8000_0000
              else if Extends(instr) then Nat(Unshifted(c, instr)) % 2 == 1
              else if Moves(c, instr) == 0 then c.flags.c
              else LastOut(ShiftKind(instr), Unshifted(c, instr), Moves(c, instr))
  {
    hide Nat, LastOut, ShiftByReg, ShiftByConst, CarryByReg, CarryByConst, ShiftCount, ShiftKind, ShiftAmount;
    hide Low12, Set, IncPc, RHS;
    hide Shifts, WritesOnly, BitOf, Immediate, Field;
    var w, kind, n := Unshifted(c, instr), ShiftKind(instr), ShiftAmount(instr);
    if IsImmediate(instr) {
      Unrotated(instr);
      SignBit(Immediate(instr));
    } else if Low12(instr) < 15 {
      ShortForm(instr);
    } else if ShiftsByReg(instr) {
      PlainShifted(c, instr);
      CarryByRegMeans(kind, w, Moves(c, instr), c.flags.c);
    } else {
      CarryByConstMeans(kind, w, n);
    }
  }

  // ---- Comparison ----

  /** What a condition says of two words that were compared. */
  predicate Order(k: Condition, a: word, b: word) {
    match k
    case EQ => Nat(a) == Nat(b)
    case NE => Nat(a) != Nat(b)
    case CS => Nat(a) >= Nat(b)
    case CC => Nat(a) < Nat(b)
    case MI => (Nat(a) - Nat(b)) % 0x1_0000_0000 >= 0x8000_0000
    case PL => (Nat(a) - Nat(b)) % 0x1_0000_0000 < 0x8000_0000
    case VS => !(-0x8000_0000 <= Int(a) - Int(b) < 0x8000_0000)
    case VC => -0x8000_0000 <= Int(a) - Int(b) < 0x8000_0000
    case HI => Nat(a) > Nat(b)
    case LS => Nat(a) <= Nat(b)
    case GE => Int(a) >= Int(b)
    case LT => Int(a) < Int(b)
    case GT => Int(a) > Int(b)
    case LE => Int(a) <= Int(b)
    case AL => true
    case NV => false
  }

  lemma DescribedOrder(g: Flags, k: Condition, a: word, b: word)
    requires Describes(g, false, Nat(a) - Nat(b), Int(a) - Int(b))
    ensures Passed(k, g) <==> Order(k, a, b)
  {
    hide Nat;
  }

  /** An instruction of the data processing kind. */
  predicate IsProcessing(instr: word) {
    !Set(instr, 27) && !Set(instr, 26) && (Set(instr, 25) || !Set(instr, 4) || !Set(instr, 7))
  }

  /** CMP and any instruction executed later on the flags it leaves, as after the next fetch: it
      is skipped unless its condition holds of the words compared, the unsigned conditions as
      the unsigned order, the signed ones as the signed order. */
  lemma CompareThenExecute(m: Machine, pc: word, cmp: word, n: Machine, at: word, next: word)
    requires Running(m) && Running(n) && Passed(ConditionOf(cmp), m.cpu.flags)
    requires IsProcessing(cmp) && OpcodeOf(cmp).CMP? && Sets(cmp) && Dest(cmp) != 15
    ensures var o := Execute(m, pc, cmp);
            && o.Done? && o.m.mem == m.mem && WritesOnly(m.cpu, o.m.cpu, cmp, 16)
            && (n.cpu.flags == o.m.cpu.flags ==>
                  Execute(n, at, next) ==
                    if Order(ConditionOf(next), First(m.cpu, cmp), Second(m.cpu, cmp)) then Dispatch(n, at, next)
                    else Done(n))
  {
    hide Nat, Int, Describes, Order, Passed, First, Second, WritesOnly, DataProcess, Set, ConditionOf;
    var a, b := First(m.cpu, cmp), Second(m.cpu, cmp);
    Arithmetic(m.cpu, cmp);
    DescribedOrder(DataProcess(m.cpu, cmp).flags, ConditionOf(next), a, b);
  }
}
