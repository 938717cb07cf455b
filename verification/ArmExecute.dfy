/** One instruction of the 26-bit emulator, from the condition field to the new state. */
module ArmExecute {
  import opened ArmState
  import opened ArmWords
  import opened ArmFlags
  import opened ArmPsr
  import opened ArmBlock
  import opened ArmTransfer
  import opened ArmOperands
  import ArmMultiply

  // ---- Results ----

  /** `WRITEDEST` */
  function WriteDest(c: Cpu, instr: word, v: word): (d: Cpu)
    requires Ready(c)
    ensures Ready(d)
  {
    if Dest(instr) == 15 then WriteR15(c, v) else SetReg(c, Dest(instr), v)
  }

  /** `WRITESDEST` */
  function WriteSDest(c: Cpu, instr: word, v: word): (d: Cpu)
    requires Ready(c)
    ensures Ready(d)
  {
    if Dest(instr) == 15 then WriteSR15(c, v)
    else SetReg(c, Dest(instr), v).(flags := NegZero(c.flags, v))
  }

  function WithFlags(c: Cpu, f: Flags): (d: Cpu)
    requires Ready(c)
    ensures Ready(d)
  {
    c.(flags := f)
  }

  // ---- Data processing ----

  datatype Opcode = AND | EOR | SUB | RSB | ADD | ADC | SBC | RSC | TST | TEQ | CMP | CMN | ORR | MOV | BIC | MVN

  function OpcodeOf(instr: word): Opcode {
    var k := Field(instr, 21);
    if k == 0 then AND else if k == 1 then EOR else if k == 2 then SUB else if k == 3 then RSB
    else if k == 4 then ADD else if k == 5 then ADC else if k == 6 then SBC else if k == 7 then RSC
    else if k == 8 then TST else if k == 9 then TEQ else if k == 10 then CMP else if k == 11 then CMN
    else if k == 12 then ORR else if k == 13 then MOV else if k == 14 then BIC else MVN
  }

  predicate IsTest(op: Opcode) {
    op.TST? || op.TEQ? || op.CMP? || op.CMN?
  }

  /** Operations that take C from the shifter. */
  predicate IsLogical(op: Opcode) {
    op.AND? || op.EOR? || op.TST? || op.TEQ? || op.ORR? || op.MOV? || op.BIC? || op.MVN?
  }

  /** The result of an operation, tests included. */
  function Result(op: Opcode, lhs: word, rhs: word, carry: bool): word {
    match op
    case AND => And(lhs, rhs)
    case TST => And(lhs, rhs)
    case EOR => Xor(lhs, rhs)
    case TEQ => Xor(lhs, rhs)
    case SUB => Minus(lhs, rhs, 0)
    case CMP => Minus(lhs, rhs, 0)
    case RSB => Minus(rhs, lhs, 0)
    case ADD => Plus(lhs, rhs, 0)
    case CMN => Plus(lhs, rhs, 0)
    case ADC => Plus(lhs, rhs, In(carry))
    case SBC => Minus(lhs, rhs, In(!carry))
    case RSC => Minus(rhs, lhs, In(!carry))
    case ORR => Or(lhs, rhs)
    case MOV => rhs
    case BIC => And(lhs, Not(rhs))
    case MVN => Not(rhs)
  }

  /** C and V (and for sums N and Z) of an arithmetic operation. */
  function ArithmeticFlags(op: Opcode, f: Flags, lhs: word, rhs: word, dest: word): Flags {
    match op
    case ADD => AddFlags(f, lhs, rhs, dest)
    case ADC => AddFlags(f, lhs, rhs, dest)
    case CMN => AddFlags(f, lhs, rhs, dest)
    case RSB => SubFlags(f, rhs, lhs, dest)
    case RSC => SubFlags(f, rhs, lhs, dest)
    case CMP => SubFlags(NegZero(f, dest), lhs, rhs, dest)
    case _ => SubFlags(f, lhs, rhs, dest)
  }

  /** The S bit. */
  predicate Sets(instr: word) {
    Set(instr, 20)
  }

  /** TSTP, TEQP, CMPP and CMNP. */
  predicate ToPsr(instr: word) {
    IsTest(OpcodeOf(instr)) && Sets(instr) && Dest(instr) == 15
  }

  /** Whether the operand is one the model reads: not register 15 unshifted, where a logical
      operation with the S bit asks the carry of a left shift by zero. */
  predicate Readable(instr: word) {
    Sets(instr) && IsLogical(OpcodeOf(instr)) && !ToPsr(instr) ==> IsImmediate(instr) || !BareR15(instr)
  }

  /** The result of an operation, and the processor after its operand and flags. */
  function Evaluate(c: Cpu, instr: word): (o: Operand)
    requires Ready(c) && Readable(instr)
    ensures Ready(o.cpu)
  {
    var op := OpcodeOf(instr);
    if !Sets(instr) || ToPsr(instr) then
      var o := PlainRHS(c, instr);
      Operand(o.cpu, Result(op, LHS(o.cpu, instr), o.value, o.cpu.flags.c))
    else if IsLogical(op) then
      var o := LogicalRHS(c, instr);
      var v := Result(op, LHS(o.cpu, instr), o.value, false);
      Operand(if IsTest(op) then WithFlags(o.cpu, NegZero(o.cpu.flags, v)) else o.cpu, v)
    else
      var lhs := LHS(c, instr);
      var o := PlainRHS(c, instr);
      var v := Result(op, lhs, o.value, o.cpu.flags.c);
      Operand(WithFlags(o.cpu, ArithmeticFlags(op, o.cpu.flags, lhs, o.value, v)), v)
  }

  function DataProcess(c: Cpu, instr: word): (d: Cpu)
    requires Ready(c) && Readable(instr)
    ensures Ready(d)
  {
    var o := Evaluate(c, instr);
    if ToPsr(instr) then SetR15PSR(o.cpu, o.value)
    else if IsTest(OpcodeOf(instr)) then o.cpu
    else if Sets(instr) then WriteSDest(o.cpu, instr, o.value)
    else WriteDest(o.cpu, instr, o.value)
  }

  // ---- The status register moves, in the encodings of tests without the S bit ----

  predicate IsMRS(instr: word) {
    !IsImmediate(instr) && Low12(instr) == 0 && Base(instr) == 15
  }

  predicate IsMSR(instr: word) {
    Dest(instr) == 15 && !Set(instr, 17) && !Set(instr, 18)
  }

  predicate IsBX(instr: word) {
    (instr >> 4) & 0xff_ffff == 0x12_fff1
  }

  /** `GETSPSR`: the user bank has none and gives the CPSR. */
  function GetSPSR(c: Cpu): word
    requires Ready(c)
  {
    if c.bank > 0 then c.spsr[c.bank] else GetCPSR(c)
  }

  /** The target of BX; bit 0 asks for the instruction set this build does not have. */
  function BranchTarget(c: Cpu, instr: word): word
    requires Ready(c)
  {
    if RHSReg(instr) == 15 then c.reg[15] & 0xffff_fffe else c.reg[RHSReg(instr)]
  }

  function WordAligned(w: word): word {
    w & 0xffff_fffc
  }

  function Jump(c: Cpu, v: word): (d: Cpu)
    requires Ready(c)
    ensures Ready(d)
  {
    FlushPipe(SetReg(c, 15, v))
  }

  function StatusMove(m: Machine, instr: word): (o: Outcome)
    requires Running(m)
    ensures !o.Outside? ==> Running(o.m)
  {
    var c := m.cpu;
    match OpcodeOf(instr)
    case TST =>
      if IsMRS(instr) then
        if Dest(instr) == 15 then Outside else Done(m.(cpu := SetReg(c, Dest(instr), GetCPSR(c))))
      else Done(m)
    case TEQ =>
      if IsBX(instr) then
        var target := BranchTarget(c, instr);
        if Odd(target) then Trapped(m.(cpu := Abort(c, 4)))
        else Done(m.(cpu := Jump(c, WordAligned(target))))
      else if IsMSR(instr) then
        var o := PlainRHS(c, instr);
        Done(m.(cpu := FixCPSR(o.cpu, instr, o.value)))
      else Done(m)
    case CMP =>
      if IsMRS(instr) then
        if Dest(instr) == 15 then Outside else Done(m.(cpu := SetReg(c, Dest(instr), GetSPSR(c))))
      else Done(m)
    case _ =>
      if IsMSR(instr) then
        var o := PlainRHS(c, instr);
        Done(m.(cpu := FixSPSR(o.cpu, instr, o.value)))
      else Done(m)
  }

  /** Instructions with bits 25-27 clear or 25 alone, apart from multiplies and swaps. */
  function Processing(m: Machine, instr: word): (o: Outcome)
    requires Running(m)
    ensures !o.Outside? ==> Running(o.m)
  {
    if IsTest(OpcodeOf(instr)) && !Sets(instr) then StatusMove(m, instr)
    else if !Readable(instr) then Outside
    else Done(m.(cpu := DataProcess(m.cpu, instr)))
  }

  // ---- Multiplies and swaps ----

  /** MUL and MLA: destination, operands and addend in their own fields. */
  function Multiply(c: Cpu, instr: word): (d: Cpu)
    requires Ready(c) && Field(instr, 16) != 15
    ensures Ready(d)
  {
    var rm, rd := Field(instr, 0), Field(instr, 16);
    var addend := if Set(instr, 21) then Nat(c.reg[Field(instr, 12)]) else 0;
    var v := if rm == rd then Word(addend) else Word(Nat(c.reg[rm]) * Nat(c.reg[Field(instr, 8)]) + addend);
    SetReg(c, rd, v).(flags := if Set(instr, 20) then NegZero(c.flags, v) else c.flags)
  }

  function LongMultiply(c: Cpu, instr: word): (d: Cpu)
    requires Ready(c) && ArmMultiply.Legal(instr)
    ensures Ready(d)
  {
    if Set(instr, 21) then ArmMultiply.MultiplyAdd64(c, instr, Set(instr, 22), Set(instr, 20))
    else ArmMultiply.Multiply64(c, instr, Set(instr, 22), Set(instr, 20))
  }

  /** The aligned word an address is in. */
  function WordAt(address: word): (w: nat)
    ensures !AddressException(address) ==> w < MEMWORDS
  {
    Nat(address) / 4
  }

  /** The byte of `w` at a byte address, and `w` with it replaced. */
  function Lane(w: word, address: word): word {
    var k := Nat(address) % 4;
    Glue(0, 0, 0, if k == 0 then O0(w) else if k == 1 then O1(w) else if k == 2 then O2(w) else O3(w))
  }

  function SetLane(w: word, address: word, v: word): word {
    var k := Nat(address) % 4;
    Glue(if k == 3 then O0(v) else O3(w), if k == 2 then O0(v) else O2(w),
         if k == 1 then O0(v) else O1(w), if k == 0 then O0(v) else O0(w))
  }

  function Swap(m: Machine, instr: word): (o: Outcome)
    requires Running(m)
    ensures !o.Outside? ==> Running(o.m)
  {
    var address := LHS(m.cpu, instr);
    var c := IncPc(m.cpu, false);
    var byte := Set(instr, 22);
    if AddressException(address) || (!byte && Nat(address) % 4 != 0) || Dest(instr) == 15 then Outside
    else
      var w := WordAt(address);
      var was := m.mem[w];
      var v := c.reg[RHSReg(instr)];
      Done(Machine(SetReg(c, Dest(instr), if byte then Lane(was, address) else was),
                   m.mem[w := if byte then SetLane(was, address, v) else v]))
  }

  /** Bits 4-7 of a multiply or swap. */
  predicate IsMultiply(instr: word) {
    (instr >> 4) & 0xf == 9
  }

  /** Instructions with bits 4 and 7 set: multiplies and swaps, or halfword transfers, which are
      outside. */
  function Multiplies(m: Machine, instr: word): (o: Outcome)
    requires Running(m)
    ensures !o.Outside? ==> Running(o.m)
  {
    if !IsMultiply(instr) then Outside
    else if !Set(instr, 24) && !Set(instr, 23) then
      if Set(instr, 22) || Field(instr, 16) == 15 then Outside else Done(m.(cpu := Multiply(m.cpu, instr)))
    else if !Set(instr, 24) then
      if ArmMultiply.Legal(instr) then Done(m.(cpu := LongMultiply(m.cpu, instr))) else Outside
    else if !Set(instr, 23) && !Set(instr, 21) && !Set(instr, 20) && Field(instr, 8) == 0 then Swap(m, instr)
    else Outside
  }

  // ---- Single transfers ----

  function Offset(base: word, off: word, up: bool): word {
    if up then Plus(base, off, 0) else Minus(base, off, 0)
  }

  /** The transfer itself: the new state, and whether the base may be written back. */
  datatype Access = Access(o: Outcome, back: bool)

  function LoadAccess(m: Machine, instr: word, address: word): (a: Access)
    requires Running(m)
    ensures !a.o.Outside? ==> Running(a.o.m)
  {
    var c := IncPc(m.cpu, false);
    var byte := Set(instr, 22);
    if AddressException(address) then Access(Trapped(m.(cpu := Abort(c, 20))), false)
    else if !byte && Nat(address) % 4 != 0 then Access(Outside, false)
    else
      var w := m.mem[WordAt(address)];
      Access(Done(m.(cpu := WriteDest(c, instr, if byte then Lane(w, address) else w))), Dest(instr) != Base(instr))
  }

  function StoreAccess(m: Machine, instr: word, address: word): (a: Access)
    requires Running(m)
    ensures !a.o.Outside? ==> Running(a.o.m)
  {
    var b := IncPc(m.cpu, true);
    var c := if Dest(instr) == 15 then PatchR15(b) else b;
    var byte := Set(instr, 22);
    if AddressException(address) then Access(Trapped(m.(cpu := Abort(c, 20))), false)
    else if !byte && Nat(address) % 4 != 0 then Access(Outside, false)
    else
      var v := c.reg[Dest(instr)];
      var w := WordAt(address);
      Access(Done(Machine(c, m.mem[w := if byte then SetLane(m.mem[w], address, v) else v])), true)
  }

  function Transfer(m: Machine, instr: word, address: word): (a: Access)
    requires Running(m)
    ensures !a.o.Outside? ==> Running(a.o.m)
  {
    if Loads(instr) then LoadAccess(m, instr, address) else StoreAccess(m, instr, address)
  }

  function BaseSet(m: Machine, instr: word, v: word): (n: Machine)
    requires Running(m)
    ensures Running(n)
  {
    m.(cpu := SetReg(m.cpu, Base(instr), v))
  }

  /** LDR and STR. A post-indexed base is found from the offset register as the load left it. */
  function SingleTransfer(m: Machine, instr: word): (o: Outcome)
    requires Running(m)
    ensures !o.Outside? ==> Running(o.m)
  {
    var base := LHS(m.cpu, instr);
    var pre := Before(instr);
    var address := if pre then Offset(base, LSRHS(m.cpu, instr), Up(instr)) else base;
    var back := !pre || Writes(instr);
    if back && Base(instr) == 15 then Outside
    else
      var a := Transfer(m, instr, address);
      if !a.o.Done? || !a.back || !back then a.o
      else Done(BaseSet(a.o.m, instr, if pre then address else Offset(base, LSRHS(a.o.m.cpu, instr), Up(instr))))
  }

  // ---- Branches ----

  /** `POSBRANCH` and `NEGBRANCH` */
  function BranchOffset(instr: word): word {
    if Set(instr, 23) then 0xfc00_0000 | ((instr & 0xff_ffff) << 2) else (instr & 0x7f_ffff) << 2
  }

  function BranchTo(pc: word, instr: word): word {
    Plus(Plus(pc, 8, 0), BranchOffset(instr), 0)
  }

  /** The return address of BL, with the status bits. */
  function Link(c: Cpu, pc: word): word {
    Or4(Forth(pc), ECC(c.flags), c.iff, c.mode)
  }

  /** B and BL. */
  function Branch(c: Cpu, pc: word, instr: word): (d: Cpu)
    requires Ready(c)
    ensures Ready(d)
  {
    var linked := if Set(instr, 24) then SetReg(c, 14, Link(c, pc)) else c;
    Jump(linked, BranchTo(pc, instr))
  }

  // ---- Dispatch ----

  /** An instruction whose condition has passed. */
  function Dispatch(m: Machine, pc: word, instr: word): (o: Outcome)
    requires Running(m)
    ensures !o.Outside? ==> Running(o.m)
  {
    if !Set(instr, 27) && !Set(instr, 26) then
      if !Set(instr, 25) && Set(instr, 4) && Set(instr, 7) then Multiplies(m, instr) else Processing(m, instr)
    else if !Set(instr, 27) then
      if Set(instr, 25) && Set(instr, 4) then Trapped(m.(cpu := Abort(m.cpu, 4))) else SingleTransfer(m, instr)
    else if Set(instr, 26) then Outside
    else if !Set(instr, 25) then BlockTransfer(m, instr)
    else Done(m.(cpu := Branch(m.cpu, pc, instr)))
  }

  /** The instruction at `pc`, its condition included. */
  function Execute(m: Machine, pc: word, instr: word): (o: Outcome)
    requires Running(m)
    ensures !o.Outside? ==> Running(o.m)
  {
    if !Passed(ConditionOf(instr), m.cpu.flags) then Done(m) else Dispatch(m, pc, instr)
  }
}
