/** Instruction words of the ARM Architecture Reference Manual (DDI 0100), decoded and executed:
    the fields the emulator takes from each encoding, and what whole instructions do on every
    machine. */
module ArmEncodings {
  import opened ArmState
  import opened ArmWords
  import opened ArmFlags
  import opened ArmPsr
  import opened ArmBlock
  import opened ArmTransfer
  import opened ArmOperands
  import opened ArmExecute
  import ArmMultiply
  import opened ArmBits
  import opened ArmShifts
  import opened ArmInstructions
  import opened ArmJumps
  import opened ArmAccess
  import opened ArmLists
  import opened ArmProducts
  import opened ArmStatus

  // ---- Condition and operation codes ----

  lemma LowConditions()
    ensures ConditionOf(0x0000_0000) == EQ && ConditionOf(0x1000_0000) == NE
    ensures ConditionOf(0x2000_0000) == CS && ConditionOf(0x3000_0000) == CC
    ensures ConditionOf(0x4000_0000) == MI && ConditionOf(0x5000_0000) == PL
    ensures ConditionOf(0x6000_0000) == VS && ConditionOf(0x7000_0000) == VC
  {}

  lemma HighConditions()
    ensures ConditionOf(0x8000_0000) == HI && ConditionOf(0x9000_0000) == LS
    ensures ConditionOf(0xa000_0000) == GE && ConditionOf(0xb000_0000) == LT
    ensures ConditionOf(0xc000_0000) == GT && ConditionOf(0xd000_0000) == LE
    ensures ConditionOf(0xe000_0000) == AL && ConditionOf(0xf000_0000) == NV
  {}

  lemma LowOpcodes()
    ensures OpcodeOf(0xe000_0000) == AND && OpcodeOf(0xe020_0000) == EOR
    ensures OpcodeOf(0xe040_0000) == SUB && OpcodeOf(0xe060_0000) == RSB
    ensures OpcodeOf(0xe080_0000) == ADD && OpcodeOf(0xe0a0_0000) == ADC
    ensures OpcodeOf(0xe0c0_0000) == SBC && OpcodeOf(0xe0e0_0000) == RSC
  {}

  lemma HighOpcodes()
    ensures OpcodeOf(0xe110_0000) == TST && OpcodeOf(0xe130_0000) == TEQ
    ensures OpcodeOf(0xe150_0000) == CMP && OpcodeOf(0xe170_0000) == CMN
    ensures OpcodeOf(0xe180_0000) == ORR && OpcodeOf(0xe1a0_0000) == MOV
    ensures OpcodeOf(0xe1c0_0000) == BIC && OpcodeOf(0xe1e0_0000) == MVN
  {}

  // ---- Operands ----

  /** ADDS r1, r2, r3, LSR #4 */
  lemma RegisterOperand()
    ensures var i: word := 0xe092_1223;
            && IsProcessing(i) && OpcodeOf(i) == ADD && Sets(i) && !IsImmediate(i) && Dest(i) == 1 && Base(i) == 2
            && RHSReg(i) == 3 && !ShiftsByReg(i) && ShiftKind(i) == 1 && ShiftAmount(i) == 4
  {}

  /** MOV r1, r2, ASR r3 */
  lemma RegisterCount()
    ensures var i: word := 0xe1a0_1352;
            && IsProcessing(i) && OpcodeOf(i) == MOV && !Sets(i) && !IsImmediate(i) && Dest(i) == 1
            && RHSReg(i) == 2 && ShiftsByReg(i) && ShiftKind(i) == 2 && ShiftReg(i) == 3
  {}

  /** SUB r4, r5, #0xff0 */
  lemma ImmediateOperand()
    ensures var i: word := 0xe245_4eff;
            && IsProcessing(i) && OpcodeOf(i) == SUB && !Sets(i) && IsImmediate(i) && Dest(i) == 4 && Base(i) == 5
            && Immediate(i) == 0xff0
  {
    hide Rotate;
    Turned();
  }

  lemma Turned()
    ensures Rotate(0xff, 28) == 0xff0
  {
    hide Amount;
    AmountIs(4);
    AmountIs(28);
    TurnedBy(Amount(4), Amount(28));
  }

  lemma TurnedBy(a: bv5, b: bv5)
    requires a as nat == 4 && b as nat == 28
    ensures ((0xff as word) << a) | ((0xff as word) >> b) == 0xff0
  {
    assert a == 4 && b == 28;
  }

  // ---- Transfers ----

  /** LDR r1, [r2, #4]! and STRB r1, [r2], -r3, LSL #2 */
  lemma SingleTransfers()
    ensures var i: word := 0xe5b2_1004;
            && Loads(i) && !IsByte(i) && Before(i) && Up(i) && Writes(i) && !Set(i, 25) && Dest(i) == 1 && Base(i) == 2
            && Low12(i) == 4
    ensures var i: word := 0xe642_1103;
            && !Loads(i) && IsByte(i) && !Before(i) && !Up(i) && !Writes(i) && Set(i, 25) && Dest(i) == 1 && Base(i) == 2
            && RHSReg(i) == 3 && ShiftKind(i) == 0 && ShiftAmount(i) == 2
  {}

  /** LDMIA sp!, {r1, pc}, STMDB sp!, {r4, lr} and LDMIB r2, {r3}^ */
  lemma BlockTransfers()
    ensures var i: word := 0xe8bd_8002;
            Loads(i) && !Before(i) && Up(i) && Writes(i) && !UserForm(i) && Base(i) == 13
    ensures var i: word := 0xe92d_4010;
            !Loads(i) && Before(i) && !Up(i) && Writes(i) && !UserForm(i) && Base(i) == 13
    ensures var i: word := 0xe9d2_0008;
            Loads(i) && Before(i) && Up(i) && !Writes(i) && UserForm(i) && Base(i) == 2
  {}

  /** A register list that holds just two registers, as bits 0-15 tell. */
  lemma ListsTwo(i: word, q: nat, s: nat)
    requires q < s < 16 && forall r: nat :: r < 16 ==> (Listed(i, r) <==> r == q || r == s)
    ensures Count(i) == 2 && Rank(i, q) == 0 && Rank(i, s) == 1
  {
    hide Listed;
    RankFlat(i, 0, q);
    RankFlat(i, q + 1, s);
    RankFlat(i, s + 1, 16);
  }

  lemma {:induction false} RankFlat(i: word, lo: nat, hi: nat)
    requires lo <= hi <= 16 && forall r: nat :: lo <= r < hi ==> !Listed(i, r)
    ensures Rank(i, hi) == Rank(i, lo)
    decreases hi
  {
    hide Listed;
    if lo < hi {
      RankFlat(i, lo, hi - 1);
    }
  }

  // ---- Multiplies, swaps, status moves, branches ----

  /** MLA r0, r1, r2, r3 and SMLALS r0, r1, r2, r3 */
  lemma Multiplications()
    ensures var i: word := 0xe020_3291;
            && IsMultiply(i) && !Set(i, 24) && !Set(i, 23) && !Set(i, 22) && Set(i, 21) && !Set(i, 20)
            && Field(i, 16) == 0 && Field(i, 12) == 3 && Field(i, 8) == 2 && Field(i, 0) == 1
    ensures var i: word := 0xe0f1_0392;
            && IsMultiply(i) && !Set(i, 24) && Set(i, 23) && Set(i, 22) && Set(i, 21) && Set(i, 20)
            && ArmMultiply.RdHi(i) == 1 && ArmMultiply.RdLo(i) == 0
            && ArmMultiply.Rs(i) == 3 && ArmMultiply.Rm(i) == 2 && ArmMultiply.Legal(i)
  {}

  /** MRS r1, CPSR, MRS r1, SPSR, MSR CPSR_f, r1, MSR SPSR_fc, r1 and BX r1 */
  lemma StatusMoves()
    ensures IsMRS(0xe10f_1000) && OpcodeOf(0xe10f_1000) == TST && Dest(0xe10f_1000) == 1
    ensures IsMRS(0xe14f_1000) && OpcodeOf(0xe14f_1000) == CMP
    ensures var i: word := 0xe128_f001; IsMSR(i) && OpcodeOf(i) == TEQ && TakesFlags(i) && !TakesControl(i) && !IsBX(i)
    ensures var i: word := 0xe169_f001; IsMSR(i) && OpcodeOf(i) == CMN && TakesFlags(i) && TakesControl(i)
    ensures IsBX(0xe12f_ff11) && OpcodeOf(0xe12f_ff11) == TEQ && RHSReg(0xe12f_ff11) == 1
  {}

  /** B to itself */
  lemma Branches()
    ensures BranchWords(0xeaff_fffe) == -2 && BranchWords(0xeb00_0001) == 1
    ensures !Set(0xeaff_fffe, 24) && Set(0xeb00_0001, 24)
  {}

  // ---- Which words are which instructions ----

  /** The encodings the manual gives as bit patterns: MRS, MSR, BX, and multiplies with swaps. */
  lemma MoveForms(i: word)
    ensures IsMRS(i) <==> i & 0x020f_0fff == 0x000f_0000
    ensures IsMSR(i) <==> i & 0x0006_f000 == 0x0000_f000
    ensures IsBX(i) <==> i & 0x0fff_fff0 == 0x012f_ff10
    ensures IsMultiply(i) <==> i & 0x0000_00f0 == 0x0000_0090
  {
    hide IsMRS, IsMSR, IsBX, IsMultiply;
    MrsForm(i);
    MsrForm(i);
    BxForm(i);
    MultiplyForm(i);
  }

  lemma MrsForm(i: word)
    ensures IsMRS(i) <==> i & 0x020f_0fff == 0x000f_0000
  {
    hide Field;
    FifteenAt(i, 16);
    FifteenBits(i);
  }

  lemma FifteenAt(i: word, low: nat)
    requires low <= 28
    ensures Field(i, low) == 15 <==> (i >> low) & 0xf == 0xf
  {}

  lemma FifteenBits(i: word)
    ensures (i >> 16) & 0xf == 0xf <==> i & 0x000f_0000 == 0x000f_0000
    ensures (i >> 12) & 0xf == 0xf <==> i & 0xf000 == 0xf000
  {}

  lemma MsrForm(i: word)
    ensures IsMSR(i) <==> i & 0x0006_f000 == 0x0000_f000
  {
    hide Field;
    FifteenAt(i, 12);
    FifteenBits(i);
  }

  lemma BxForm(i: word)
    ensures IsBX(i) <==> i & 0x0fff_fff0 == 0x012f_ff10
  {}

  lemma MultiplyForm(i: word)
    ensures IsMultiply(i) <==> i & 0x0000_00f0 == 0x0000_0090
  {}

  lemma TopBits(i: word)
    ensures Set(i, 27) <==> i & 0x0800_0000 != 0
    ensures Set(i, 26) <==> i & 0x0400_0000 != 0
    ensures Set(i, 25) <==> i & 0x0200_0000 != 0
    ensures Set(i, 7) <==> i & 0x80 != 0
    ensures Set(i, 4) <==> i & 0x10 != 0
  {}

  lemma Classes(i: word)
    ensures i & 0x0c00_0000 == 0 <==> i & 0x0800_0000 == 0 && i & 0x0400_0000 == 0
    ensures i & 0x0c00_0000 == 0x0400_0000 <==> i & 0x0800_0000 == 0 && i & 0x0400_0000 != 0
    ensures i & 0x0e00_0000 == 0x0800_0000 <==> i & 0x0800_0000 != 0 && i & 0x0400_0000 == 0 && i & 0x0200_0000 == 0
    ensures i & 0x0e00_0000 == 0x0a00_0000 <==> i & 0x0800_0000 != 0 && i & 0x0400_0000 == 0 && i & 0x0200_0000 != 0
    ensures i & 0x0200_0090 == 0x90 <==> i & 0x0200_0000 == 0 && i & 0x10 != 0 && i & 0x80 != 0
    ensures i & 0x0200_0010 == 0x0200_0010 <==> i & 0x0200_0000 != 0 && i & 0x10 != 0
  {}

  /** What an instruction word whose condition holds is executed as. */
  lemma Dispatched(m: Machine, pc: word, i: word)
    requires Running(m)
    ensures Dispatch(m, pc, i) ==
      if i & 0x0c00_0000 == 0 then if i & 0x0200_0090 == 0x90 then Multiplies(m, i) else Processing(m, i)
      else if i & 0x0c00_0000 == 0x0400_0000 then
        if i & 0x0200_0010 == 0x0200_0010 then Trapped(m.(cpu := Abort(m.cpu, 4))) else SingleTransfer(m, i)
      else if i & 0x0e00_0000 == 0x0800_0000 then BlockTransfer(m, i)
      else if i & 0x0e00_0000 == 0x0a00_0000 then Done(m.(cpu := ArmExecute.Branch(m.cpu, pc, i)))
      else Outside
  {
    hide Set, Multiplies, Processing, SingleTransfer, BlockTransfer, ArmExecute.Branch, Abort;
    TopBits(i);
    Classes(i);
  }

  lemma MultiplyBits(i: word)
    ensures Set(i, 24) <==> i & 0x0100_0000 != 0
    ensures Set(i, 23) <==> i & 0x0080_0000 != 0
    ensures Set(i, 22) <==> i & 0x0040_0000 != 0
    ensures Set(i, 21) <==> i & 0x0020_0000 != 0
    ensures Set(i, 20) <==> i & 0x0010_0000 != 0
  {}

  lemma MultiplyClasses(i: word)
    ensures i & 0x01c0_0000 == 0 <==> i & 0x0100_0000 == 0 && i & 0x0080_0000 == 0 && i & 0x0040_0000 == 0
    ensures i & 0x0180_0000 == 0x0080_0000 <==> i & 0x0100_0000 == 0 && i & 0x0080_0000 != 0
    ensures i & 0x01b0_0f00 == 0x0100_0000 <==>
      && i & 0x0100_0000 != 0 && i & 0x0080_0000 == 0 && i & 0x0020_0000 == 0 && i & 0x0010_0000 == 0
      && i & 0x0000_0f00 == 0
  {}

  lemma ZeroAt(i: word)
    ensures Field(i, 8) == 0 <==> i & 0x0000_0f00 == 0
  {}

  /** The pair of a long multiply are two registers, neither of which is the second factor, and
      register 15 has no part in it. */
  predicate FieldsDiffer(i: word) {
    && Field(i, 16) != Field(i, 12) && Field(i, 8) !in {Field(i, 16), Field(i, 12)}
    && 15 !in {Field(i, 16), Field(i, 12), Field(i, 8), Field(i, 0)}
  }

  /** Which of the words with bits 4 and 7 set multiply and which swap. */
  lemma MultipliesAs(m: Machine, i: word)
    requires Running(m)
    ensures Multiplies(m, i) ==
      if i & 0x0000_00f0 != 0x0000_0090 then Outside
      else if i & 0x01c0_0000 == 0 && Field(i, 16) != 15 then Done(m.(cpu := ArmExecute.Multiply(m.cpu, i)))
      else if i & 0x0180_0000 == 0x0080_0000 && FieldsDiffer(i) then Done(m.(cpu := LongMultiply(m.cpu, i)))
      else if i & 0x01b0_0f00 == 0x0100_0000 then Swap(m, i)
      else Outside
  {
    hide Set, Field, IsMultiply, ArmExecute.Multiply, LongMultiply, Swap;
    MultiplyForm(i);
    MultiplyBits(i);
    MultiplyClasses(i);
    ZeroAt(i);
  }

  // ---- Whole instructions, on every machine ----

  const ADDS: word := 0xe092_1223

  lemma AddsOperands(c: Cpu)
    requires Ready(c)
    ensures First(c, ADDS) == c.reg[2] && Unshifted(c, ADDS) == c.reg[3] && Moves(c, ADDS) == 4 && !Extends(ADDS)
    ensures Shifted(c, ADDS) == c && Target(ADDS) == 1 && Power(4) == 16
  {
    hide Set, OpcodeOf, Sets, Dest, Base, RHSReg, IsImmediate, ShiftKind, ShiftAmount, ShiftsByReg, PcOf, GetR15;
    RegisterOperand();
  }

  lemma Executes(m: Machine, pc: word, i: word)
    requires Running(m) && ConditionOf(i) == AL && IsProcessing(i) && !IsTest(OpcodeOf(i)) && Readable(i)
    ensures Execute(m, pc, i) == Done(m.(cpu := DataProcess(m.cpu, i)))
  {
    hide ConditionOf, Set, DataProcess, Readable;
  }

  /** ADDS r1, r2, r3, LSR #4 adds a sixteenth of r3 to r2. */
  lemma AddsShifted(m: Machine, pc: word)
    requires Running(m)
    ensures var o, r := Execute(m, pc, ADDS), m.cpu.reg;
            var sum := Nat(r[2]) + Nat(r[3]) / 16;
            && o.Done? && o.m.mem == m.mem && Nat(o.m.cpu.reg[1]) == sum % M
            && (o.m.cpu.flags.c <==> sum >= M) && (o.m.cpu.flags.z <==> sum % M == 0)
            && forall k :: 0 <= k < 16 && k != 1 ==> o.m.cpu.reg[k] == r[k]
  {
    hide Nat, Int, DataProcess, First, Second, OpcodeOf, Sets, Dest, Base, IsImmediate, ConditionOf, Set, Execute;
    hide Unshifted, Moves, Extends, Shifted, ShiftKind, Readable, IsProcessing, Target, Power;
    RegisterOperand();
    Always();
    AddsReadable();
    Executes(m, pc, ADDS);
    Arithmetic(m.cpu, ADDS);
    AddsOperands(m.cpu);
    ShiftedOperand(m.cpu, ADDS);
  }

  lemma AddsReadable()
    ensures Readable(ADDS)
  {
    hide Set;
    RegisterOperand();
  }

  lemma Always()
    ensures ConditionOf(ADDS) == AL && ConditionOf(MUL) == AL && ConditionOf(LDMIA) == AL && ConditionOf(STMDB) == AL
  {}

  const MUL: word := 0xe000_0291

  /** MUL r0, r1, r2 */
  lemma MulFields()
    ensures Field(MUL, 16) == 0 && Field(MUL, 8) == 2 && Field(MUL, 0) == 1 && IsMultiply(MUL)
    ensures !Set(MUL, 27) && !Set(MUL, 26) && !Set(MUL, 25) && Set(MUL, 4) && Set(MUL, 7)
    ensures !Set(MUL, 24) && !Set(MUL, 23) && !Set(MUL, 22) && !Set(MUL, 21) && !Set(MUL, 20)
  {}

  lemma Products(m: Machine, pc: word)
    requires Running(m)
    ensures var o, r := Execute(m, pc, MUL), m.cpu.reg;
            && o.Done? && o.m.mem == m.mem && Nat(o.m.cpu.reg[0]) == Nat(r[1]) * Nat(r[2]) % M
            && o.m.cpu == m.cpu.(reg := r[0 := o.m.cpu.reg[0]])
  {
    hide Nat, Field, Set, ConditionOf, IsMultiply, ArmExecute.Multiply;
    MulFields();
    Always();
    Multiplied(m.cpu, MUL);
  }

  const LDMIA: word := 0xe890_0006

  /** LDMIA r0, {r1, r2} */
  lemma LdmiaFields()
    ensures Loads(LDMIA) && !Before(LDMIA) && Up(LDMIA) && !Writes(LDMIA) && !UserForm(LDMIA) && Base(LDMIA) == 0
    ensures Set(LDMIA, 27) && !Set(LDMIA, 26) && !Set(LDMIA, 25)
    ensures forall r: nat :: r < 16 ==> (Listed(LDMIA, r) <==> r == 1 || r == 2)
  {}

  lemma ExecutesList(m: Machine, pc: word, i: word)
    requires Running(m) && ConditionOf(i) == AL && Set(i, 27) && !Set(i, 26) && !Set(i, 25)
    ensures Execute(m, pc, i) == BlockTransfer(m, i)
  {
    hide ConditionOf, Set, BlockTransfer;
  }

  ghost predicate LoadedTwo(m: Machine, n: Machine, w: nat)
    requires Running(m) && Running(n) && w + 2 <= MEMWORDS
  {
    && n.mem == m.mem && n.cpu.reg[1] == m.mem[w] && n.cpu.reg[2] == m.mem[w + 1]
    && forall k :: 0 <= k < 15 && k != 1 && k != 2 ==> n.cpu.reg[k] == m.cpu.reg[k]
  }

  /** It loads the two words from the address in r0 up. */
  lemma LoadsTwo(m: Machine, pc: word, w: nat)
    requires Running(m) && Nat(m.cpu.reg[0]) == 4 * w && w + 2 <= MEMWORDS
    ensures var o := Execute(m, pc, LDMIA); o.Done? && LoadedTwo(m, o.m, w)
  {
    hide Nat, Loads, Before, Up, Writes, UserForm, Base, Set, Listed, ConditionOf, Rank, Forth, BlockTransfer, Start;
    hide Execute;
    LdmiaFields();
    Always();
    ExecutesList(m, pc, LDMIA);
    ListsTwo(LDMIA, 1, 2);
    StartIsLowest(m.cpu.reg[0], LDMIA);
    InMemory(Start(m.cpu.reg[0], LDMIA));
    BlockDone(m, LDMIA);
    LoadsList(m, LDMIA);
  }

  const STMDB: word := 0xe92d_4010

  /** STMDB sp!, {r4, lr} */
  lemma StmdbFields()
    ensures !Loads(STMDB) && Before(STMDB) && !Up(STMDB) && Writes(STMDB) && !UserForm(STMDB) && Base(STMDB) == 13
    ensures Set(STMDB, 27) && !Set(STMDB, 26) && !Set(STMDB, 25)
    ensures forall r: nat :: r < 16 ==> (Listed(STMDB, r) <==> r == 4 || r == 14)
  {}

  ghost predicate PushedTwo(m: Machine, n: Machine, w: nat)
    requires Running(m) && Running(n) && 2 <= w <= MEMWORDS
  {
    && n.mem == m.mem[w - 2 := m.cpu.reg[4]][w - 1 := m.cpu.reg[14]]
    && Nat(n.cpu.reg[13]) == Nat(m.cpu.reg[13]) - 8
    && forall k :: 0 <= k < 15 && k != 13 ==> n.cpu.reg[k] == m.cpu.reg[k]
  }

  /** It pushes the two registers below the stack pointer, and moves that by eight bytes. */
  lemma PushesTwo(m: Machine, pc: word, w: nat)
    requires Running(m) && Nat(m.cpu.reg[13]) == 4 * w && 2 <= w <= MEMWORDS
    ensures var o := Execute(m, pc, STMDB); o.Done? && PushedTwo(m, o.m, w)
  {
    hide Nat, Loads, Before, Up, Writes, UserForm, Base, Set, Listed, ConditionOf, Rank, GetR15, Final, BlockTransfer, Start;
    hide Execute;
    StmdbFields();
    Always();
    ExecutesList(m, pc, STMDB);
    ListsTwo(STMDB, 4, 14);
    StartIsLowest(m.cpu.reg[13], STMDB);
    InMemory(Start(m.cpu.reg[13], STMDB));
    BlockDone(m, STMDB);
    StoresList(m, STMDB);
  }
}
