/** Where jumps go: B and BL, and results of data processing that are written to register 15. */
module ArmJumps {
  import opened ArmState
  import opened ArmWords
  import opened ArmFlags
  import opened ArmBanks
  import opened ArmPsr
  import opened ArmPsrLaws
  import opened ArmBlock
  import opened ArmTransfer
  import opened ArmOperands
  import opened ArmExecute
  import opened ArmBits
  import opened ArmShifts
  import opened ArmInstructions
  import opened ArmAccess
  import opened ArmLists
  import ArmExceptions

  const SPACE := 0x400_0000

  // ---- Addresses as integers ----

  function PlusFour(b: octet): octet {
    b + 4
  }

  function Next(b: octet, carry: bool): octet {
    if carry then b + 1 else b
  }

  predicate Full(b: octet) {
    b == 0xff
  }

  predicate Overflows(b: octet) {
    b >= 0xfc
  }

  /** Adding four ripples through the octets. */
  lemma ForthOctets(w: word)
    ensures O0(Forth(w)) == PlusFour(O0(w)) && O1(Forth(w)) == Next(O1(w), Overflows(O0(w)))
    ensures O2(Forth(w)) == Next(O2(w), Overflows(O0(w)) && Full(O1(w)))
    ensures O3(Forth(w)) == Next(O3(w), Overflows(O0(w)) && Full(O1(w)) && Full(O2(w)))
  {}

  lemma PlusFourValue(b: octet)
    ensures Value(PlusFour(b)) == Value(b) + 4 - (if Overflows(b) then 0x100 else 0)
  {}

  lemma NextValue(b: octet)
    ensures Value(Next(b, true)) == Value(b) + 1 - (if Full(b) then 0x100 else 0) && Next(b, false) == b
  {}

  lemma ForthNat(w: word)
    ensures Nat(Forth(w)) == (Nat(w) + 4) % 0x1_0000_0000
  {
    hide Nat, Forth, Full, Overflows, O3, O2, O1, O0;
    ForthSum(w);
  }

  lemma ForthSum(w: word)
    ensures var wraps := Overflows(O0(w)) && Full(O1(w)) && Full(O2(w)) && Full(O3(w));
            Nat(Forth(w)) == Nat(w) + 4 - (if wraps then 0x1_0000_0000 else 0)
  {
    hide Value, O3, O2, O1, O0, Forth, PlusFour, Next, Full, Overflows;
    ForthOctets(w);
    PlusFourValue(O0(w));
    NextValue(O1(w));
    NextValue(O2(w));
    NextValue(O3(w));
  }

  /** The program counter field of a word: 26 bits, the lowest two zero. */
  lemma PcNat(w: word)
    ensures Nat(PcOf(w)) == Nat(w) % SPACE / 4 * 4
  {
    hide Value, O3, O2, O1, O0, PcOf, LowTwo, HighSix;
    PcOctets(w);
    LowTwoValue(O3(w));
    HighSixValue(O0(w));
    PcDigits(Value(O3(w)), Value(O2(w)), Value(O1(w)), Value(O0(w)));
  }

  function LowTwo(b: octet): octet {
    b & 3
  }

  function HighSix(b: octet): octet {
    b & 0xfc
  }

  lemma PcOctets(w: word)
    ensures O3(PcOf(w)) == LowTwo(O3(w)) && O2(PcOf(w)) == O2(w) && O1(PcOf(w)) == O1(w) && O0(PcOf(w)) == HighSix(O0(w))
  {}

  lemma LowTwoValue(b: octet)
    ensures Value(LowTwo(b)) == Value(b) % 4
  {}

  lemma HighSixValue(b: octet)
    ensures Value(HighSix(b)) == Value(b) / 4 * 4
  {}

  lemma PcDigits(a: nat, b: nat, c: nat, d: nat)
    requires a < 0x100 && b < 0x100 && c < 0x100 && d < 0x100
    ensures (a * 0x100_0000 + b * 0x1_0000 + c * 0x100 + d) % SPACE / 4 * 4
              == a % 4 * 0x100_0000 + b * 0x1_0000 + c * 0x100 + d / 4 * 4
  {
    var low := a % 4 * 0x100_0000 + b * 0x1_0000 + c * 0x100 + d;
    Divided(a, 4);
    Divided(d, 4);
    DivUnique(a * 0x100_0000 + b * 0x1_0000 + c * 0x100 + d, SPACE, a / 4, low);
    DivUnique(low, 4, a % 4 * 0x40_0000 + b * 0x4000 + c * 0x40 + d / 4, d % 4);
  }

  // ---- B and BL ----

  /** The word offset in an instruction, as the signed 24-bit number it is. */
  function BranchWords(instr: word): int {
    var n := Nat(Low24(instr));
    if n >= 0x80_0000 then n - 0x100_0000 else n
  }

  function Low24(instr: word): word {
    instr & 0xff_ffff
  }

  /** The two ways the code makes the offset, by the sign, both give four times that number. */
  lemma OffsetIsSigned(instr: word)
    ensures Nat(BranchOffset(instr)) == 4 * BranchWords(instr) % 0x1_0000_0000
  {
    hide Nat, Twice, Or, Apart, Low24, BranchOffset;
    var n := Low24(instr);
    OffsetParts(instr);
    TwiceNat(n);
    TwiceNat(Twice(n));
    Low24Nat(instr);
    if Negative(instr) {
      OrNat(TOP, Twice(Twice(n)));
      TopNat();
    }
  }

  const TOP: word := 0xfc00_0000

  predicate Negative(instr: word) {
    instr & 0x80_0000 != 0
  }

  lemma SignTested(instr: word)
    ensures Set(instr, 23) <==> Negative(instr)
  {}

  lemma TopNat()
    ensures Nat(TOP) == 0xfc00_0000
  {}

  lemma OffsetParts(instr: word)
    ensures var four := Twice(Twice(Low24(instr)));
            && BranchOffset(instr) == (if Negative(instr) then Or(TOP, four) else four)
            && (Negative(instr) ==> Apart(TOP, four))
  {
    hide Set, Negative, Twice, Low24, Or, Apart;
    SignTested(instr);
    if Negative(instr) {
      Backwards(instr);
    } else {
      Forwards(instr);
    }
  }

  lemma Backwards(instr: word)
    ensures 0xfc00_0000 | ((instr & 0xff_ffff) << 2) == Or(TOP, Twice(Twice(Low24(instr))))
    ensures Apart(TOP, Twice(Twice(Low24(instr))))
  {}

  lemma Forwards(instr: word)
    requires !Negative(instr)
    ensures (instr & 0x7f_ffff) << 2 == Twice(Twice(Low24(instr)))
  {}

  lemma Low24Nat(instr: word)
    ensures Nat(Low24(instr)) < 0x100_0000 && (Negative(instr) <==> Nat(Low24(instr)) >= 0x80_0000)
  {
    hide Value, O3, O2, O1, O0, Low24, Negative;
    Low24Octets(instr);
    OctetTop(O2(Low24(instr)));
    NothingValue();
  }

  lemma NothingValue()
    ensures Value(0) == 0
  {}

  lemma Low24Octets(instr: word)
    ensures O3(Low24(instr)) == 0 && (Negative(instr) <==> O2(Low24(instr)) >> 7 != 0)
  {}

  lemma BranchToNat(pc: word, instr: word)
    ensures Nat(PcOf(BranchTo(pc, instr))) == (Nat(pc) / 4 * 4 + 8 + 4 * BranchWords(instr)) % SPACE
  {
    hide Nat, Word, PcOf, BranchOffset, BranchWords;
    var to := Nat(Plus(pc, 8, 0)) + Nat(BranchOffset(instr));
    EightNat();
    NatWord(Nat(pc) + 8);
    OffsetIsSigned(instr);
    NatWord(to);
    PcNat(BranchTo(pc, instr));
    Wrapped26(Nat(pc), BranchWords(instr), Nat(Plus(pc, 8, 0)), Nat(BranchOffset(instr)), Nat(BranchTo(pc, instr)));
  }

  lemma EightNat()
    ensures Nat(8) == 8
  {}

  lemma Wrapped26(pc: nat, words: int, ahead: int, offset: int, to: int)
    requires ahead == (pc + 8) % 0x1_0000_0000 && offset == 4 * words % 0x1_0000_0000
    requires to == (ahead + offset) % 0x1_0000_0000
    ensures to % SPACE / 4 * 4 == (pc / 4 * 4 + 8 + 4 * words) % SPACE
  {
    Divided(pc + 8, 0x1_0000_0000);
    Divided(4 * words, 0x1_0000_0000);
    Divided(ahead + offset, 0x1_0000_0000);
    Divided(pc, 4);
    Folded(to, pc % 4, pc / 4 + 2 + words,
           (pc + 8) / 0x1_0000_0000 + 4 * words / 0x1_0000_0000 + (ahead + offset) / 0x1_0000_0000);
  }

  lemma Folded(to: int, t: int, m: int, k: int)
    requires 0 <= t < 4 && to == 4 * m + t - 0x1_0000_0000 * k
    ensures to % SPACE / 4 * 4 == 4 * m % SPACE
  {
    var q, r := m / 0x100_0000, m % 0x100_0000;
    Divided(m, 0x100_0000);
    DivUnique(to, SPACE, q - 64 * k, 4 * r + t);
    DivUnique(4 * m, SPACE, q, 4 * r);
    DivUnique(4 * r + t, 4, r, t);
  }

  /** B and BL jump by four times the signed offset, counted from eight bytes ahead, round the
      26-bit address space; BL writes r14, and no other register changes. */
  lemma BranchGoes(c: Cpu, pc: word, instr: word)
    requires Ready(c)
    ensures var d := Branch(c, pc, instr);
            && Nat(R15PC(d)) == (Nat(pc) / 4 * 4 + 8 + 4 * BranchWords(instr)) % SPACE && d.next.prime
            && d == c.(reg := d.reg, next := d.next)
            && (forall k :: 0 <= k < 15 && !(k == 14 && Set(instr, 24)) ==> d.reg[k] == c.reg[k])
            && (Set(instr, 24) ==> d.reg[14] == Link(c, pc))
  {
    hide Nat, PcOf, BranchTo, BranchWords, Link, Set;
    BranchToNat(pc, instr);
  }

  /** The link BL leaves is the address four bytes on with the current status, except that behind
      the last word of the address space the carry lands on the lower interrupt mask. */
  lemma LinkReturns(c: Cpu, pc: word)
    requires Ready(c) && PcOf(pc) == pc
    ensures var w := Link(c, pc);
            && Nat(PcOf(w)) == (Nat(pc) + 4) % SPACE && FlagsOf(w) == c.flags && ModeOf(w) == c.mode
            && (IntOf(w) == c.iff <==> Nat(pc) + 4 < SPACE || Odd(c.iff))
  {
    hide Nat, PcOf, FlagsOf, IntOf, ModeOf, ECC, Or4, Forth, Odd;
    EccFlags(c.flags);
    ForthNat(pc);
    PcNat(pc);
    PcNat(Forth(pc));
    LastWord(pc);
    if pc == LAST {
      PastLast(ECC(c.flags), c.iff, c.mode);
    } else {
      JoinFlags(Forth(pc), ECC(c.flags), c.iff, c.mode);
      JoinPc(Forth(pc), ECC(c.flags), c.iff, c.mode);
      JoinInt(Forth(pc), ECC(c.flags), c.iff, c.mode);
    }
  }

  const LAST: word := 0x03ff_fffc

  lemma LastWord(pc: word)
    requires PcOf(pc) == pc
    ensures pc == LAST <==> Nat(pc) + 4 == SPACE
    ensures pc != LAST ==> Forth(pc) & 0xfc00_0003 == 0 && PcOf(Forth(pc)) == Forth(pc)
    ensures pc == LAST ==> Forth(pc) == 0x0400_0000
  {
    hide Nat, PcOf;
    LastNat();
    if Nat(pc) + 4 == SPACE {
      WordNat(pc);
      WordNat(LAST);
    }
    if pc != LAST {
      BeforeLast(pc);
    }
  }

  lemma LastNat()
    ensures Nat(LAST) == SPACE - 4
  {}

  lemma BeforeLast(pc: word)
    requires PcOf(pc) == pc && pc != LAST
    ensures Forth(pc) & 0xfc00_0003 == 0 && PcOf(Forth(pc)) == Forth(pc)
  {}

  lemma PastLast(cc: word, iff: word, mode: word)
    requires cc & 0x0fff_ffff == 0 && iff <= 3 && mode <= 3
    ensures var w := Or4(0x0400_0000, cc, iff, mode);
            && PcOf(w) == PcOf(0x0400_0000) && FlagsOf(w) == FlagsOf(cc) && ModeOf(w) == mode
            && (IntOf(w) == iff <==> Odd(iff))
  {
    PastLastFlags(cc, iff, mode);
    PastLastRest(cc, iff, mode);
  }

  lemma PastLastFlags(cc: word, iff: word, mode: word)
    requires cc & 0x0fff_ffff == 0 && iff <= 3 && mode <= 3
    ensures FlagsOf(Or4(0x0400_0000, cc, iff, mode)) == FlagsOf(cc)
  {
    var w := Or4(0x0400_0000, cc, iff, mode);
    assert w & 0x8000_0000 == cc & 0x8000_0000 && w & 0x4000_0000 == cc & 0x4000_0000;
    assert w & 0x2000_0000 == cc & 0x2000_0000 && w & 0x1000_0000 == cc & 0x1000_0000;
  }

  lemma PastLastRest(cc: word, iff: word, mode: word)
    requires cc & 0x0fff_ffff == 0 && iff <= 3 && mode <= 3
    ensures var w := Or4(0x0400_0000, cc, iff, mode);
            PcOf(w) == PcOf(0x0400_0000) && ModeOf(w) == mode && (IntOf(w) == iff <==> Odd(iff))
  {}

  // ---- Results written to register 15 ----

  /** The value data processing computes, and the processor it is computed in: as reading the
      operands left it, with flags that only the S bit changes. */
  ghost predicate EvaluatesAs(c: Cpu, instr: word)
    requires Ready(c) && Readable(instr)
  {
    var o := Evaluate(c, instr);
    && o.value == Result(OpcodeOf(instr), First(c, instr), Second(c, instr), c.flags.c)
    && o.cpu == Shifted(c, instr).(flags := o.cpu.flags) && (!Sets(instr) ==> o.cpu.flags == c.flags)
  }

  lemma EvaluatesTo(c: Cpu, instr: word)
    requires Ready(c) && Readable(instr) && !ToPsr(instr)
    ensures EvaluatesAs(c, instr)
  {
    hide EvaluatesAs, OpcodeOf, Sets, ToPsr, BareR15, IsImmediate, IsLogical;
    if Sets(instr) && IsLogical(OpcodeOf(instr)) {
      EvaluatesLogical(c, instr);
    } else {
      EvaluatesPlain(c, instr);
    }
  }

  lemma EvaluatesLogical(c: Cpu, instr: word)
    requires Ready(c) && Readable(instr) && !ToPsr(instr) && Sets(instr) && IsLogical(OpcodeOf(instr))
    ensures EvaluatesAs(c, instr)
  {
    hide Shifted, PlainRHS, LogicalRHS, LHS, OpcodeOf, Sets, NegZero, BareR15, IsImmediate, IsTest, ToPsr, Result;
    hide WritesOnly;
    PlainShifted(c, instr);
    CarryFree(OpcodeOf(instr), LHS(Shifted(c, instr), instr), Second(c, instr), c.flags.c);
    LogicalShifted(c, instr);
    LogicalReads(c, instr);
  }

  lemma EvaluatesPlain(c: Cpu, instr: word)
    requires Ready(c) && Readable(instr) && !ToPsr(instr) && !(Sets(instr) && IsLogical(OpcodeOf(instr)))
    ensures EvaluatesAs(c, instr)
  {
    hide Shifted, PlainRHS, LHS, OpcodeOf, Sets, ArithmeticFlags, BareR15, IsImmediate, IsTest, IsLogical, ToPsr, Result;
    hide WritesOnly;
    PlainShifted(c, instr);
  }

  lemma ShiftedBanked(c: Cpu, instr: word, f: Flags)
    requires Ready(c)
    ensures SameBanked(c, Shifted(c, instr).(flags := f)) && Confined(c, Shifted(c, instr))
    ensures Shifted(c, instr).spsr == c.spsr
  {
    hide ShiftsByReg, Forth, View, SameBanked;
    var d := Shifted(c, instr).(flags := f);
    if ShiftsByReg(instr) {
      var v := Forth(c.reg[15]);
      ArmExceptions.SetRegBanked(c, v);
      ArmExceptions.StatusBanked(SetReg(c, 15, v), d);
      ArmExceptions.BankedTransitive(c, SetReg(c, 15, v), d);
    } else {
      ArmExceptions.StatusBanked(c, d);
    }
  }

  /** A result for register 15 is a jump to its program counter field. Without the S bit nothing
      else changes; with it the flags are taken from the result too, and outside user mode also
      mode and interrupt masks. No bank's r0-r14 change. */
  lemma ResultJumps(c: Cpu, instr: word)
    requires Ready(c) && Readable(instr) && Dest(instr) == 15 && !IsTest(OpcodeOf(instr))
    ensures var d, v := DataProcess(c, instr), Result(OpcodeOf(instr), First(c, instr), Second(c, instr), c.flags.c);
            && R15PC(d) == PcOf(v) && d.next.prime && SameBanked(c, d) && d.spsr == c.spsr
            && d.flags == (if Sets(instr) then FlagsOf(v) else c.flags)
            && if Sets(instr) && c.mode != USER26 then d.mode == ModeOf(v) && d.iff == IntOf(v) else Confined(c, d)
  {
    hide Evaluate, OpcodeOf, Result, First, Second, Shifted, SameBanked, PcOf, FlagsOf, ModeOf, IntOf, Dest, Sets, Readable;
    hide WriteR15, WriteSR15, SetR15, Pack;
    var o := Evaluate(c, instr);
    EvaluatesTo(c, instr);
    ShiftedBanked(c, instr, o.cpu.flags);
    var w := Incoming(o.cpu, o.value, Sets(instr));
    WrittenIs(o.cpu, o.value);
    IncomingFields(o.cpu, o.value, Sets(instr));
    ArmExceptions.SetR15Banked(o.cpu, w);
    ArmExceptions.BankedTransitive(c, o.cpu, SetR15(o.cpu, w));
  }

  /** What register 15 becomes. */
  function Incoming(c: Cpu, v: word, sets: bool): word {
    if !sets then Pack(v, c.flags, c.iff, c.mode)
    else if c.bank == USERBANK then Pack(v, FlagsOf(v), c.iff, c.mode)
    else v
  }

  lemma WrittenIs(c: Cpu, v: word)
    requires Ready(c)
    ensures WriteR15(c, v) == SetR15(c, Incoming(c, v, false)) && WriteSR15(c, v) == SetR15(c, Incoming(c, v, true))
  {
    hide Pack, R15Altered, FlagsOf;
  }

  lemma IncomingFields(c: Cpu, v: word, sets: bool)
    requires Ready(c)
    ensures var w := Incoming(c, v, sets);
            && PcOf(w) == PcOf(v) && FlagsOf(w) == (if sets then FlagsOf(v) else c.flags)
            && ModeOf(w) == (if sets && c.mode != USER26 then ModeOf(v) else c.mode)
            && IntOf(w) == (if sets && c.mode != USER26 then IntOf(v) else c.iff)
  {
    hide Pack, FlagsOf, PcOf, ModeOf, IntOf;
    PackFields(v, c.flags, c.iff, c.mode);
    PackFields(v, FlagsOf(v), c.iff, c.mode);
  }

  /** The address an arithmetic result jumps to. */
  lemma ArithmeticJumps(c: Cpu, instr: word)
    requires Ready(c) && Dest(instr) == 15 && !IsLogical(OpcodeOf(instr)) && !IsTest(OpcodeOf(instr))
    ensures var op := OpcodeOf(instr);
            Nat(R15PC(DataProcess(c, instr))) ==
              Exact(op, Nat(First(c, instr)), Nat(Second(c, instr)), c.flags.c) % SPACE / 4 * 4
  {
    hide Nat, PcOf, Exact, Result, OpcodeOf, First, Second, Dest, DataProcess, SameBanked, FlagsOf, ModeOf, IntOf;
    var op, a, b := OpcodeOf(instr), First(c, instr), Second(c, instr);
    var exact := Exact(op, Nat(a), Nat(b), c.flags.c);
    ResultJumps(c, instr);
    ResultExact(op, a, b, c.flags.c);
    PcNat(Result(op, a, b, c.flags.c));
    Divided(exact, SPACE);
    Divided(exact, 0x1_0000_0000);
    DivUnique(exact % 0x1_0000_0000, SPACE, exact / SPACE - 64 * (exact / 0x1_0000_0000), exact % SPACE);
  }

  // ---- Register 15 loaded from memory ----

  /** The processor when a load has written register 15. */
  function Landed(c: Cpu, v: word): (d: Cpu)
    requires Ready(c)
    ensures Ready(d)
  {
    WriteR15(IncPc(c, false), v)
  }

  lemma LoadPcIs(m: Machine, instr: word)
    requires Running(m) && Loads(instr) && Dest(instr) == 15 && SingleTransfer(m, instr).Done?
    ensures var c, a := m.cpu, Address(m.cpu, instr);
            && Reaches(a, instr)
            && var d := Landed(c, LoadValue(m, instr, a));
               && (WritesBack(instr) ==> Base(instr) != 15)
               && SingleTransfer(m, instr).m == m.(cpu :=
                    if WritesBack(instr)
                    then SetReg(d, Base(instr), if Before(instr) then a else ArmAccess.Moved(d, LHS(c, instr), instr))
                    else d)
  {
    hide Nat, Offset, LSRHS, LHS, Before, Up, Writes, Loads, Dest, Base, Lane, IncPc, Set, Abort, WriteR15;
    InMemory(Address(m.cpu, instr));
  }

  lemma LandedAt(c: Cpu, v: word)
    requires Ready(c)
    ensures var d := Landed(c, v);
            && R15PC(d) == PcOf(v) && d.next.prime && d.flags == c.flags && Confined(c, d) && d.spsr == c.spsr
            && d.regBank == c.regBank && (forall k :: 0 <= k < 15 ==> d.reg[k] == c.reg[k])
  {
    hide Pack, FlagsOf, IntOf, ModeOf, Forth, SwitchMode, PcOf;
    PackFields(v, c.flags, c.iff, c.mode);
  }

  /** LDR and LDRB to register 15 jump to the program counter field of what they load and leave
      the status alone; of the other registers only a base written back changes. */
  lemma LoadJumps(m: Machine, instr: word)
    requires Running(m) && Loads(instr) && Dest(instr) == 15 && SingleTransfer(m, instr).Done?
    ensures var n, a := SingleTransfer(m, instr).m, Address(m.cpu, instr);
            && n.mem == m.mem && Reaches(a, instr) && R15PC(n.cpu) == PcOf(LoadValue(m, instr, a)) && n.cpu.next.prime
            && n.cpu.flags == m.cpu.flags && Confined(m.cpu, n.cpu) && n.cpu.spsr == m.cpu.spsr
            && n.cpu.regBank == m.cpu.regBank
            && (forall k :: 0 <= k < 15 && !(WritesBack(instr) && k == Base(instr)) ==> n.cpu.reg[k] == m.cpu.reg[k])
            && (WritesBack(instr) ==>
                  BaseMoved(m.cpu, Landed(m.cpu, LoadValue(m, instr, a)), instr, n.cpu.reg[Base(instr)]))
  {
    hide Nat, Offset, LSRHS, LHS, Before, Up, WritesBack, Loads, Base, Landed, PcOf, Dest, SingleTransfer, Address, Signed;
    hide LoadValue, Reaches;
    var a := Address(m.cpu, instr);
    LoadPcIs(m, instr);
    var d := Landed(m.cpu, LoadValue(m, instr, a));
    LandedAt(m.cpu, LoadValue(m, instr, a));
    OffsetNat(LHS(m.cpu, instr), LSRHS(d, instr), Up(instr));
  }

  /** What LDM with the S bit and register 15 in its list has loaded, before the status follows. */
  function Restored(m: Machine, instr: word): (d: Cpu)
    requires Running(m) && InReach(m, instr)
    ensures Ready(d)
  {
    var a := Ahead(m.cpu, instr, false);
    a.(reg := Loaded(a.reg, instr, m.mem, LowWord(m.cpu, instr)))
  }

  lemma ReturnIs(m: Machine, instr: word)
    requires Running(m) && Loads(instr) && UserForm(instr) && Listed(instr, 15) && BlockTransfer(m, instr).Done?
    ensures InReach(m, instr) && BlockTransfer(m, instr) == Done(m.(cpu := TakeR15(Restored(m, instr))))
  {
    hide Listed, Nat, Start, Final, Set, Field, Forth, Rank, InReach, LowWord, Loaded, IncPc, WriteBack, Transferable, TakeR15;
    hide ToUserBank, FromUserBank;
    ReachFromStart(m, instr);
  }

  /** LDM with the S bit and register 15 in its list loads the current bank, as the plain form
      does, and then jumps with the status of the last word: in user mode its flags alone, else
      mode and masks too; no bank's registers change with the status. */
  lemma ListReturns(m: Machine, instr: word)
    requires Running(m) && Loads(instr) && UserForm(instr) && Listed(instr, 15) && BlockTransfer(m, instr).Done?
    ensures InReach(m, instr) && 0 <= LowWord(m.cpu, instr) + Rank(instr, 15) < MEMWORDS
    ensures var n, l := BlockTransfer(m, instr).m, Restored(m, instr);
            var v := m.mem[LowWord(m.cpu, instr) + Rank(instr, 15)];
            && n.mem == m.mem && n.cpu.reg[15] == v && n.cpu.next.prime && SameBanked(l, n.cpu)
            && n.cpu.flags == FlagsOf(v)
            && (if m.cpu.mode == USER26 then Confined(m.cpu, n.cpu) else n.cpu.mode == ModeOf(v) && n.cpu.iff == IntOf(v))
            && (forall r :: 0 <= r < 15 ==>
                  if Listed(instr, r) then
                    LowWord(m.cpu, instr) + Rank(instr, r) < MEMWORDS
                    && l.reg[r] == m.mem[LowWord(m.cpu, instr) + Rank(instr, r)]
                  else if BaseWritten(instr) && r == Base(instr) then
                    Nat(l.reg[r]) == ArmLists.Moved(Nat(m.cpu.reg[r]), instr, Count(instr))
                  else l.reg[r] == m.cpu.reg[r])
  {
    hide Listed, Nat, Rank, ArmLists.Moved, Loaded, Ahead, BlockTransfer, Base, BaseWritten, Loads, UserForm, LowWord;
    hide FlagsOf, IntOf, ModeOf, TakeR15, SameBanked, Forth;
    ReturnIs(m, instr);
    AheadOf(m.cpu, instr, false);
    LoadedWords(Ahead(m.cpu, instr, false).reg, instr, m.mem, LowWord(m.cpu, instr));
    StatusTaken(Restored(m, instr));
  }

  lemma StatusTaken(c: Cpu)
    requires Ready(c)
    ensures var d, v := TakeR15(c), c.reg[15];
            && d.reg[15] == v && d.next.prime && SameBanked(c, d) && d.flags == FlagsOf(v)
            && if c.mode == USER26 then Confined(c, d) else d.mode == ModeOf(v) && d.iff == IntOf(v)
  {
    hide FlagsOf, IntOf, ModeOf, SameBanked, R15Altered;
    if c.mode == USER26 {
      ArmExceptions.StatusBanked(c, TakeR15(c));
    } else {
      assert SetReg(c, 15, c.reg[15]) == c;
      ArmExceptions.SetR15Banked(c, c.reg[15]);
    }
  }
}
