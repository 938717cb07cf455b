/** Status words bit by bit, what MRS reads and MSR writes, where BX goes, and what exceptions
    mask. */
module ArmStatus {
  import opened ArmState
  import opened ArmWords
  import opened ArmBanks
  import opened ArmPsr
  import opened ArmPsrLaws
  import opened ArmFlags
  import opened ArmBlock
  import opened ArmTransfer
  import opened ArmOperands
  import opened ArmExecute
  import opened ArmExceptions
  import opened ArmInstructions
  import opened ArmBits
  import opened ArmShifts
  import opened ArmJumps

  // ---- Where the fields are ----

  /** The condition flags as the number they make in the top four bits. */
  function FlagsNat(f: Flags): nat {
    0x8000_0000 * In(f.n) + 0x4000_0000 * In(f.z) + 0x2000_0000 * In(f.c) + 0x1000_0000 * In(f.v)
  }

  lemma EccNat(f: Flags)
    ensures Nat(ECC(f)) == FlagsNat(f)
  {
    if f.n {
      if f.z { if f.c { if f.v {} else {} } else { if f.v {} else {} } }
      else { if f.c { if f.v {} else {} } else { if f.v {} else {} } }
    } else {
      if f.z { if f.c { if f.v {} else {} } else { if f.v {} else {} } }
      else { if f.c { if f.v {} else {} } else { if f.v {} else {} } }
    }
  }

  lemma SmallNat(w: word)
    requires w <= 3
    ensures Nat(w) <= 3 && Nat(EINT(w)) == 0x40 * Nat(w) && Nat(ER15INT(w)) == 0x400_0000 * Nat(w)
  {
    if w == 0 {} else if w == 1 {} else if w == 2 {} else {}
  }

  /** The CPSR of a 26-bit mode: flags on top, the interrupt masks in bits 6 and 7, the mode in
      the lowest two. */
  lemma CpsrNat(c: Cpu)
    requires Ready(c)
    ensures Nat(GetCPSR(c)) == FlagsNat(c.flags) + 0x40 * Nat(c.iff) + Nat(c.mode)
  {
    hide Nat, ECC, EINT, Or, Apart, FlagsNat;
    EccFlags(c.flags);
    EccNat(c.flags);
    SmallNat(c.iff);
    CpsrParts(ECC(c.flags), c.iff, c.mode);
    OrNat(ECC(c.flags), EINT(c.iff));
    OrNat(Or(ECC(c.flags), EINT(c.iff)), c.mode);
  }

  lemma CpsrParts(cc: word, iff: word, mode: word)
    requires cc & 0x0fff_ffff == 0 && iff <= 3 && mode <= 3
    ensures Assemble(cc, EINT(iff), mode) == Or(Or(cc, EINT(iff)), mode)
    ensures Apart(cc, EINT(iff)) && Apart(Or(cc, EINT(iff)), mode)
  {}

  /** Register 15: flags on top, the interrupt masks in bits 26 and 27, the program counter, and
      the mode in the lowest two. */
  lemma R15Nat(c: Cpu)
    requires Ready(c)
    ensures Nat(GetR15(c)) == FlagsNat(c.flags) + 0x400_0000 * Nat(c.iff) + Nat(R15PC(c)) + Nat(c.mode)
  {
    hide Nat, ECC, ER15INT, Or, Apart, FlagsNat, PcOf;
    EccFlags(c.flags);
    EccNat(c.flags);
    SmallNat(c.iff);
    PcClear(c.reg[15]);
    var pc, cc, masks := PcOf(c.reg[15]), ECC(c.flags), ER15INT(c.iff);
    R15Parts(pc, cc, c.iff, c.mode);
    OrNat(pc, cc);
    OrNat(Or(pc, cc), masks);
    OrNat(Or(Or(pc, cc), masks), c.mode);
  }

  lemma R15Parts(pc: word, cc: word, iff: word, mode: word)
    requires pc & 0xfc00_0003 == 0 && cc & 0x0fff_ffff == 0 && iff <= 3 && mode <= 3
    ensures Or4(pc, cc, iff, mode) == Or(Or(Or(pc, cc), ER15INT(iff)), mode)
    ensures Apart(pc, cc) && Apart(Or(pc, cc), ER15INT(iff)) && Apart(Or(Or(pc, cc), ER15INT(iff)), mode)
  {
    hide Or, Apart, ER15INT, Or4;
    R15Or(pc, cc, iff, mode);
    R15Apart(pc, cc, iff);
    ModeApart(pc, cc, iff, mode);
  }

  lemma R15Or(pc: word, cc: word, iff: word, mode: word)
    ensures Or4(pc, cc, iff, mode) == Or(Or(Or(pc, cc), ER15INT(iff)), mode)
  {
    hide ER15INT;
  }

  lemma R15Apart(pc: word, cc: word, iff: word)
    requires pc & 0xfc00_0003 == 0 && cc & 0x0fff_ffff == 0 && iff <= 3
    ensures Apart(pc, cc) && Apart(Or(pc, cc), ER15INT(iff))
  {}

  lemma ModeApart(pc: word, cc: word, iff: word, mode: word)
    requires pc & 0xfc00_0003 == 0 && cc & 0x0fff_ffff == 0 && iff <= 3 && mode <= 3
    ensures Apart(Or(Or(pc, cc), ER15INT(iff)), mode)
  {}

  /** The flags of a status word are its top four bits. */
  lemma FlagsAt(w: word)
    ensures var f := FlagsOf(w);
            && (f.n <==> Nat(w) / Power(31) % 2 == 1) && (f.z <==> Nat(w) / Power(30) % 2 == 1)
            && (f.c <==> Nat(w) / Power(29) % 2 == 1) && (f.v <==> Nat(w) / Power(28) % 2 == 1)
  {
    hide Nat, BitOf, Power;
    TopFour(w);
    BitNat(w, 31);
    BitNat(w, 30);
    BitNat(w, 29);
    BitNat(w, 28);
  }

  lemma TopFour(w: word)
    ensures var f := FlagsOf(w);
            (f.n <==> BitOf(w, 31)) && (f.z <==> BitOf(w, 30)) && (f.c <==> BitOf(w, 29)) && (f.v <==> BitOf(w, 28))
  {}

  /** Its mode is the lowest two bits; its interrupt masks are bits 26 and 27 in register 15, and
      bits 6 and 7 in a CPSR. */
  lemma FieldsAt(w: word)
    ensures Nat(ModeOf(w)) == Nat(w) % 4 && ModeOf(w) <= 3
    ensures Nat(IntOf(w)) == Nat(w) / 0x400_0000 % 4 && Nat(CpsrInt(w)) == Nat(w) / 0x40 % 4
  {
    hide Nat, ModeOf, IntOf, CpsrInt;
    ModeIsReal(w);
    ModeAt(w);
    IntAt(w);
    CpsrIntAt(w);
  }

  lemma ModeAt(w: word)
    ensures Nat(ModeOf(w)) == Nat(w) % 4
  {
    hide Value, O3, O2, O1, O0, ModeOf, LowPair;
    ModeOctets(w);
    LowPairValue(O0(w));
    NoneValue();
  }

  lemma IntAt(w: word)
    ensures Nat(IntOf(w)) == Nat(w) / 0x400_0000 % 4
  {
    hide Value, O3, O2, O1, O0, IntOf, MiddleTwo;
    IntOctets(w);
    MiddleTwoValue(O3(w));
    NoneValue();
    assert Nat(w) / 0x400_0000 == Value(O3(w)) / 4;
  }

  lemma CpsrIntAt(w: word)
    ensures Nat(CpsrInt(w)) == Nat(w) / 0x40 % 4
  {
    hide Value, O3, O2, O1, O0, CpsrInt, TopTwo;
    CpsrIntOctets(w);
    TopTwoValue(O0(w));
    NoneValue();
    var high := Value(O3(w)) * 0x4_0000 + Value(O2(w)) * 0x400 + Value(O1(w)) * 4;
    assert Nat(w) / 0x40 == high + Value(O0(w)) / 0x40;
  }

  function LowPair(b: octet): octet {
    b & 3
  }

  function MiddleTwo(b: octet): octet {
    (b >> 2) & 3
  }

  function TopTwo(b: octet): octet {
    b >> 6
  }

  predicate OnlyLow(w: word, b: octet) {
    O3(w) == 0 && O2(w) == 0 && O1(w) == 0 && O0(w) == b
  }

  lemma ModeOctets(w: word)
    ensures OnlyLow(ModeOf(w), LowPair(O0(w)))
  {}

  lemma IntOctets(w: word)
    ensures OnlyLow(IntOf(w), MiddleTwo(O3(w)))
  {}

  lemma CpsrIntOctets(w: word)
    ensures OnlyLow(CpsrInt(w), TopTwo(O0(w)))
  {}

  lemma NoneValue()
    ensures Value(0) == 0
  {}

  lemma LowPairValue(b: octet)
    ensures Value(LowPair(b)) == Value(b) % 4
  {}

  lemma MiddleTwoValue(b: octet)
    ensures Value(MiddleTwo(b)) == Value(b) / 4 % 4
  {
    hide HighNibble, LowNibble, MiddleTwo;
    MiddleNibble(b);
    Quarter(HighNibble(b) as nat, LowNibble(b) as nat);
  }

  lemma MiddleNibble(b: octet)
    ensures Value(MiddleTwo(b)) == LowNibble(b) as nat / 4
  {}

  lemma Quarter(h: nat, l: nat)
    requires l < 0x10
    ensures (h * 0x10 + l) / 4 % 4 == l / 4
  {}

  lemma TopTwoValue(b: octet)
    ensures Value(TopTwo(b)) == Value(b) / 0x40
  {}

  /** What STR, STM and register shifts read of register 15: its status, and an address four
      bytes further on. */
  lemma AdvancedNat(c: Cpu, nonSeq: bool)
    requires Ready(c)
    ensures var d := IncPc(c, nonSeq);
            && Nat(R15PC(d)) == (Nat(R15PC(c)) + 4) % SPACE
            && Nat(GetR15(d)) == FlagsNat(c.flags) + 0x400_0000 * Nat(c.iff) + Nat(R15PC(d)) + Nat(c.mode)
  {
    hide Nat, FlagsNat, GetR15, PcOf, Forth;
    R15Nat(IncPc(c, nonSeq));
    ForthNat(c.reg[15]);
    PcNat(c.reg[15]);
    PcNat(Forth(c.reg[15]));
    SteppedForth(Nat(c.reg[15]), Nat(Forth(c.reg[15])));
  }

  lemma SteppedForth(r: nat, next: nat)
    requires next == (r + 4) % 0x1_0000_0000 && r < 0x1_0000_0000
    ensures next % SPACE / 4 * 4 == (r % SPACE / 4 * 4 + 4) % SPACE
  {
    var k := if r + 4 >= 0x1_0000_0000 then 1 else 0;
    Divided(r, 4);
    Folded(r, r % 4, r / 4, 0);
    Folded(next, r % 4, r / 4 + 1, k);
    var q, y := r / 4, 4 * (r / 4) % SPACE;
    Divided(4 * q, SPACE);
    Divided(y + 4, SPACE);
    DivUnique(4 * q + 4, SPACE, 4 * q / SPACE + (y + 4) / SPACE, (y + 4) % SPACE);
  }

  // ---- MRS ----

  /** MRS puts the CPSR or the current mode's SPSR into its destination; user mode, which has no
      SPSR, reads the CPSR either way. Nothing else changes. */
  lemma MrsReads(m: Machine, instr: word)
    requires Running(m) && IsMRS(instr) && Dest(instr) != 15 && (OpcodeOf(instr).TST? || OpcodeOf(instr).CMP?)
    ensures var c, o := m.cpu, StatusMove(m, instr);
            && o.Done? && o.m == m.(cpu := SetReg(c, Dest(instr), o.m.cpu.reg[Dest(instr)]))
            && if OpcodeOf(instr).TST? || c.bank == USERBANK then
                 Nat(o.m.cpu.reg[Dest(instr)]) == FlagsNat(c.flags) + 0x40 * Nat(c.iff) + Nat(c.mode)
               else o.m.cpu.reg[Dest(instr)] == c.spsr[c.bank]
  {
    hide OpcodeOf, IsMRS, Dest, GetCPSR, Nat, FlagsNat;
    CpsrNat(m.cpu);
  }

  // ---- MSR ----

  /** The fields an MSR selects: the flags by bit 19, masks and mode by bit 16. */
  predicate TakesFlags(instr: word) {
    instr & 0x8_0000 != 0
  }

  predicate TakesControl(instr: word) {
    instr & 0x1_0000 != 0
  }

  lemma MaskedFields(d: word, s: word, instr: word)
    requires !Set(instr, 17) && !Set(instr, 18)
    ensures var w := Masked(d, s, instr);
            && w & CCBITS == (if TakesFlags(instr) then s else d) & CCBITS
            && w & (INTBITS | MODEBITS) == (if TakesControl(instr) then s else d) & (INTBITS | MODEBITS)
  {}

  lemma FieldsFollow(d: word, s: word, w: word, instr: word)
    requires w & CCBITS == (if TakesFlags(instr) then s else d) & CCBITS
    requires w & (INTBITS | MODEBITS) == (if TakesControl(instr) then s else d) & (INTBITS | MODEBITS)
    ensures FlagsOf(w) == FlagsOf(if TakesFlags(instr) then s else d)
    ensures CpsrInt(w) == CpsrInt(if TakesControl(instr) then s else d)
    ensures ModeOf(w) == ModeOf(if TakesControl(instr) then s else d)
  {
    hide TakesFlags, TakesControl;
    SameTop(w, if TakesFlags(instr) then s else d);
    SameLow(w, if TakesControl(instr) then s else d);
  }

  lemma SameTop(v: word, w: word)
    requires v & CCBITS == w & CCBITS
    ensures FlagsOf(v) == FlagsOf(w)
  {
    SameFlags(v, w);
  }

  lemma SameLow(v: word, w: word)
    requires v & (INTBITS | MODEBITS) == w & (INTBITS | MODEBITS)
    ensures CpsrInt(v) == CpsrInt(w) && ModeOf(v) == ModeOf(w)
  {}

  /** MSR to the CPSR: the flags follow bit 19 of the instruction, and outside user mode masks and
      mode follow bit 16; the program counter and every bank's r0-r14 stay. */
  lemma MsrWrites(m: Machine, instr: word)
    requires Running(m) && OpcodeOf(instr).TEQ? && IsMSR(instr) && !IsBX(instr)
    ensures var c, o, v := m.cpu, StatusMove(m, instr), Second(m.cpu, instr);
            && o.Done? && o.m.mem == m.mem && SameBanked(c, o.m.cpu) && o.m.cpu.spsr == c.spsr
            && R15PC(o.m.cpu) == R15PC(Shifted(c, instr))
            && o.m.cpu.flags == (if TakesFlags(instr) then FlagsOf(v) else c.flags)
            && if c.mode != USER26 && TakesControl(instr) then o.m.cpu.mode == ModeOf(v) && o.m.cpu.iff == CpsrInt(v)
               else Confined(c, o.m.cpu)
  {
    hide OpcodeOf, IsBX, Dest, GetCPSR, PlainRHS, Masked, CPSRAltered, FlagsOf, CpsrInt, ModeOf, PcOf, Pack, TakesFlags;
    hide TakesControl, Set, SetCC, WritesFlags, SameBanked, Shifted, WritesOnly, FixCPSR;
    var v := Second(m.cpu, instr);
    var c := Shifted(m.cpu, instr);
    PlainShifted(m.cpu, instr);
    OperandBanked(m.cpu, instr);
    CpsrWritten(c, instr, v);
    BankedTransitive(m.cpu, c, FixCPSR(c, instr, v));
  }

  lemma OperandBanked(c: Cpu, instr: word)
    requires Ready(c)
    ensures var d := Shifted(c, instr); SameBanked(c, d) && d == c.(reg := d.reg, next := d.next)
  {
    hide ShiftsByReg, Forth, View, SameBanked;
    var d := Shifted(c, instr);
    if ShiftsByReg(instr) {
      SetRegBanked(c, Forth(c.reg[15]));
      StatusBanked(SetReg(c, 15, Forth(c.reg[15])), d);
      BankedTransitive(c, SetReg(c, 15, Forth(c.reg[15])), d);
    } else {
      StatusBanked(c, d);
    }
  }

  lemma FlagsBit(instr: word)
    ensures TakesFlags(instr) <==> WritesFlags(instr)
  {}

  lemma CpsrWritten(c: Cpu, instr: word, v: word)
    requires Ready(c) && !Set(instr, 17) && !Set(instr, 18)
    ensures var d := FixCPSR(c, instr, v);
            && SameBanked(c, d) && d.spsr == c.spsr && R15PC(d) == R15PC(c)
            && d.flags == (if TakesFlags(instr) then FlagsOf(v) else c.flags)
            && if c.mode != USER26 && TakesControl(instr) then d.mode == ModeOf(v) && d.iff == CpsrInt(v) else Confined(c, d)
  {
    hide Masked, CPSRAltered, FlagsOf, CpsrInt, ModeOf, PcOf, Pack, TakesControl, Set, SameBanked, Assemble, EINT, ECC;
    hide SetCC, WritesFlags, TakesFlags;
    var cpsr := GetCPSR(c);
    FlagsBit(instr);
    CpsrFields(c.flags, c.iff, c.mode);
    if c.bank == USERBANK {
      CPSRAlteredTakes(c, if WritesFlags(instr) then SetCC(cpsr, v) else cpsr);
      SetCCKeeps(cpsr, v);
    } else {
      CPSRAlteredTakes(c, Masked(cpsr, v, instr));
      MaskedFields(cpsr, v, instr);
      FieldsFollow(cpsr, v, Masked(cpsr, v, instr), instr);
    }
  }

  /** MSR to an SPSR: that of the current mode takes the same fields, and nothing else changes;
      user mode has none. */
  lemma MsrSaves(m: Machine, instr: word)
    requires Running(m) && OpcodeOf(instr).CMN? && IsMSR(instr)
    ensures var c, o, v := m.cpu, StatusMove(m, instr), Second(m.cpu, instr);
            && o.Done? && o.m.mem == m.mem && o.m.cpu == Shifted(c, instr).(spsr := o.m.cpu.spsr)
            && (c.bank == USERBANK ==> o.m.cpu.spsr == c.spsr)
            && (c.bank != USERBANK ==>
                  && o.m.cpu.spsr == c.spsr[c.bank := o.m.cpu.spsr[c.bank]]
                  && o.m.cpu.spsr[c.bank] & CCBITS == (if TakesFlags(instr) then v else c.spsr[c.bank]) & CCBITS
                  && o.m.cpu.spsr[c.bank] & (INTBITS | MODEBITS)
                       == (if TakesControl(instr) then v else c.spsr[c.bank]) & (INTBITS | MODEBITS))
  {
    hide OpcodeOf, IsBX, Dest, PlainRHS, Masked, TakesFlags, TakesControl, Set, ShiftsByReg, Forth;
    var c := m.cpu;
    PlainShifted(c, instr);
    if c.bank != USERBANK {
      MaskedFields(c.spsr[c.bank], Second(c, instr), instr);
    }
  }

  // ---- BX ----

  /** BX jumps to the program counter field of its register; an odd target, which asks for the
      other instruction set, is an undefined instruction. */
  lemma BxJumps(m: Machine, instr: word)
    requires Running(m) && OpcodeOf(instr).TEQ? && IsBX(instr)
    ensures var c, o, v := m.cpu, StatusMove(m, instr), m.cpu.reg[RHSReg(instr)];
            if Odd(v) && RHSReg(instr) != 15 then o == Trapped(m.(cpu := Abort(c, 4)))
            else
              && o.Done? && o.m.mem == m.mem && R15PC(o.m.cpu) == PcOf(v) && o.m.cpu.next.prime
              && o.m.cpu == c.(reg := c.reg[15 := o.m.cpu.reg[15]], next := o.m.cpu.next)
  {
    hide OpcodeOf, IsBX, Abort, RHSReg, PcOf, Odd, WordAligned, BranchTarget, IsMSR, FixCPSR, PlainRHS;
    TargetOf(m.cpu, instr);
  }

  lemma TargetOf(c: Cpu, instr: word)
    requires Ready(c)
    ensures var target, v := BranchTarget(c, instr), c.reg[RHSReg(instr)];
            PcOf(WordAligned(target)) == PcOf(v) && (Odd(target) <==> RHSReg(instr) != 15 && Odd(v))
  {
    hide RHSReg, PcOf, Odd, WordAligned;
    BxTarget(c.reg[RHSReg(instr)]);
  }

  lemma BxTarget(v: word)
    ensures PcOf(WordAligned(v)) == PcOf(v) && PcOf(WordAligned(v & 0xffff_fffe)) == PcOf(v) && !Odd(v & 0xffff_fffe)
  {}

  // ---- Exceptions ----

  /** Every exception masks interrupts, and only reset and fast interrupts mask fast interrupts
      too; these and interrupts have their modes, all others share supervisor mode. */
  lemma VectorMasks(c: Cpu, vector: word)
    requires Ready(c) && vector < 32 && vector & 3 == 0
    ensures var d := Abort(c, vector);
            && d.iff & 2 == 2 && d.iff & 1 == (if vector == 0 || vector == 28 then 1 else c.iff & 1) && d.iff <= 3
            && d.mode == if vector == 28 then FIQ26 else if vector == 24 then IRQ26 else SVC26
  {
    hide Abort, View, GetCPSR, GetR15, BankedExceptLink, PcOf, Back;
    AbortEnters(c, vector);
  }

  lemma BackForth(w: word)
    ensures Forth(Back(w)) == w
  {}

  /** The link an exception leaves is four bytes behind register 15, modulo 2^26. */
  lemma ExceptionLink(c: Cpu, vector: word)
    requires Ready(c) && 0 < vector < 32 && vector & 3 == 0
    ensures var d := Abort(c, vector);
            Nat(PcOf(View(d, d.bank, 14))) == (Nat(R15PC(c)) - 4) % SPACE
  {
    hide Abort, View, GetCPSR, Pack, BankedExceptLink, PcOf, Back, Nat, FlagsOf, Forth, ModeToBank, VectorMode, IntOf, ModeOf, Mask;
    AbortEnters(c, vector);
    PackFields(c.reg[15], c.flags, c.iff, c.mode);
    var r := GetR15(c);
    BackForth(r);
    ForthNat(Back(r));
    PcNat(r);
    PcNat(Back(r));
    SteppedBack(Nat(r), Nat(Back(r)));
  }

  lemma SteppedBack(r: nat, back: nat)
    requires r == (back + 4) % 0x1_0000_0000 && r < 0x1_0000_0000 && back < 0x1_0000_0000
    ensures back % SPACE / 4 * 4 == (r % SPACE / 4 * 4 - 4) % SPACE
  {
    var k := if back + 4 >= 0x1_0000_0000 then 1 else 0;
    Divided(r, 4);
    Folded(r, r % 4, r / 4, 0);
    Folded(back, r % 4, r / 4 - 1, -k);
    var q, y := r / 4, 4 * (r / 4) % SPACE;
    Divided(4 * q, SPACE);
    Divided(y - 4, SPACE);
    DivUnique(4 * q - 4, SPACE, 4 * q / SPACE + (y - 4) / SPACE, (y - 4) % SPACE);
  }

  // ---- What operands read ----

  lemma CountNat(w: word)
    ensures (w & 0xff) as nat == Nat(w) % 0x100
  {
    hide Nat;
    LowOctet(w);
    OctetLeftOver(w);
  }

  lemma LowOctet(w: word)
    ensures (w & 0xff) as nat == Value(O0(w))
  {}

  lemma OctetLeftOver(w: word)
    ensures Nat(w) % 0x100 == Value(O0(w))
  {
    hide Value, O3, O2, O1, O0;
    DivUnique(Nat(w), 0x100, Value(O3(w)) * 0x1_0000 + Value(O2(w)) * 0x100 + Value(O1(w)), Value(O0(w)));
  }

  /** Register 15 as an operand is read before or after a register shift advances it. */
  function Advanced(c: Cpu, late: bool): word
    requires Ready(c)
  {
    if late then Forth(c.reg[15]) else c.reg[15]
  }

  /** The left-hand operand is its register, and the right-hand one is shifted from its own; of
      register 15 the one takes the program counter alone, and the other the status bits as well.
      A shift by a register is by its lowest byte. */
  lemma OperandsRead(c: Cpu, instr: word)
    requires Ready(c)
    ensures var late := ShiftsByReg(instr) && !(Sets(instr) && !IsLogical(OpcodeOf(instr)));
            if Base(instr) == 15 then Nat(First(c, instr)) == Nat(Advanced(c, late)) % SPACE / 4 * 4
            else First(c, instr) == c.reg[Base(instr)]
    ensures if RHSReg(instr) == 15 then
              Nat(Unshifted(c, instr)) == FlagsNat(c.flags) + 0x400_0000 * Nat(c.iff)
                                          + Nat(Advanced(c, ShiftsByReg(instr))) % SPACE / 4 * 4 + Nat(c.mode)
            else Unshifted(c, instr) == c.reg[RHSReg(instr)]
    ensures ShiftsByReg(instr) && ShiftReg(instr) != 15 ==> Moves(c, instr) == Nat(c.reg[ShiftReg(instr)]) % 0x100
  {
    hide Nat, FlagsNat, First, Unshifted, Moves, ShiftsByReg, Sets, OpcodeOf, IsLogical, Base, RHSReg, ShiftReg, Forth;
    FirstReads(c, instr);
    SecondReads(c, instr);
    if ShiftsByReg(instr) && ShiftReg(instr) != 15 {
      CountReads(c, instr);
    }
    PcNat(c.reg[15]);
    PcNat(Forth(c.reg[15]));
  }

  lemma FirstReads(c: Cpu, instr: word)
    requires Ready(c)
    ensures var late := ShiftsByReg(instr) && !(Sets(instr) && !IsLogical(OpcodeOf(instr)));
            First(c, instr) == if Base(instr) == 15 then PcOf(Advanced(c, late)) else c.reg[Base(instr)]
  {
    hide Nat, PcOf, Forth, ShiftsByReg, Sets, OpcodeOf, IsLogical, Base;
  }

  lemma SecondReads(c: Cpu, instr: word)
    requires Ready(c)
    ensures if RHSReg(instr) == 15 then
              Nat(Unshifted(c, instr)) == FlagsNat(c.flags) + 0x400_0000 * Nat(c.iff)
                                          + Nat(PcOf(Advanced(c, ShiftsByReg(instr)))) + Nat(c.mode)
            else Unshifted(c, instr) == c.reg[RHSReg(instr)]
  {
    hide Nat, FlagsNat, GetR15, PcOf, Forth, ShiftsByReg, RHSReg;
    R15Nat(Shifted(c, instr));
  }

  lemma CountReads(c: Cpu, instr: word)
    requires Ready(c) && ShiftsByReg(instr) && ShiftReg(instr) != 15
    ensures Moves(c, instr) == Nat(c.reg[ShiftReg(instr)]) % 0x100
  {
    hide Nat, Forth, ShiftsByReg, ShiftReg;
    CountNat(c.reg[ShiftReg(instr)]);
  }

  lemma Low12Octets(w: word)
    ensures O3(Low12(w)) == 0 && O2(Low12(w)) == 0 && O1(Low12(w)) == LowFour(O1(w)) && O0(Low12(w)) == O0(w)
  {}

  function LowFour(b: octet): octet {
    b & 0xf
  }

  lemma LowFourValue(b: octet)
    ensures Value(LowFour(b)) == Value(b) % 0x10 && Value(0) == 0
  {}

  lemma Low12Digits(o3: int, o2: int, o1: int, o0: int)
    requires 0 <= o0 < 0x100 && 0 <= o1 < 0x100
    ensures (o3 * 0x100_0000 + o2 * 0x1_0000 + o1 * 0x100 + o0) % 0x1000 == o1 % 0x10 * 0x100 + o0
  {
    var high, low := o1 / 0x10, o1 % 0x10;
    assert o1 == high * 0x10 + low;
    DivUnique(o3 * 0x100_0000 + o2 * 0x1_0000 + o1 * 0x100 + o0, 0x1000, o3 * 0x1000 + o2 * 0x10 + high, low * 0x100 + o0);
  }

  lemma Low12Nat(w: word)
    ensures Nat(Low12(w)) == Nat(w) % 0x1000
  {
    hide Value, O3, O2, O1, O0, Low12, LowFour;
    Low12Octets(w);
    LowFourValue(O1(w));
    Low12Digits(Value(O3(w)), Value(O2(w)), Value(O1(w)), Value(O0(w)));
  }

  /** The offset of a transfer is the low twelve bits of its instruction, or a register shifted as
      the instruction says. */
  lemma OffsetReads(c: Cpu, instr: word)
    requires Ready(c)
    ensures var w, r := RHS(c, instr), LSRHS(c, instr);
            if !Set(instr, 25) then Nat(r) == Nat(instr) % 0x1000
            else
              && (RHSReg(instr) != 15 ==> w == c.reg[RHSReg(instr)])
              && if IsRrx(ShiftKind(instr), ShiftAmount(instr)) then Nat(r) == Nat(w) / 2 + if c.flags.c then 0x8000_0000 else 0
                 else Shifts(ShiftKind(instr), w, Places(ShiftKind(instr), ShiftAmount(instr)), r)
  {
    hide Nat, Shifts, ShiftByConst, ShiftKind, ShiftAmount, Low12, Set, GetR15, RHSReg;
    var w := RHS(c, instr);
    Low12Nat(instr);
    if Low12(instr) < 15 {
      ShortForm(instr);
      ShiftByConstMeans(0, w, 0, false);
      NotShifted(w);
    } else {
      ShiftByConstMeans(ShiftKind(instr), w, ShiftAmount(instr), c.flags.c);
    }
  }
}
