/** What status writes can and cannot do: user mode cannot leave itself, and an exception
    entered and returned from is transparent. */
module ArmPsrLaws {
  import opened ArmState
  import opened ArmBanks
  import opened ArmPsr

  /** Mode, register bank and interrupt masks are the same. */
  predicate Confined(c: Cpu, d: Cpu) {
    d.mode == c.mode && d.bank == c.bank && d.iff == c.iff
  }

  lemma WriteR15Confined(c: Cpu, src: word)
    requires Ready(c)
    ensures Confined(c, WriteR15(c, src)) && WriteR15(c, src).flags == c.flags
    ensures PcOf(WriteR15(c, src).reg[15]) == PcOf(src)
  {
    hide Pack, PcOf, FlagsOf, IntOf, ModeOf, ModeToBank;
    PackFields(src, c.flags, c.iff, c.mode);
  }

  lemma WriteSR15Confined(c: Cpu, src: word)
    requires Ready(c) && c.mode == USER26
    ensures Confined(c, WriteSR15(c, src)) && WriteSR15(c, src).flags == FlagsOf(src)
    ensures PcOf(WriteSR15(c, src).reg[15]) == PcOf(src)
  {
    hide Pack, PcOf, FlagsOf, IntOf, ModeOf;
    PackFields(src, FlagsOf(src), c.iff, c.mode);
  }

  lemma SetR15PSRConfined(c: Cpu, s: word)
    requires Ready(c) && c.mode == USER26
    ensures Confined(c, SetR15PSR(c, s)) && SetR15PSR(c, s).flags == FlagsOf(s)
    ensures R15PC(SetR15PSR(c, s)) == R15PC(c)
  {
    hide Pack, PcOf, FlagsOf;
    PackFields(c.reg[15], FlagsOf(s), c.iff, c.mode);
  }

  /** The fields of the CPSR as the emulator assembles it. */
  lemma CpsrFields(f: Flags, iff: word, mode: word)
    requires iff <= 3 && mode <= 3
    ensures var w := Assemble(ECC(f), EINT(iff), mode);
            FlagsOf(w) == f && CpsrInt(w) == iff && ModeOf(w) == mode
  {
    hide ECC, FlagsOf;
    EccFlags(f);
    CpsrBits(ECC(f), iff, mode);
  }

  lemma CpsrBits(cc: word, iff: word, mode: word)
    requires cc & 0x0fff_ffff == 0 && iff <= 3 && mode <= 3
    ensures var w := Assemble(cc, EINT(iff), mode);
            FlagsOf(w) == FlagsOf(cc) && CpsrInt(w) == iff && ModeOf(w) == mode
  {
    var w := Assemble(cc, EINT(iff), mode);
    assert w & 0x8000_0000 == cc & 0x8000_0000 && w & 0x4000_0000 == cc & 0x4000_0000;
    assert w & 0x2000_0000 == cc & 0x2000_0000 && w & 0x1000_0000 == cc & 0x1000_0000;
  }

  lemma SetCCKeeps(d: word, s: word)
    ensures ModeOf(SetCC(d, s)) == ModeOf(d) && CpsrInt(SetCC(d, s)) == CpsrInt(d)
    ensures FlagsOf(SetCC(d, s)) == FlagsOf(s)
  {
    hide SetCC, ModeOf, CpsrInt, FlagsOf;
    SetCCStatus(d, s);
    SetCCFlags(d, s);
  }

  lemma SetCCStatus(d: word, s: word)
    ensures ModeOf(SetCC(d, s)) == ModeOf(d) && CpsrInt(SetCC(d, s)) == CpsrInt(d)
  {}

  lemma SetCCFlags(d: word, s: word)
    ensures FlagsOf(SetCC(d, s)) == FlagsOf(s)
  {
    var w := SetCC(d, s);
    assert w & 0x8000_0000 == s & 0x8000_0000;
    assert w & 0x4000_0000 == s & 0x4000_0000;
    assert w & 0x2000_0000 == s & 0x2000_0000;
    assert w & 0x1000_0000 == s & 0x1000_0000;
  }

  /** A CPSR with the current mode and interrupt masks changes the flags alone. */
  lemma CPSRAlteredConfined(c: Cpu, cpsr: word)
    requires Ready(c) && ModeOf(cpsr) == c.mode && CpsrInt(cpsr) == c.iff
    ensures Confined(c, CPSRAltered(c, cpsr)) && CPSRAltered(c, cpsr).flags == FlagsOf(cpsr)
    ensures R15PC(CPSRAltered(c, cpsr)) == R15PC(c)
    ensures SameBanked(c, CPSRAltered(c, cpsr)) && CPSRAltered(c, cpsr).next == c.next
  {
    hide FlagsOf, CpsrInt, ModeOf, PcOf, Pack, View, SwitchMode;
    var d := CPSRAltered(c, cpsr);
    PackFields(c.reg[15], FlagsOf(cpsr), c.iff, c.mode);
    forall b: nat, r: nat | Real(b) && r < 15 ensures View(d, b, r) == View(c, b, r) {
      ViewIgnores(c, d, b, r);
    }
  }

  /** In user mode an MSR to the CPSR writes at most the flags. */
  lemma FixCPSRConfined(c: Cpu, instr: word, rhs: word)
    requires Ready(c) && c.mode == USER26
    ensures Confined(c, FixCPSR(c, instr, rhs))
    ensures R15PC(FixCPSR(c, instr, rhs)) == R15PC(c)
    ensures FixCPSR(c, instr, rhs).flags == if WritesFlags(instr) then FlagsOf(rhs) else c.flags
  {
    hide CPSRAltered, SetCC, FlagsOf, CpsrInt, ModeOf, ECC, EINT, Assemble, PcOf, WritesFlags, Masked, SameBanked;
    CpsrFields(c.flags, c.iff, c.mode);
    SetCCKeeps(GetCPSR(c), rhs);
    CPSRAlteredConfined(c, GetCPSR(c));
    CPSRAlteredConfined(c, SetCC(GetCPSR(c), rhs));
  }
}
