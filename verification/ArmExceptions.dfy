/** Exceptions: entry masks interrupts and banks the return state, and a handler that keeps
    its link register returns to exactly the interrupted state. */
module ArmExceptions {
  import opened ArmState
  import opened ArmBanks
  import opened ArmPsr
  import opened ArmPsrLaws

  lemma SetRegBanked(c: Cpu, v: word)
    requires Ready(c)
    ensures Ready(SetReg(c, 15, v)) && SameBanked(c, SetReg(c, 15, v))
  {
    hide View;
    var d := SetReg(c, 15, v);
    forall b: nat, r: nat | Real(b) && r < 15 ensures View(d, b, r) == View(c, b, r) {
      ViewIgnores(c, d, b, r);
    }
  }

  /** Only fields outside the register file differ. */
  lemma StatusBanked(c: Cpu, d: Cpu)
    requires Shaped(c) && Shaped(d) && d.reg == c.reg && d.regBank == c.regBank && d.bank == c.bank
    ensures SameBanked(c, d)
  {
    hide View;
    forall b: nat, r: nat | Real(b) && r < 15 ensures View(d, b, r) == View(c, b, r) {
      ViewIgnores(c, d, b, r);
    }
  }

  lemma BankedTransitive(c: Cpu, d: Cpu, e: Cpu)
    requires Shaped(c) && Shaped(d) && Shaped(e) && SameBanked(c, d) && SameBanked(d, e)
    ensures SameBanked(c, e)
  {
    hide View;
  }

  /** Whatever register 15 receives, no bank's r0-r14 change. */
  lemma SetR15Banked(c: Cpu, v: word)
    requires Ready(c)
    ensures SameBanked(c, SetR15(c, v))
    ensures var d := SetR15(c, v);
            d.reg[15] == v && d.mode == ModeOf(v) && d.iff == IntOf(v) && d.flags == FlagsOf(v) && d.next.prime
    ensures SetR15(c, v).spsr == c.spsr
  {
    hide View, FlagsOf, IntOf, ModeOf, EnterMode, SameBanked;
    ModeIsReal(v);
    var a := SetReg(c, 15, v);
    SetRegBanked(c, v);
    var b := EnterMode(a, ModeOf(v));
    EnterModeBanked(a, ModeOf(v));
    StatusBanked(b, SetR15(c, v));
    BankedTransitive(c, a, b);
    BankedTransitive(c, b, SetR15(c, v));
  }

  /** A new CPSR takes effect whole, keeps the program counter, and touches no bank's r0-r14. */
  lemma CPSRAlteredTakes(c: Cpu, cpsr: word)
    requires Ready(c)
    ensures var d := CPSRAltered(c, cpsr);
            && d.mode == ModeOf(cpsr) && d.iff == CpsrInt(cpsr) && d.flags == FlagsOf(cpsr)
            && R15PC(d) == R15PC(c) && d.spsr == c.spsr && SameBanked(c, d)
            && d.reg[15] == Pack(c.reg[15], d.flags, d.iff, d.mode)
  {
    hide View, FlagsOf, CpsrInt, ModeOf, EnterMode, SameBanked, Pack, PcOf;
    ModeIsReal(cpsr);
    var a := EnterMode(c, ModeOf(cpsr));
    EnterModeBanked(c, ModeOf(cpsr));
    var b := a.(iff := CpsrInt(cpsr), flags := FlagsOf(cpsr));
    StatusBanked(a, b);
    SetRegBanked(b, GetR15(b));
    BankedTransitive(c, a, b);
    BankedTransitive(c, b, SetReg(b, 15, GetR15(b)));
    PackFields(c.reg[15], b.flags, b.iff, b.mode);
  }

  lemma VectorFields(vector: word)
    requires vector < 32 && vector & 3 == 0
    ensures var (mode, masks) := VectorMode(vector);
            1 <= mode <= 3 && (masks == 0x80 || masks == INTBITS) && PcOf(vector) == vector
  {}

  /** Interrupt flags with more of them masked. */
  function Mask(iff: word, masks: word): word {
    iff | (masks >> 6)
  }

  lemma MaskedCpsr(cc: word, iff: word, masks: word, mode: word)
    requires cc & 0x0fff_ffff == 0 && iff <= 3 && mode <= 3 && (masks == 0x80 || masks == INTBITS)
    ensures Mask(iff, masks) <= 3
    ensures Assemble(cc, EINT(iff) | masks, mode) == Assemble(cc, EINT(Mask(iff, masks)), mode)
  {}

  /** The status word exception entry installs. */
  function EntryCpsr(c: Cpu, vector: word): word {
    var (mode, masks) := VectorMode(vector);
    Assemble(ECC(c.flags), EINT(c.iff) | masks, mode)
  }

  function Entered(c: Cpu, vector: word): (d: Cpu)
    requires Ready(c)
    ensures Ready(d)
  {
    CPSRAltered(c.(spsr := c.spsr[ModeToBank(VectorMode(vector).0) := GetCPSR(c)]), EntryCpsr(c, vector))
  }

  lemma EntryFields(c: Cpu, vector: word)
    requires Ready(c) && vector < 32 && vector & 3 == 0
    ensures var (mode, masks) := VectorMode(vector);
            && FlagsOf(EntryCpsr(c, vector)) == c.flags
            && CpsrInt(EntryCpsr(c, vector)) == Mask(c.iff, masks)
            && ModeOf(EntryCpsr(c, vector)) == mode
  {
    hide ECC, FlagsOf, EINT, CpsrInt, ModeOf, VectorMode, PcOf, Assemble, Mask;
    var (mode, masks) := VectorMode(vector);
    VectorFields(vector);
    EccFlags(c.flags);
    MaskedCpsr(ECC(c.flags), c.iff, masks, mode);
    CpsrFields(c.flags, Mask(c.iff, masks), mode);
  }

  /** The jump to a vector keeps the status bits of register 15. */
  lemma VectorJump(pc: word, cc: word, iff: word, mode: word, vector: word)
    requires vector < 32 && vector & 3 == 0 && cc & 0x0fff_ffff == 0 && iff <= 3 && mode <= 3
    ensures Status(Join(pc, cc, iff, mode)) | vector == Join(vector, cc, iff, mode)
  {}

  /** Registers every bank sees are the same, apart from r14 of bank `b14`. */
  ghost predicate BankedExceptLink(c: Cpu, d: Cpu, b14: nat)
    requires Shaped(c) && Shaped(d)
  {
    forall b: nat, r: nat :: Real(b) && r < 15 && !(b == b14 && r == 14) ==> View(d, b, r) == View(c, b, r)
  }

  lemma SetLink(c: Cpu, v: word)
    requires Ready(c) && Real(c.bank)
    ensures Ready(SetReg(c, 14, v)) && BankedExceptLink(c, SetReg(c, 14, v), c.bank)
    ensures View(SetReg(c, 14, v), c.bank, 14) == v
  {}

  lemma RealMode(mode: word)
    requires mode <= 3
    ensures Real(ModeToBank(mode)) && ModeToBank(mode) == mode as nat
  {}

  /** The state once the exception's CPSR is in place. */
  lemma EnteredState(c: Cpu, vector: word)
    requires Ready(c) && vector < 32 && vector & 3 == 0
    ensures var (mode, masks) := VectorMode(vector);
            var a := Entered(c, vector);
            && mode <= 3 && Real(ModeToBank(mode)) && a.bank == ModeToBank(mode)
            && a.mode == mode && a.flags == c.flags && a.iff == Mask(c.iff, masks)
            && a.spsr == c.spsr[a.bank := GetCPSR(c)] && SameBanked(c, a)
            && a.reg[15] == Pack(c.reg[15], a.flags, a.iff, a.mode)
  {
    hide ECC, FlagsOf, IntOf, ModeOf, CpsrInt, View, VectorMode, Pack, PcOf, CPSRAltered, EntryCpsr, GetCPSR, Mask, SameBanked;
    var (mode, masks) := VectorMode(vector);
    VectorFields(vector);
    RealMode(mode);
    EntryFields(c, vector);
    var saved := c.(spsr := c.spsr[ModeToBank(mode) := GetCPSR(c)]);
    StatusBanked(c, saved);
    CPSRAlteredTakes(saved, EntryCpsr(c, vector));
    BankedTransitive(c, saved, Entered(c, vector));
  }

  /** Exception entry: the exception's mode, at its vector, interrupts masked, flags kept,
      the old status saved, the return address linked; no other register of any bank changes. */
  lemma AbortEnters(c: Cpu, vector: word)
    requires Ready(c) && vector < 32 && vector & 3 == 0
    ensures var (mode, masks) := VectorMode(vector);
            var bank := ModeToBank(mode);
            var d := Abort(c, vector);
            && d.mode == mode && d.flags == c.flags && d.iff == Mask(c.iff, masks)
            && R15PC(d) == vector && d.next.prime
            && d.spsr == c.spsr[bank := GetCPSR(c)]
            && View(d, bank, 14) == (if vector == 0 then GetR15(c) else Back(GetR15(c)))
            && BankedExceptLink(c, d, bank)
  {
    hide ECC, FlagsOf, IntOf, ModeOf, View, VectorMode, Pack, PcOf, SetR15, GetCPSR, GetR15, SetReg, Mask, Back, Status, Abort, Entered, ModeToBank;
    VectorFields(vector);
    EnteredState(c, vector);
    var a := Entered(c, vector);
    var link := if vector == 0 then GetR15(c) else Back(GetR15(c));
    var b := SetReg(a, 14, link);
    SetLink(a, link);
    AbortSteps(c, vector, a, b);
    AbortTarget(a, vector, c.reg[15]);
    SetR15Banked(b, Status(b.reg[15]) | vector);
    PackFields(vector, a.flags, a.iff, a.mode);
  }

  /** `Abort` in the steps of `AbortEnters`. */
  lemma AbortSteps(c: Cpu, vector: word, a: Cpu, b: Cpu)
    requires Ready(c) && vector < 32 && vector & 3 == 0
    requires a == Entered(c, vector)
    requires b == SetReg(a, 14, if vector == 0 then GetR15(c) else Back(GetR15(c)))
    ensures Ready(b) && b.reg[15] == a.reg[15] && b.spsr == a.spsr
    ensures Abort(c, vector) == SetR15(b, Status(b.reg[15]) | vector)
  {
    hide GetCPSR, GetR15, CPSRAltered, SetR15, VectorMode, ECC, EINT, Assemble, Status, Back, Real;
  }

  lemma AbortTarget(a: Cpu, vector: word, r15: word)
    requires Ready(a) && vector < 32 && vector & 3 == 0 && a.reg[15] == Pack(r15, a.flags, a.iff, a.mode)
    ensures Status(a.reg[15]) | vector == Pack(vector, a.flags, a.iff, a.mode)
  {
    hide ECC, Join, FlagsOf;
    EccFlags(a.flags);
    VectorJump(r15, ECC(a.flags), a.iff, a.mode, vector);
  }

  function Rest(w: word): word {
    w & 0xfc00_0003
  }

  /** A nonzero program counter goes back a word without borrowing from the status bits. */
  lemma LessFour(w: word)
    requires PcOf(w) != 0
    ensures PcOf(Back(w)) == Back(PcOf(w)) && IntOf(Back(w)) == IntOf(w) && ModeOf(Back(w)) == ModeOf(w)
    ensures Back(w) & CCBITS == w & CCBITS
  {
    hide Back, Rest, IntOf, ModeOf, PcOf, CCBITS;
    SplitPc(w);
    BorrowParts(PcOf(w), Rest(w));
    SplitPc(Back(w));
    RestFields(w);
    RestFields(Back(w));
  }

  lemma SplitPc(w: word)
    ensures PcOf(w) | Rest(w) == w && Rest(PcOf(w)) == 0 && PcOf(Rest(w)) == 0
  {}

  lemma RestFields(w: word)
    ensures IntOf(w) == IntOf(Rest(w)) && ModeOf(w) == ModeOf(Rest(w)) && w & CCBITS == Rest(w) & CCBITS
  {
    hide IntOf, ModeOf, Rest;
    RestInt(w);
    RestMode(w);
    RestFlags(w);
  }

  lemma RestInt(w: word)
    ensures IntOf(w) == IntOf(Rest(w))
  {}

  lemma RestMode(w: word)
    ensures ModeOf(w) == ModeOf(Rest(w))
  {}

  lemma RestFlags(w: word)
    ensures w & CCBITS == Rest(w) & CCBITS
  {}

  lemma BorrowParts(p: word, s: word)
    requires Rest(p) == 0 && PcOf(s) == 0 && p != 0
    ensures PcOf(Back(p | s)) == Back(p) && Rest(Back(p | s)) == s
  {
    hide Back, Rest, PcOf;
    BackOr(p, s);
    OrParts(Back(p), s);
  }

  lemma BackOr(p: word, s: word)
    requires Rest(p) == 0 && PcOf(s) == 0 && p != 0
    ensures Back(p | s) == Back(p) | s && Rest(Back(p)) == 0
  {}

  lemma OrParts(p: word, s: word)
    requires Rest(p) == 0 && PcOf(s) == 0
    ensures PcOf(p | s) == p && Rest(p | s) == s
  {}

  lemma SameFlags(v: word, w: word)
    requires v & CCBITS == w & CCBITS
    ensures FlagsOf(v) == FlagsOf(w)
  {
    assert v & 0x8000_0000 == (v & CCBITS) & 0x8000_0000 && w & 0x8000_0000 == (w & CCBITS) & 0x8000_0000;
    assert v & 0x4000_0000 == (v & CCBITS) & 0x4000_0000 && w & 0x4000_0000 == (w & CCBITS) & 0x4000_0000;
    assert v & 0x2000_0000 == (v & CCBITS) & 0x2000_0000 && w & 0x2000_0000 == (w & CCBITS) & 0x2000_0000;
    assert v & 0x1000_0000 == (v & CCBITS) & 0x1000_0000 && w & 0x1000_0000 == (w & CCBITS) & 0x1000_0000;
  }

  /** With a program counter of zero the return address borrows from the interrupt flags. */
  lemma BorrowsMask(w: word)
    requires PcOf(w) == 0
    ensures IntOf(Back(w)) != IntOf(w)
  {}

  /** A handler that ends in the exception's mode with its link register as it found it, and
      writes that to register 15 with the status bits, resumes the interrupted program: same
      mode, masks and flags, at the linked instruction, and no bank's registers changed by
      the return itself. A program counter of zero is the one exception: four less than it
      wraps into the interrupt flags. */
  lemma AbortReturns(c: Cpu, vector: word, h: Cpu)
    requires Ready(c) && 0 < vector < 32 && vector & 3 == 0
    requires Ready(h) && h.mode == VectorMode(vector).0 && h.reg[14] == View(Abort(c, vector), h.bank, 14)
    ensures var e := WriteSR15(h, h.reg[14]);
            && (Confined(c, e) && e.flags == c.flags <==> R15PC(c) != 0)
            && (R15PC(c) != 0 ==> R15PC(e) == Back(R15PC(c)))
            && e.next.prime && SameBanked(h, e)
  {
    hide ECC, FlagsOf, IntOf, ModeOf, View, VectorMode, Pack, PcOf, Abort, SetR15, GetCPSR, SameBanked, BankedExceptLink, CCBITS, Back, Mask, WriteSR15, Status;
    AbortEnters(c, vector);
    VectorFields(vector);
    RealMode(h.mode);
    PackFields(c.reg[15], c.flags, c.iff, c.mode);
    var w := GetR15(c);
    if R15PC(c) != 0 {
      LessFour(w);
      SameFlags(Back(w), w);
    } else {
      BorrowsMask(w);
    }
    SetR15Banked(h, Back(w));
    ReturnIsSet(h, Back(w));
  }

  lemma ReturnIsSet(h: Cpu, v: word)
    requires Ready(h) && 1 <= h.mode <= 3
    ensures WriteSR15(h, v) == SetR15(h, v)
  {
    hide FlagsOf, IntOf, ModeOf, EnterMode, Pack;
  }
}
