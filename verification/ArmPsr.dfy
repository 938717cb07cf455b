/** Program status: every way of writing register 15, the CPSR or an SPSR, and exception
    entry, in the 26-bit modes. */
module ArmPsr {
  import opened ArmState
  import opened ArmBanks

  function SetReg(c: Cpu, r: nat, v: word): (d: Cpu)
    requires |c.reg| == 16 && r < 16
    ensures |d.reg| == 16 && d.reg[r] == v
  {
    c.(reg := c.reg[r := v])
  }

  /** The pipeline must be refilled before the next instruction. */
  function FlushPipe(c: Cpu): Cpu {
    c.(next := c.next.(prime := true))
  }

  /** Enters `mode`, switching banks if it is a new one. */
  function EnterMode(c: Cpu, mode: word): (d: Cpu)
    requires Ready(c) && mode <= 3
    ensures Ready(d) && d.mode == mode && d.reg[15] == c.reg[15]
    ensures d.flags == c.flags && d.iff == c.iff && d.spsr == c.spsr && d.next == c.next
  {
    if c.mode == mode then c else SwitchMode(c, c.mode, mode).(mode := mode)
  }

  /** Takes mode, interrupt masks and flags from register 15. */
  function R15Altered(c: Cpu): (d: Cpu)
    requires Ready(c)
    ensures Ready(d) && d.reg[15] == c.reg[15]
  {
    ModeIsReal(c.reg[15]);
    EnterMode(c, ModeOf(c.reg[15])).(iff := IntOf(c.reg[15]), flags := FlagsOf(c.reg[15]))
  }

  lemma ModeIsReal(w: word)
    ensures ModeOf(w) <= 3 && IntOf(w) <= 3
  {}

  function SetR15(c: Cpu, v: word): (d: Cpu)
    requires Ready(c)
    ensures Ready(d)
  {
    FlushPipe(R15Altered(SetReg(c, 15, v)))
  }

  /** `cpsr & INTBITS` as the two-bit interrupt field. */
  function CpsrInt(cpsr: word): (i: word)
    ensures i <= 3
  {
    (cpsr & INTBITS) >> 6
  }

  /** Takes mode, interrupt masks and flags from a new CPSR, and rebuilds register 15. */
  function CPSRAltered(c: Cpu, cpsr: word): (d: Cpu)
    requires Ready(c)
    ensures Ready(d)
  {
    ModeIsReal(cpsr);
    var e := EnterMode(c, ModeOf(cpsr)).(iff := CpsrInt(cpsr), flags := FlagsOf(cpsr));
    SetReg(e, 15, GetR15(e))
  }

  /** `SETCC`: replaces the condition flags of a status word. */
  function SetCC(d: word, s: word): word {
    (d & (INTBITS | MODEBITS)) | (s & CCBITS)
  }

  /** `SETPSR`, `SETINTMODE` and `SETCC`, selected by the field mask of an MSR. */
  function Masked(d: word, s: word, instr: word): word {
    if (instr >> 16) & 0xf == 9 then s & (CCBITS | INTBITS | MODEBITS)
    else if (instr >> 16) & 1 == 1 then (d & CCBITS) | (s & (INTBITS | MODEBITS))
    else if WritesFlags(instr) then SetCC(d, s)
    else d
  }

  /** Bit 19 of an MSR: the field mask includes the condition flags. */
  predicate WritesFlags(instr: word) {
    (instr >> 19) & 1 == 1
  }

  /** MSR to the CPSR. In user mode only the flags can be written. */
  function FixCPSR(c: Cpu, instr: word, rhs: word): (d: Cpu)
    requires Ready(c)
    ensures Ready(d)
  {
    var cpsr := GetCPSR(c);
    CPSRAltered(c,
      if c.bank == USERBANK then
        if WritesFlags(instr) then SetCC(cpsr, rhs) else cpsr
      else Masked(cpsr, rhs, instr))
  }

  /** MSR to the current SPSR; the user bank has none. */
  function FixSPSR(c: Cpu, instr: word, rhs: word): (d: Cpu)
    requires Ready(c)
    ensures Ready(d)
  {
    if c.bank == USERBANK then c
    else c.(spsr := c.spsr[c.bank := Masked(c.spsr[c.bank], rhs, instr)])
  }

  /** TSTP, TEQP, CMPP and CMNP: writes the status bits of register 15. */
  function SetR15PSR(c: Cpu, s: word): (d: Cpu)
    requires Ready(c)
    ensures Ready(d)
  {
    if c.mode == USER26 then
      var d := SetReg(c, 15, Pack(c.reg[15], FlagsOf(s), c.iff, c.mode));
      d.(flags := FlagsOf(d.reg[15]))
    else
      R15Altered(SetReg(c, 15, R15PC(c) | Status(s)))
  }

  /** A result written to register 15 without the S bit: a jump. */
  function WriteR15(c: Cpu, src: word): (d: Cpu)
    requires Ready(c)
    ensures Ready(d)
  {
    FlushPipe(R15Altered(SetReg(c, 15, Pack(src, c.flags, c.iff, c.mode))))
  }

  /** A result written to register 15 with the S bit: a jump that also takes the status
      bits, of which user mode may change only the flags. */
  function WriteSR15(c: Cpu, src: word): (d: Cpu)
    requires Ready(c)
    ensures Ready(d)
  {
    var v := if c.bank == USERBANK then Pack(src, FlagsOf(src), c.iff, c.mode) else src;
    FlushPipe(R15Altered(SetReg(c, 15, v)))
  }

  // ---- Exceptions ----

  /** Mode and interrupt masks an exception vector enters with. */
  function VectorMode(vector: word): (word, word) {
    if vector == 0 then (SVC26, INTBITS)
    else if vector == 24 then (IRQ26, 0x80)
    else if vector == 28 then (FIQ26, INTBITS)
    else (SVC26, 0x80)
  }

  /** The address four before. */
  function Back(w: word): word {
    w - 4
  }

  /** `ARMul_Abort`: saves the status, enters the exception's mode with interrupts masked,
      leaves the return address in its link register, and jumps to the vector. */
  function Abort(c: Cpu, vector: word): (d: Cpu)
    requires Ready(c) && vector < 32 && vector & 3 == 0
    ensures Ready(d)
  {
    var (mode, masks) := VectorMode(vector);
    var temp := GetR15(c);
    var saved := c.(spsr := c.spsr[ModeToBank(mode) := GetCPSR(c)]);
    var entered := CPSRAltered(saved, Assemble(ECC(c.flags), EINT(c.iff) | masks, mode));
    var linked := SetReg(entered, 14, if vector == 0 then temp else Back(temp));
    SetR15(linked, Status(linked.reg[15]) | vector)
  }

  // ---- Laws ----

  /** Whatever is written to register 15 as a whole reads back unchanged. */
  lemma GetSetR15(c: Cpu, v: word)
    requires Ready(c)
    ensures GetR15(SetR15(c, v)) == v
  {
    hide Pack, FlagsOf, IntOf, ModeOf, EnterMode;
    PackParts(v);
    ModeIsReal(v);
    PackSame(SetR15(c, v), v);
  }

  lemma PackSame(c: Cpu, v: word)
    requires |c.reg| == 16 && c.reg[15] == v
    requires c.flags == FlagsOf(v) && c.iff == IntOf(v) && c.mode == ModeOf(v)
    ensures GetR15(c) == v
  {
    hide FlagsOf, IntOf, ModeOf, Join, ECC;
    PackParts(v);
  }

  /** Registers 0 to 14 as every bank sees them are the same. */
  ghost predicate SameBanked(c: Cpu, d: Cpu)
    requires Shaped(c) && Shaped(d)
  {
    forall b: nat, r: nat :: Real(b) && r < 15 ==> View(d, b, r) == View(c, b, r)
  }

  lemma EnterModeBanked(c: Cpu, mode: word)
    requires Ready(c) && mode <= 3
    ensures SameBanked(c, EnterMode(c, mode))
  {
    hide SwitchMode, View;
    if c.mode != mode {
      SwitchKeepsViews(c, c.mode, mode);
      var e := SwitchMode(c, c.mode, mode);
      forall b: nat, r: nat | Real(b) && r < 15 ensures View(e.(mode := mode), b, r) == View(c, b, r) {
        ViewIgnores(e, e.(mode := mode), b, r);
      }
    }
  }

  /** A view depends only on the registers, the bank matrix and the current bank. */
  lemma ViewIgnores(c: Cpu, d: Cpu, b: nat, r: nat)
    requires Shaped(c) && Shaped(d) && Real(b) && r < 15
    requires d.regBank == c.regBank && d.bank == c.bank && (forall i :: 0 <= i < 15 ==> d.reg[i] == c.reg[i])
    ensures View(d, b, r) == View(c, b, r)
  {}
}
