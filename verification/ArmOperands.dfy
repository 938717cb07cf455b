/** The operands of data processing and of single transfers, with what evaluating them does to
    the program counter and the carry flag. */
module ArmOperands {
  import opened ArmState
  import opened ArmTransfer

  // ---- Instruction fields ----

  function Dest(instr: word): (r: nat)
    ensures r < 16
  {
    Field(instr, 12)
  }

  function RHSReg(instr: word): (r: nat)
    ensures r < 16
  {
    Field(instr, 0)
  }

  function ShiftReg(instr: word): (r: nat)
    ensures r < 16
  {
    Field(instr, 8)
  }

  /** LSL, LSR, ASR, ROR. */
  function ShiftKind(instr: word): (k: nat)
    ensures k < 4
  {
    ((instr >> 5) & 3) as nat
  }

  function ShiftAmount(instr: word): (n: nat)
    ensures n < 32
  {
    ((instr >> 7) & 0x1f) as nat
  }

  /** Bits 0-11. */
  function Low12(instr: word): word {
    instr & 0xfff
  }

  // ---- Shifts ----

  /** A shift amount below 32 as the machine shifts by it. */
  function Amount(n: nat): bv5
    requires n < 32
  {
    n as bv5
  }

  predicate BitOf(w: word, n: nat)
    requires n < 32
  {
    (w >> Amount(n)) & 1 == 1
  }

  function Lsl(w: word, n: nat): word
    requires n < 32
  {
    w << Amount(n)
  }

  function Lsr(w: word, n: nat): word
    requires n < 32
  {
    w >> Amount(n)
  }

  /** Copies the sign in from the left. */
  function Asr(w: word, n: nat): word
    requires n < 32
  {
    if BitOf(w, 31) then !Lsr(!w, n) else Lsr(w, n)
  }

  function Ror(w: word, n: nat): word
    requires 0 < n < 32
  {
    Lsl(w, 32 - n) | Lsr(w, n)
  }

  /** `ROTATER` */
  function Rotate(w: word, n: nat): word
    requires n < 32
  {
    if n == 0 then w else Ror(w, n)
  }

  function Rrx(w: word, c: bool): word {
    (w >> 1) | if c then 0x8000_0000 else 0
  }

  /** A shift whose amount is the low byte of a register. */
  function ShiftByReg(kind: nat, w: word, n: nat): word {
    if n == 0 then w
    else if kind == 0 then if n >= 32 then 0 else Lsl(w, n)
    else if kind == 1 then if n >= 32 then 0 else Lsr(w, n)
    else if kind == 2 then if n >= 32 then Asr(w, 31) else Asr(w, n)
    else if n % 32 == 0 then w else Ror(w, n % 32)
  }

  predicate CarryByReg(kind: nat, w: word, n: nat, c: bool) {
    if n == 0 then c
    else if kind == 0 then n <= 32 && BitOf(w, 32 - n)
    else if kind == 1 then n <= 32 && BitOf(w, n - 1)
    else if kind == 2 then BitOf(w, if n >= 32 then 31 else n - 1)
    else BitOf(w, if n % 32 == 0 then 31 else n % 32 - 1)
  }

  /** A shift whose amount is in the instruction, where zero stands for 32, or for RRX. */
  function ShiftByConst(kind: nat, w: word, n: nat, c: bool): word
    requires n < 32
  {
    if kind == 0 then Lsl(w, n)
    else if kind == 1 then if n == 0 then 0 else Lsr(w, n)
    else if kind == 2 then if n == 0 then Asr(w, 31) else Asr(w, n)
    else if n == 0 then Rrx(w, c) else Ror(w, n)
  }

  /** Its carry; a left shift by zero is not asked for one. */
  predicate CarryByConst(kind: nat, w: word, n: nat)
    requires n < 32 && (kind == 0 ==> n > 0)
  {
    if kind == 0 then BitOf(w, 32 - n)
    else if kind <= 2 then BitOf(w, if n == 0 then 31 else n - 1)
    else BitOf(w, if n == 0 then 0 else n - 1)
  }

  // ---- Operands ----

  /** An operand, and the processor after evaluating it. */
  datatype Operand = Operand(cpu: Cpu, value: word)

  /** `LHS`: register 15 reads as the program counter alone. */
  function LHS(c: Cpu, instr: word): word
    requires Ready(c)
  {
    if Base(instr) == 15 then R15PC(c) else c.reg[Base(instr)]
  }

  /** The right-hand register; register 15 reads with its status bits. */
  function RHS(c: Cpu, instr: word): word
    requires Ready(c)
  {
    if RHSReg(instr) == 15 then GetR15(c) else c.reg[RHSReg(instr)]
  }

  function ShiftCount(c: Cpu, instr: word): nat
    requires Ready(c)
  {
    (c.reg[ShiftReg(instr)] & 0xff) as nat
  }

  function DPRegRHS(c: Cpu, instr: word): (o: Operand)
    requires Ready(c)
    ensures Ready(o.cpu)
  {
    if Low12(instr) < 15 then Operand(c, c.reg[RHSReg(instr)])
    else if Set(instr, 4) then
      var d := IncPc(c, false);
      Operand(d, ShiftByReg(ShiftKind(instr), RHS(d, instr), ShiftCount(d, instr)))
    else Operand(c, ShiftByConst(ShiftKind(instr), RHS(c, instr), ShiftAmount(instr), c.flags.c))
  }

  function WithCarry(c: Cpu, carry: bool): (d: Cpu)
    requires Ready(c)
    ensures Ready(d)
  {
    c.(flags := c.flags.(c := carry))
  }

  /** Register 15 unshifted, for which the code asks the carry of a left shift by zero. */
  predicate BareR15(instr: word) {
    !Set(instr, 4) && ShiftKind(instr) == 0 && ShiftAmount(instr) == 0 && Low12(instr) >= 15
  }

  function DPSRegRHS(c: Cpu, instr: word): (o: Operand)
    requires Ready(c) && !BareR15(instr)
    ensures Ready(o.cpu)
  {
    if Low12(instr) < 15 then Operand(c, c.reg[RHSReg(instr)])
    else if Set(instr, 4) then
      var d := IncPc(c, false);
      var w, n := RHS(d, instr), ShiftCount(d, instr);
      Operand(WithCarry(d, CarryByReg(ShiftKind(instr), w, n, d.flags.c)), ShiftByReg(ShiftKind(instr), w, n))
    else
      var w, n := RHS(c, instr), ShiftAmount(instr);
      Operand(WithCarry(c, CarryByConst(ShiftKind(instr), w, n)), ShiftByConst(ShiftKind(instr), w, n, c.flags.c))
  }

  /** Bits 0-7. */
  function Low8(instr: word): word {
    instr & 0xff
  }

  /** An eight-bit value rotated right by twice a four-bit count. */
  function Immediate(instr: word): word {
    Rotate(Low8(instr), 2 * Field(instr, 8))
  }

  function DPImmRHS(c: Cpu, instr: word): (o: Operand)
    requires Ready(c)
    ensures o.cpu == c
  {
    Operand(c, Immediate(instr))
  }

  function DPSImmRHS(c: Cpu, instr: word): (o: Operand)
    requires Ready(c)
    ensures Ready(o.cpu)
  {
    var v := Immediate(instr);
    Operand(if Low12(instr) > 255 then WithCarry(c, BitOf(v, 31)) else c, v)
  }

  /** Whether the right-hand operand is an immediate. */
  predicate IsImmediate(instr: word) {
    Set(instr, 25)
  }

  function PlainRHS(c: Cpu, instr: word): (o: Operand)
    requires Ready(c)
    ensures Ready(o.cpu)
  {
    if IsImmediate(instr) then DPImmRHS(c, instr) else DPRegRHS(c, instr)
  }

  function LogicalRHS(c: Cpu, instr: word): (o: Operand)
    requires Ready(c) && (IsImmediate(instr) || !BareR15(instr))
    ensures Ready(o.cpu)
  {
    if IsImmediate(instr) then DPSImmRHS(c, instr) else DPSRegRHS(c, instr)
  }

  /** Offset of a single transfer: here bit 25 means a register. */
  function LSRHS(c: Cpu, instr: word): word
    requires Ready(c)
  {
    if !Set(instr, 25) then Low12(instr)
    else if Low12(instr) < 15 then c.reg[RHSReg(instr)]
    else ShiftByConst(ShiftKind(instr), RHS(c, instr), ShiftAmount(instr), c.flags.c)
  }

  // ---- Laws ----

  /** Evaluating an operand may advance register 15 and set the carry, nothing else. */
  predicate Evaluated(c: Cpu, d: Cpu)
    requires Ready(c)
  {
    || d == c.(flags := d.flags)
    || d == IncPc(c, false).(flags := d.flags)
  }

  lemma PlainEvaluated(c: Cpu, instr: word)
    requires Ready(c)
    ensures Evaluated(c, PlainRHS(c, instr).cpu)
  {
    hide IncPc, ShiftByReg, ShiftByConst, RHS, Ror, ShiftCount;
  }

  lemma LogicalEvaluated(c: Cpu, instr: word)
    requires Ready(c) && (IsImmediate(instr) || !BareR15(instr))
    ensures Evaluated(c, LogicalRHS(c, instr).cpu)
  {
    hide IncPc, ShiftByReg, ShiftByConst, RHS, Ror, ShiftCount, CarryByReg, CarryByConst, BitOf;
  }
}
