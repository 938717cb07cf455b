/** What the multiply instructions leave in registers and flags, as integers. */
module ArmProducts {
  import opened ArmState
  import opened ArmWords
  import opened ArmFlags
  import opened ArmPsr
  import opened ArmTransfer
  import opened ArmMultiply
  import ArmExecute

  /** What MUL and MLA are for: the product, which the code takes to be zero when the destination
      is the first factor, and for MLA the addend. */
  function Wanted(c: Cpu, instr: word): int
    requires Ready(c)
  {
    (if Field(instr, 0) == Field(instr, 16) then 0 else Nat(c.reg[Field(instr, 0)]) * Nat(c.reg[Field(instr, 8)]))
    + if Set(instr, 21) then Nat(c.reg[Field(instr, 12)]) else 0
  }

  /** MUL and MLA: the destination holds that modulo 2^32, with the S bit N and Z describe it,
      and nothing else changes. */
  lemma Multiplied(c: Cpu, instr: word)
    requires Ready(c) && Field(instr, 16) != 15
    ensures var d, rd := ArmExecute.Multiply(c, instr), Field(instr, 16);
            && Nat(d.reg[rd]) == Wanted(c, instr) % 0x1_0000_0000
            && (forall k :: 0 <= k < 16 && k != rd ==> d.reg[k] == c.reg[k])
            && d == c.(reg := d.reg, flags := d.flags)
            && d.flags == if Set(instr, 20) then
                            c.flags.(n := Nat(d.reg[rd]) >= 0x8000_0000, z := Nat(d.reg[rd]) == 0)
                          else c.flags
  {
    hide Nat, Word, Field, Set;
    NatWord(Wanted(c, instr));
  }

  /** UMULL, SMULL, UMLAL and SMLAL: the pair holds the product of the unsigned or signed factors,
      plus the old pair for the accumulating forms, modulo 2^64; with the S bit Z describes it
      and N is cleared; no other register changes. */
  lemma LongMultiplied(c: Cpu, instr: word)
    requires Ready(c) && Legal(instr)
    ensures var d, rm, rs := ArmExecute.LongMultiply(c, instr), c.reg[Field(instr, 0)], c.reg[Field(instr, 8)];
            var p := if Set(instr, 22) then Int(rm) * Int(rs) else Nat(rm) * Nat(rs);
            && PairOf(d.reg, instr) == ((if Set(instr, 21) then PairOf(c.reg, instr) else 0) + p) % WRAP64
            && (forall r :: 0 <= r < 16 && r != Field(instr, 16) && r != Field(instr, 12) ==> d.reg[r] == c.reg[r])
            && d == c.(reg := d.reg, flags := d.flags)
            && d.flags == if Set(instr, 20) then c.flags.(n := false, z := PairOf(d.reg, instr) == 0) else c.flags
  {
    hide Nat, Int, Word, Field, PairOf, SetPair, LongFlags, Set, Legal;
    LongMultiplies(c, instr, Set(instr, 22), Set(instr, 20));
    var p := Product(c.reg[Rm(instr)], c.reg[Rs(instr)], Set(instr, 22));
    ModuloSum(PairOf(c.reg, instr), if Set(instr, 22) then Int(c.reg[Rm(instr)]) * Int(c.reg[Rs(instr)])
                                    else Nat(c.reg[Rm(instr)]) * Nat(c.reg[Rs(instr)]));
    Described(c.flags, p);
    Described(c.flags, (PairOf(c.reg, instr) + p) % WRAP64);
  }

  lemma ModuloSum(a: int, b: int)
    ensures (a + b % WRAP64) % WRAP64 == (a + b) % WRAP64 && (0 + b) % WRAP64 == b % WRAP64
  {
    var q := b / WRAP64;
    assert b == WRAP64 * q + b % WRAP64;
  }

  lemma Described(f: Flags, p: nat)
    ensures LongFlags(f, p) == f.(n := false, z := p == 0)
  {
    hide Nat, Word;
    NatWord(0);
    NatWord(1);
  }
}
