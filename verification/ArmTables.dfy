/** The emulator's tables: bit counts, which register-list transfers size themselves with, and
    rotated immediates. */
module ArmTables {
  import opened ArmState
  import opened ArmWords
  import opened ArmBlock
  import opened ArmTransfer
  import opened ArmOperands

  /** Whether bit `k` of `i` is set: `i & (1 << k)`. */
  predicate HasBit(i: nat, k: nat) {
    i / Power(k) % 2 == 1
  }

  /** The number of bits set below bit `k`. */
  function Bits(i: nat, k: nat): (n: nat)
    ensures n <= k
  {
    if k == 0 then 0 else Bits(i, k - 1) + if HasBit(i, k - 1) then 1 else 0
  }

  /** The table `ARMul_EmulateInit` builds: four times the bit count of every byte value. */
  method BitList() returns (bitList: array<nat>)
    ensures bitList.Length == 256 && forall i :: 0 <= i < 256 ==> bitList[i] == 4 * Bits(i, 8)
  {
    hide HasBit;
    bitList := new nat[256](i => 0);
    var j, k := 1, 0;
    while k < 8
      invariant k <= 8 && j == Power(k)
      invariant forall i :: 0 <= i < 256 ==> bitList[i] == Bits(i, k)
    {
      for i := 0 to 256
        invariant forall h :: 0 <= h < 256 ==> bitList[h] == if h < i then Bits(h, k + 1) else Bits(h, k)
      {
        if HasBit(i, k) {
          bitList[i] := bitList[i] + 1;
        }
      }
      j, k := 2 * j, k + 1;
    }
    for i := 0 to 256
      invariant forall h :: 0 <= h < 256 ==> bitList[h] == if h < i then 4 * Bits(h, 8) else Bits(h, 8)
    {
      bitList[i] := bitList[i] * 4;
    }
  }

  // ---- Sizing a register list ----

  predicate NibbleBit(h: nibble, k: nat)
    requires k < 4
  {
    (if k == 0 then h & 1 else if k == 1 then h & 2 else if k == 2 then h & 4 else h & 8) != 0
  }

  predicate OctetBit(b: octet, k: nat)
    requires k < 8
  {
    if k < 4 then NibbleBit(LowNibble(b), k) else NibbleBit(HighNibble(b), k - 4)
  }

  lemma NibbleValue(h: nibble, k: nat)
    requires k < 4
    ensures HasBit(h as nat, k) <==> NibbleBit(h, k)
  {
    assert Power(0) == 1 && Power(1) == 2 && Power(2) == 4 && Power(3) == 8;
    NibbleParity(h);
  }

  lemma NibbleParity(h: nibble)
    ensures (h as nat) % 2 == 1 <==> h & 1 != 0
    ensures (h as nat) / 2 % 2 == 1 <==> h & 2 != 0
    ensures (h as nat) / 4 % 2 == 1 <==> h & 4 != 0
    ensures (h as nat) / 8 % 2 == 1 <==> h & 8 != 0
  {}

  lemma OctetHasBit(b: octet, k: nat)
    requires k < 8
    ensures HasBit(Value(b), k) <==> OctetBit(b, k)
  {
    hide HighNibble, LowNibble, NibbleBit, Power, HasBit;
    var h, l := HighNibble(b) as nat, LowNibble(b) as nat;
    PlainPowers();
    if k < 4 {
      LowBit(h, l, k);
      NibbleValue(LowNibble(b), k);
    } else {
      HighBit(h, l, k);
      NibbleValue(HighNibble(b), k - 4);
    }
  }

  lemma PlainPowers()
    ensures Power(0) == 1 && Power(1) == 2 && Power(2) == 4 && Power(3) == 8
    ensures Power(4) == 16 && Power(5) == 32 && Power(6) == 64 && Power(7) == 128
  {
    assert Power(3) == 8;
    assert Power(5) == 32;
  }

  lemma LowBit(h: nat, l: nat, k: nat)
    requires h < 16 && l < 16 && k < 4
    ensures HasBit(h * 16 + l, k) <==> HasBit(l, k)
  {
    hide Power;
    PlainPowers();
    if k == 0 {
    } else if k == 1 {
      assert (h * 16 + l) / 2 == h * 8 + l / 2;
    } else if k == 2 {
      assert (h * 16 + l) / 4 == h * 4 + l / 4;
    } else {
      assert (h * 16 + l) / 8 == h * 2 + l / 8;
    }
  }

  lemma HighBit(h: nat, l: nat, k: nat)
    requires h < 16 && l < 16 && 4 <= k < 8
    ensures HasBit(h * 16 + l, k) <==> HasBit(h, k - 4)
  {
    hide Power;
    PlainPowers();
    if k == 4 {
      assert (h * 16 + l) / 16 == h;
    } else if k == 5 {
      assert (h * 16 + l) / 32 == h / 2;
    } else if k == 6 {
      assert (h * 16 + l) / 64 == h / 4;
    } else {
      assert (h * 16 + l) / 128 == h / 8;
    }
  }

  /** Bit `r` of an instruction is bit `r` of its lowest byte, or bit `r - 8` of the next. */
  lemma ListedOctet(instr: word, r: nat)
    requires r < 16
    ensures Listed(instr, r) <==> if r < 8 then OctetBit(O0(instr), r) else OctetBit(O1(instr), r - 8)
  {
    if r < 8 { ListedLow(instr, r); } else { ListedHigh(instr, r); }
  }

  lemma ListedLow(instr: word, r: nat)
    requires r < 8
    ensures Listed(instr, r) <==> OctetBit(O0(instr), r)
  {
    if r == 0 {} else if r == 1 {} else if r == 2 {} else if r == 3 {}
    else if r == 4 {} else if r == 5 {} else if r == 6 {} else {}
  }

  lemma ListedHigh(instr: word, r: nat)
    requires 8 <= r < 16
    ensures Listed(instr, r) <==> OctetBit(O1(instr), r - 8)
  {
    if r == 8 {} else if r == 9 {} else if r == 10 {} else if r == 11 {}
    else if r == 12 {} else if r == 13 {} else if r == 14 {} else {}
  }

  lemma {:induction false} LowRank(instr: word, r: nat)
    requires r <= 8
    ensures Rank(instr, r) == Bits(Value(O0(instr)), r)
    decreases r
  {
    hide Listed, OctetBit, HasBit, Value, O0;
    if r > 0 {
      LowRank(instr, r - 1);
      ListedOctet(instr, r - 1);
      OctetHasBit(O0(instr), r - 1);
    }
  }

  lemma {:induction false} HighRank(instr: word, r: nat)
    requires r <= 8
    ensures Rank(instr, 8 + r) == Rank(instr, 8) + Bits(Value(O1(instr)), r)
    decreases r
  {
    hide Listed, OctetBit, HasBit, Value, O1;
    if r > 0 {
      HighRank(instr, r - 1);
      ListedOctet(instr, 8 + r - 1);
      OctetHasBit(O1(instr), r - 1);
    }
  }

  /** `LSMNumRegs`: the two table entries add up to four bytes for each listed register. */
  lemma TableSizesTransfers(instr: word)
    ensures 4 * Bits(Value(O0(instr)), 8) + 4 * Bits(Value(O1(instr)), 8) == NumBytes(instr)
  {
    hide Listed, Value, O0, O1, HasBit;
    LowRank(instr, 8);
    HighRank(instr, 8);
  }

  // ---- Immediate operands ----

  /** The value of a twelve-bit immediate: its low octet rotated right by twice the other four
      bits. */
  function Entry(i: nat): word
    requires i < 4096
  {
    Rotate(Word(i % 0x100), i / 0x80 / 2 * 2)
  }

  /** Where an instruction looks its immediate up: `BITS(0,11)`. */
  function Index(instr: word): (i: nat)
    ensures i < 4096
  {
    hide Nat;
    LowNat(instr);
    Nat(Low12(instr))
  }

  /** The table `ARMul_EmulateInit` builds holds every immediate operand where the instruction
      looks for it. */
  method ImmedTable() returns (table: array<word>)
    ensures table.Length == 4096
    ensures forall instr: word :: table[Index(instr)] == Immediate(instr)
  {
    hide Rotate, Word, Immediate;
    table := new word[4096](i => 0);
    for i := 0 to 4096
      invariant forall h :: 0 <= h < i ==> table[h] == Entry(h)
    {
      table[i] := Rotate(Word(i % 0x100), i / 0x80 / 2 * 2);
    }
    forall instr: word ensures table[Index(instr)] == Immediate(instr) {
      EntryIsImmediate(instr);
    }
  }

  lemma LowNat(instr: word)
    ensures Nat(Low12(instr)) == Value(LowNibble(O1(instr)) as octet) * 0x100 + Value(O0(instr))
    ensures Value(LowNibble(O1(instr)) as octet) < 0x10
  {
    hide Value, O3, O2, O1, O0, LowNibble, Low12;
    LowOctets(instr);
    SmallOctet(LowNibble(O1(instr)));
    assert Value(0) == 0 by { SmallOctet(0); }
  }

  lemma LowOctets(instr: word)
    ensures O3(Low12(instr)) == 0 && O2(Low12(instr)) == 0
    ensures O1(Low12(instr)) == LowNibble(O1(instr)) as octet && O0(Low12(instr)) == O0(instr)
  {}

  lemma SmallOctet(h: nibble)
    ensures Value(h as octet) == h as nat
  {}

  lemma EntryIsImmediate(instr: word)
    ensures Entry(Index(instr)) == Immediate(instr)
  {
    hide Value, O3, O2, O1, O0, LowNibble, Low12, Low8, Rotate, Word, Field, Nat, Index;
    var i := Index(instr);
    IndexIs(instr);
    LowNat(instr);
    OctetNat(instr);
    WordNat(Low8(instr));
    RotationField(instr);
    Parts(i, Field(instr, 8), Nat(Low8(instr)));
  }

  lemma IndexIs(instr: word)
    ensures Index(instr) == Nat(Low12(instr))
  {
    hide Nat, Low12;
  }

  lemma Parts(i: nat, f: nat, v: nat)
    requires i == f * 0x100 + v && v < 0x100
    ensures i % 0x100 == v && i / 0x80 / 2 * 2 == 2 * f
  {}

  lemma OctetNat(instr: word)
    ensures Nat(Low8(instr)) == Value(O0(instr))
  {
    hide Value, O3, O2, O1, O0, Low8;
    OctetOctets(instr);
    assert Value(0) == 0 by { SmallOctet(0); }
  }

  lemma OctetOctets(instr: word)
    ensures var w := Low8(instr); O3(w) == 0 && O2(w) == 0 && O1(w) == 0 && O0(w) == O0(instr)
  {}

  lemma RotationField(instr: word)
    ensures Field(instr, 8) == Value(LowNibble(O1(instr)) as octet)
  {
    hide Value, LowNibble, O1;
    SmallOctet(LowNibble(O1(instr)));
    FieldNibble(instr);
  }

  lemma FieldNibble(instr: word)
    ensures Field(instr, 8) == LowNibble(O1(instr)) as nat
  {
    var w := (instr >> 8) & 0xf;
    assert LowNibble(O1(instr)) == w as nibble;
    NibbleNat(w);
  }

  lemma NibbleNat(w: word)
    requires w <= 0xf
    ensures w as nat == (w as nibble) as nat
  {}
}
