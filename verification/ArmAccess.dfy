/** LDR, STR, LDRB and STRB as reads and writes of the bytes of a little-endian memory, and of
    the registers they change. */
module ArmAccess {
  import opened ArmState
  import opened ArmWords
  import opened ArmFlags
  import opened ArmPsr
  import opened ArmBlock
  import opened ArmTransfer
  import opened ArmOperands
  import opened ArmExecute

  // ---- Bytes ----

  /** Byte `k` of a word, counted from the low end. */
  function ByteOf(w: word, k: nat): nat {
    Nat(w) / (if k == 0 then 1 else if k == 1 then 0x100 else if k == 2 then 0x1_0000 else 0x100_0000) % 0x100
  }

  function ByteAt(mem: seq<word>, x: nat): nat
    requires x / 4 < |mem|
  {
    ByteOf(mem[x / 4], x % 4)
  }

  lemma BytesOf(w: word)
    ensures ByteOf(w, 0) == Value(O0(w)) && ByteOf(w, 1) == Value(O1(w))
    ensures ByteOf(w, 2) == Value(O2(w)) && ByteOf(w, 3) == Value(O3(w))
  {
    hide Value, O3, O2, O1, O0;
    Digits(Value(O3(w)), Value(O2(w)), Value(O1(w)), Value(O0(w)));
  }

  lemma NoOctet()
    ensures Value(0) == 0
  {}

  lemma LaneByte(w: word, address: word)
    ensures Nat(Lane(w, address)) == ByteOf(w, Nat(address) % 4)
  {
    hide Value, O3, O2, O1, O0, Glue, ByteOf;
    var k := Nat(address) % 4;
    var b := if k == 0 then O0(w) else if k == 1 then O1(w) else if k == 2 then O2(w) else O3(w);
    BytesOf(w);
    GlueOctets(0, 0, 0, b);
    NoOctet();
  }

  /** Replacing the byte at an address replaces that byte alone. */
  lemma SetLaneBytes(w: word, address: word, v: word, j: nat)
    requires j < 4
    ensures ByteOf(SetLane(w, address, v), j) == if j == Nat(address) % 4 then Nat(v) % 0x100 else ByteOf(w, j)
  {
    hide Value, O3, O2, O1, O0, Glue, ByteOf, Nat;
    var k := Nat(address) % 4;
    BytesOf(w);
    BytesOf(v);
    BytesOf(SetLane(w, address, v));
    LowByte(v);
    GlueOctets(if k == 3 then O0(v) else O3(w), if k == 2 then O0(v) else O2(w),
               if k == 1 then O0(v) else O1(w), if k == 0 then O0(v) else O0(w));
  }

  lemma LowByte(v: word)
    ensures ByteOf(v, 0) == Nat(v) % 0x100
  {
    hide Nat;
  }

  // ---- Addresses ----

  /** An offset with its direction. */
  function Signed(off: word, up: bool): int {
    if up then Nat(off) else 0 - Nat(off)
  }

  lemma OffsetNat(base: word, off: word, up: bool)
    ensures Nat(Offset(base, off, up)) == (Nat(base) + Signed(off, up)) % 0x1_0000_0000
  {
    hide Nat, Word;
    NatWord(Nat(base) + Signed(off, up));
  }

  /** The base register moved by the offset, as the processor holds both. */
  function Moved(c: Cpu, base: word, instr: word): word
    requires Ready(c)
  {
    Offset(base, LSRHS(c, instr), Up(instr))
  }

  /** Where a transfer reads or writes: the base, moved first in the pre-indexed forms. */
  function Address(c: Cpu, instr: word): word
    requires Ready(c)
  {
    if Before(instr) then Moved(c, LHS(c, instr), instr) else LHS(c, instr)
  }

  predicate WritesBack(instr: word) {
    !Before(instr) || Writes(instr)
  }

  predicate IsByte(instr: word) {
    Set(instr, 22)
  }

  /** The transfer is inside memory, and aligned if it is of a word. */
  predicate Reaches(address: word, instr: word) {
    Nat(address) / 4 < MEMWORDS && (IsByte(instr) || Nat(address) % 4 == 0)
  }

  // ---- Loads ----

  /** What a load takes from memory. */
  function LoadValue(m: Machine, instr: word, address: word): word
    requires |m.mem| == MEMWORDS && Reaches(address, instr)
  {
    var w := m.mem[WordAt(address)];
    if IsByte(instr) then Lane(w, address) else w
  }

  /** The processor when the destination has been loaded. */
  function Filled(c: Cpu, instr: word, v: word): (d: Cpu)
    requires Ready(c)
    ensures Ready(d)
  {
    SetReg(IncPc(c, false), Dest(instr), v)
  }

  lemma LoadIs(m: Machine, instr: word)
    requires Running(m) && Loads(instr) && Dest(instr) != 15 && SingleTransfer(m, instr).Done?
    ensures var c, a := m.cpu, Address(m.cpu, instr);
            && Reaches(a, instr)
            && var d := Filled(c, instr, LoadValue(m, instr, a));
               && (WritesBack(instr) ==> Base(instr) != 15)
               && SingleTransfer(m, instr).m == m.(cpu :=
                    if WritesBack(instr) && Base(instr) != Dest(instr)
                    then SetReg(d, Base(instr), if Before(instr) then a else Moved(d, LHS(c, instr), instr))
                    else d)
  {
    hide Nat, Offset, LSRHS, LHS, Before, Up, Writes, Loads, Dest, Base, Lane, IncPc, Set, Abort;
    InMemory(Address(m.cpu, instr));
  }

  lemma InMemory(address: word)
    ensures !AddressException(address) <==> Nat(address) / 4 < MEMWORDS
  {
    hide Nat;
  }

  /** Where the address comes from: the base register, and in the pre-indexed forms the offset. */
  lemma AddressNat(c: Cpu, instr: word)
    requires Ready(c)
    ensures Nat(Address(c, instr)) ==
      if Before(instr) then (Nat(LHS(c, instr)) + Signed(LSRHS(c, instr), Up(instr))) % 0x1_0000_0000
      else Nat(LHS(c, instr))
  {
    hide Nat, Offset, LSRHS, LHS, Before, Up;
    OffsetNat(LHS(c, instr), LSRHS(c, instr), Up(instr));
  }

  /** Apart from register 15 and the pipeline, which a transfer advances, only registers `r` and
      `s` change. */
  ghost predicate TransfersOnly(c: Cpu, d: Cpu, r: nat, s: nat)
    requires Ready(c)
  {
    && |d.reg| == 16 && (forall k :: 0 <= k < 15 && k != r && k != s ==> d.reg[k] == c.reg[k])
    && d == c.(reg := d.reg, next := d.next)
  }

  /** What writeback leaves in the base: the address, or for the post-indexed forms the base moved
      by the offset, as the processor `d` holds it after the transfer. */
  predicate BaseMoved(c: Cpu, d: Cpu, instr: word, v: word)
    requires Ready(c) && Ready(d)
  {
    Nat(v) == if Before(instr) then Nat(Address(c, instr))
              else (Nat(LHS(c, instr)) + Signed(LSRHS(d, instr), Up(instr))) % 0x1_0000_0000
  }

  /** LDR and LDRB: the destination gets the word, or the byte with zeros above it, that memory
      holds at the address; memory stays; and with writeback the base moves by the offset, unless
      the base was the destination. After the load, so that a post-indexed offset in the
      destination register is the loaded one. */
  lemma LoadReads(m: Machine, instr: word)
    requires Running(m) && Loads(instr) && Dest(instr) != 15 && SingleTransfer(m, instr).Done?
    ensures var n, a := SingleTransfer(m, instr).m, Nat(Address(m.cpu, instr));
            var back := WritesBack(instr) && Base(instr) != Dest(instr);
            && n.mem == m.mem && a / 4 < MEMWORDS && (!IsByte(instr) ==> a % 4 == 0)
            && Nat(n.cpu.reg[Dest(instr)]) == (if IsByte(instr) then ByteAt(m.mem, a) else Nat(m.mem[a / 4]))
            && TransfersOnly(m.cpu, n.cpu, Dest(instr), if back then Base(instr) else Dest(instr))
            && (back ==> BaseMoved(m.cpu, Filled(m.cpu, instr, n.cpu.reg[Dest(instr)]), instr, n.cpu.reg[Base(instr)]))
  {
    hide Nat, Offset, LSRHS, LHS, Before, Up, Writes, Loads, Dest, Base, Lane, Set, SingleTransfer, ByteOf, Address;
    hide Signed, Forth;
    var a := Address(m.cpu, instr);
    LoadIs(m, instr);
    LaneByte(m.mem[WordAt(a)], a);
    var d := Filled(m.cpu, instr, LoadValue(m, instr, a));
    OffsetNat(LHS(m.cpu, instr), LSRHS(d, instr), Up(instr));
  }

  // ---- Stores ----

  /** The register a store writes to memory; register 15 with its status bits, as advanced. */
  function StoreValue(c: Cpu, instr: word): word
    requires Ready(c)
  {
    if Dest(instr) == 15 then GetR15(IncPc(c, true)) else c.reg[Dest(instr)]
  }

  /** The processor when memory has been written. */
  function Emptied(c: Cpu, instr: word): (d: Cpu)
    requires Ready(c)
    ensures Ready(d)
  {
    if Dest(instr) == 15 then PatchR15(IncPc(c, true)) else IncPc(c, true)
  }

  lemma StoreIs(m: Machine, instr: word)
    requires Running(m) && !Loads(instr) && SingleTransfer(m, instr).Done?
    ensures var c, a := m.cpu, Address(m.cpu, instr);
            && Reaches(a, instr)
            && var d, v, w := Emptied(c, instr), StoreValue(c, instr), WordAt(a);
               && (WritesBack(instr) ==> Base(instr) != 15)
               && SingleTransfer(m, instr).m == Machine(
                    if WritesBack(instr)
                    then SetReg(d, Base(instr), if Before(instr) then a else Moved(d, LHS(c, instr), instr))
                    else d,
                    m.mem[w := if IsByte(instr) then SetLane(m.mem[w], a, v) else v])
  {
    hide Nat, Offset, LSRHS, LHS, Before, Up, Writes, Loads, Dest, Base, SetLane, Set, Abort, Forth, GetR15;
    InMemory(Address(m.cpu, instr));
  }

  /** STR and STRB: the bytes of the word at the address become those of the register, or the
      one byte at the address its lowest, and no other byte of memory changes. */
  lemma StoreWrites(m: Machine, instr: word, x: nat)
    requires Running(m) && !Loads(instr) && SingleTransfer(m, instr).Done? && x / 4 < MEMWORDS
    ensures var n, a, v := SingleTransfer(m, instr).m, Nat(Address(m.cpu, instr)), StoreValue(m.cpu, instr);
            && |n.mem| == MEMWORDS && a / 4 < MEMWORDS && (!IsByte(instr) ==> a % 4 == 0)
            && ByteAt(n.mem, x) == (if IsByte(instr) then if x == a then Nat(v) % 0x100 else ByteAt(m.mem, x)
                                    else if a <= x < a + 4 then ByteOf(v, x - a) else ByteAt(m.mem, x))
  {
    hide Nat, Offset, LSRHS, LHS, Before, Up, Writes, Loads, Dest, Base, SetLane, Set, SingleTransfer, ByteOf;
    hide Address, Emptied, StoreValue;
    var a, v := Address(m.cpu, instr), StoreValue(m.cpu, instr);
    StoreIs(m, instr);
    if IsByte(instr) {
      SetLaneBytes(m.mem[WordAt(a)], a, v, x % 4);
    }
  }

  lemma EmptiedOnly(c: Cpu, instr: word)
    requires Ready(c)
    ensures TransfersOnly(c, Emptied(c, instr), 15, 15)
  {
    hide Dest, Forth, GetR15;
  }

  /** A store changes no register but a base written back. */
  lemma StoreKeeps(m: Machine, instr: word)
    requires Running(m) && !Loads(instr) && SingleTransfer(m, instr).Done?
    ensures var n := SingleTransfer(m, instr).m;
            && TransfersOnly(m.cpu, n.cpu, 15, if WritesBack(instr) then Base(instr) else 15)
            && (WritesBack(instr) ==> BaseMoved(m.cpu, Emptied(m.cpu, instr), instr, n.cpu.reg[Base(instr)]))
  {
    hide Nat, Offset, LSRHS, LHS, Before, Up, Writes, Loads, Dest, Base, SetLane, Set, SingleTransfer, Address;
    hide Signed, Forth, GetR15;
    hide StoreValue, Emptied;
    StoreIs(m, instr);
    EmptiedOnly(m.cpu, instr);
    OffsetNat(LHS(m.cpu, instr), LSRHS(Emptied(m.cpu, instr), instr), Up(instr));
  }

  /** A load of the width and from the address of a store gives back what was stored, the low
      byte of it for STRB and LDRB, as long as memory has not changed in between. */
  lemma StoredIsLoaded(m: Machine, store: word, n: Machine, load: word)
    requires Running(m) && !Loads(store) && SingleTransfer(m, store).Done?
    requires Running(n) && Loads(load) && Dest(load) != 15 && SingleTransfer(n, load).Done?
    requires n.mem == SingleTransfer(m, store).m.mem
    requires IsByte(store) == IsByte(load) && Address(n.cpu, load) == Address(m.cpu, store)
    ensures var v, r := StoreValue(m.cpu, store), SingleTransfer(n, load).m.cpu.reg[Dest(load)];
            Nat(r) == if IsByte(store) then Nat(v) % 0x100 else Nat(v)
  {
    hide Nat, Offset, LSRHS, LHS, Before, Up, Writes, Loads, Dest, Base, SetLane, Set, SingleTransfer, ByteOf;
    hide Address, Signed, Forth, GetR15;
    hide StoreValue, Filled, Emptied, TransfersOnly;
    var a := Address(m.cpu, store);
    StoreIs(m, store);
    LoadReads(n, load);
    if IsByte(store) {
      StoreWrites(m, store, Nat(a));
    }
  }

  // ---- Swaps ----

  /** SWP and SWPB: the destination gets the word at the address in the base register, or the byte
      there with zeros above it, and that word or byte becomes the other register, as it was;
      no other byte of memory and no other register changes. */
  lemma Swaps(m: Machine, instr: word, x: nat)
    requires Running(m) && Swap(m, instr).Done? && x / 4 < MEMWORDS
    ensures var c, n, a := m.cpu, Swap(m, instr).m, Nat(LHS(m.cpu, instr));
            var v := if RHSReg(instr) == 15 then Forth(c.reg[15]) else c.reg[RHSReg(instr)];
            && Dest(instr) < 15 && a / 4 < MEMWORDS && (!IsByte(instr) ==> a % 4 == 0) && |n.mem| == MEMWORDS
            && Nat(n.cpu.reg[Dest(instr)]) == (if IsByte(instr) then ByteAt(m.mem, a) else Nat(m.mem[a / 4]))
            && ByteAt(n.mem, x) == (if IsByte(instr) then if x == a then Nat(v) % 0x100 else ByteAt(m.mem, x)
                                    else if a <= x < a + 4 then ByteOf(v, x - a) else ByteAt(m.mem, x))
            && TransfersOnly(c, n.cpu, Dest(instr), Dest(instr))
  {
    hide Nat, LHS, Dest, Lane, SetLane, Set, ByteOf, RHSReg, Forth;
    var a := LHS(m.cpu, instr);
    InMemory(a);
    var w, v := m.mem[WordAt(a)], IncPc(m.cpu, false).reg[RHSReg(instr)];
    LaneByte(w, a);
    if IsByte(instr) {
      SetLaneBytes(w, a, v, x % 4);
    }
  }

  /** The offset a post-indexed base moves by is the one from before the transfer, unless it comes
      from register 15 or from the register just loaded. */
  lemma OffsetKept(c: Cpu, instr: word, v: word)
    requires Ready(c)
    requires Set(instr, 25) ==> RHSReg(instr) != 15
    ensures LSRHS(Emptied(c, instr), instr) == LSRHS(c, instr)
    ensures (Set(instr, 25) ==> RHSReg(instr) != Dest(instr)) ==> LSRHS(Filled(c, instr, v), instr) == LSRHS(c, instr)
  {
    hide ShiftByConst, ShiftKind, ShiftAmount, RHSReg, Dest, Low12, Set, Forth, GetR15;
  }

  /** LDR r0, [r1], r0 */
  const LOAD_BY_ITSELF: word := 0xe691_0000

  lemma Encoding()
    ensures var i := LOAD_BY_ITSELF;
            && ConditionOf(i) == AL && !Set(i, 27) && Set(i, 26) && Set(i, 25) && !Set(i, 4)
            && Loads(i) && !IsByte(i) && !Before(i) && Up(i) && Dest(i) == 0 && Base(i) == 1
            && Low12(i) < 15 && RHSReg(i) == 0
  {}

  /** A post-indexed load whose offset register is its destination moves its base by the word it
      loads: for the instruction above, on every machine whose r1 is a word address. That is the
      base moved by the offset register as it was exactly when this held that word already. */
  lemma MovedByLoaded(m: Machine, pc: word)
    requires Running(m) && Nat(m.cpu.reg[1]) / 4 < MEMWORDS && Nat(m.cpu.reg[1]) % 4 == 0
    ensures var o, w := Execute(m, pc, LOAD_BY_ITSELF), m.mem[Nat(m.cpu.reg[1]) / 4];
            && o.Done? && o.m.cpu.reg[0] == w && Nat(o.m.cpu.reg[1]) == (Nat(m.cpu.reg[1]) + Nat(w)) % 0x1_0000_0000
            && (m.cpu.reg[0] == w <==> Nat(o.m.cpu.reg[1]) == (Nat(m.cpu.reg[1]) + Nat(m.cpu.reg[0])) % 0x1_0000_0000)
  {
    hide Nat, Set, ConditionOf, Loads, Before, Up, Dest, Base, Low12, RHSReg, IncPc, Offset, Abort, Lane;
    hide WriteR15, BlockTransfer, Processing, Multiplies, Branch;
    Encoding();
    InMemory(m.cpu.reg[1]);
    var w := m.mem[Nat(m.cpu.reg[1]) / 4];
    OffsetNat(m.cpu.reg[1], w, true);
    SameSum(m.cpu.reg[1], m.cpu.reg[0], w);
  }

  lemma SameSum(base: word, v: word, w: word)
    ensures (Nat(base) + Nat(v)) % 0x1_0000_0000 == (Nat(base) + Nat(w)) % 0x1_0000_0000 <==> v == w
  {
    hide Nat, Word;
    WordNat(v);
    WordNat(w);
  }
}
