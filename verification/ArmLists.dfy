/** LDM and STM seen from the base register: which words they read and write, what happens to the
    base, and that a list of one register is a single transfer. */
module ArmLists {
  import opened ArmState
  import opened ArmWords
  import opened ArmBanks
  import opened ArmPsr
  import opened ArmPsrLaws
  import opened ArmBlock
  import opened ArmTransfer
  import opened ArmOperands
  import opened ArmExecute
  import opened ArmAccess

  // ---- Addresses ----

  /** The lowest byte address a transfer of `n` registers touches, from the base: increment after,
      increment before, decrement before, decrement after. */
  function Lowest(base: int, instr: word, n: int): int {
    (if Up(instr) && !Before(instr) then base
     else if Up(instr) then base + 4
     else if Before(instr) then base - 4 * n
     else base - 4 * (n - 1)) % 0x1_0000_0000
  }

  lemma StartIsLowest(base: word, instr: word)
    ensures Nat(Start(base, instr)) == Lowest(Nat(base), instr, Count(instr))
  {
    hide Nat, Word, Up, Before, Rank;
    if Up(instr) {
      NatWord(Nat(base) + 4);
    } else {
      NatWord(Nat(base) - NumBytes(instr));
      NatWord(Nat(base) - NumBytes(instr) + 4);
    }
  }

  /** The base register after writeback. */
  function Moved(base: int, instr: word, n: int): int {
    (if Up(instr) then base + 4 * n else base - 4 * n) % 0x1_0000_0000
  }

  lemma FinalIsMoved(base: word, instr: word)
    ensures Nat(Final(base, instr)) == Moved(Nat(base), instr, Count(instr))
  {
    hide Nat, Word, Up, Rank;
    NatWord(Nat(base) + NumBytes(instr));
    NatWord(Nat(base) - NumBytes(instr));
  }

  /** The index of the lowest word touched. */
  function LowWord(c: Cpu, instr: word): (w: int)
    requires Ready(c)
  {
    Lowest(Nat(c.reg[Base(instr)]), instr, Count(instr)) / 4
  }

  /** A list is in reach when all its words are, and are aligned. */
  predicate InReach(m: Machine, instr: word)
    requires Running(m)
  {
    && Lowest(Nat(m.cpu.reg[Base(instr)]), instr, Count(instr)) % 4 == 0
    && 0 <= LowWord(m.cpu, instr) && LowWord(m.cpu, instr) + Count(instr) <= MEMWORDS
  }

  predicate BaseWritten(instr: word) {
    Writes(instr) && Base(instr) != 15
  }

  // ---- Loads ----

  /** The processor when the base has been written back, ahead of the transfer. */
  function Ahead(c: Cpu, instr: word, nonSeq: bool): (d: Cpu)
    requires Ready(c)
    ensures Ready(d)
  {
    WriteBack(IncPc(c, nonSeq), instr, Final(c.reg[Base(instr)], instr))
  }

  lemma AheadOf(c: Cpu, instr: word, nonSeq: bool)
    requires Ready(c)
    ensures var d := Ahead(c, instr, nonSeq);
            && d == c.(reg := d.reg, next := d.next) && d.reg[15] == Forth(c.reg[15])
            && (forall r :: 0 <= r < 15 ==>
                  if BaseWritten(instr) && r == Base(instr)
                  then Nat(d.reg[r]) == Moved(Nat(c.reg[r]), instr, Count(instr))
                  else d.reg[r] == c.reg[r])
  {
    hide Nat, Final, Set, Field, Forth, Rank, Moved;
    FinalIsMoved(c.reg[Base(instr)], instr);
  }

  lemma LoadedWords(reg: seq<word>, instr: word, mem: seq<word>, w: nat)
    requires |reg| == 16 && w + Count(instr) <= |mem|
    ensures var l := Loaded(reg, instr, mem, w);
            && (forall r :: 0 <= r < 16 && Listed(instr, r) ==>
                  w + Rank(instr, r) < |mem| && l[r] == mem[w + Rank(instr, r)])
            && (forall r :: 0 <= r < 16 && !Listed(instr, r) ==> l[r] == reg[r])
  {
    hide Listed;
    forall r | 0 <= r < 16 && Listed(instr, r) ensures Rank(instr, r) < Count(instr) {
      NthOfRank(instr, r);
    }
  }

  lemma ReachFromStart(m: Machine, instr: word)
    requires Running(m) && Transferable(Start(m.cpu.reg[Base(instr)], instr), instr)
    ensures InReach(m, instr) && LowWord(m.cpu, instr) == Nat(Start(m.cpu.reg[Base(instr)], instr)) / 4
  {
    hide Nat, Start, Field, Rank, Lowest;
    StartIsLowest(m.cpu.reg[Base(instr)], instr);
  }

  lemma LoadListIs(m: Machine, instr: word)
    requires Running(m) && Loads(instr) && !UserForm(instr) && BlockTransfer(m, instr).Done?
    ensures InReach(m, instr)
    ensures var a := Ahead(m.cpu, instr, true);
            var d := a.(reg := Loaded(a.reg, instr, m.mem, LowWord(m.cpu, instr)));
            BlockTransfer(m, instr) == Done(m.(cpu := if Listed(instr, 15) then FlushPipe(d) else d))
  {
    hide Listed, Nat, Start, Final, Set, Field, Forth, Abort, Rank, InReach, LowWord, Loaded, IncPc, WriteBack, Transferable;
    ReachFromStart(m, instr);
  }

  /** LDM: the listed registers get ascending words from the lowest address, register 15 too,
      which then is a jump; with writeback the base moves by four bytes for each register, unless
      it was loaded; nothing else changes. */
  lemma LoadsList(m: Machine, instr: word)
    requires Running(m) && Loads(instr) && !UserForm(instr) && BlockTransfer(m, instr).Done?
    ensures var n, w := BlockTransfer(m, instr).m, LowWord(m.cpu, instr);
            && InReach(m, instr) && n.mem == m.mem && n.cpu == m.cpu.(reg := n.cpu.reg, next := n.cpu.next)
            && (forall r :: 0 <= r < 16 && Listed(instr, r) ==>
                  w + Rank(instr, r) < MEMWORDS && n.cpu.reg[r] == m.mem[w + Rank(instr, r)])
            && (forall r :: 0 <= r < 15 && !Listed(instr, r) ==>
                  if BaseWritten(instr) && r == Base(instr)
                  then Nat(n.cpu.reg[r]) == Moved(Nat(m.cpu.reg[r]), instr, Count(instr))
                  else n.cpu.reg[r] == m.cpu.reg[r])
            && (if Listed(instr, 15) then n.cpu.next.prime else n.cpu.reg[15] == Forth(m.cpu.reg[15]))
  {
    hide Listed, Nat, Forth, Rank, Moved, Loaded, Ahead, BlockTransfer, Base, BaseWritten, Loads, UserForm, LowWord;
    LoadListIs(m, instr);
    AheadOf(m.cpu, instr, true);
    LoadedWords(Ahead(m.cpu, instr, true).reg, instr, m.mem, LowWord(m.cpu, instr));
  }

  // ---- Stores ----

  /** What a store writes for a register: register 15 as advanced with its status bits; the base
      as written back, unless it comes first. */
  function Sent(c: Cpu, instr: word, r: nat): word
    requires Ready(c) && r < 16
  {
    if r == 15 then GetR15(IncPc(c, true))
    else if BaseWritten(instr) && r == Base(instr) && Rank(instr, r) > 0 then Final(c.reg[r], instr)
    else c.reg[r]
  }

  lemma StoreListIs(m: Machine, instr: word)
    requires Running(m) && !Loads(instr) && !UserForm(instr) && BlockTransfer(m, instr).Done?
    ensures InReach(m, instr) && Count(instr) > 0
    ensures var d := Written(m.cpu, instr);
            BlockTransfer(m, instr) ==
              Done(Machine(d, Stored(m.mem, instr, Outgoing(Patched(m.cpu, instr), d, instr), LowWord(m.cpu, instr))))
  {
    hide Listed, Nat, Start, Final, Set, Field, Forth, Abort, Rank, InReach, LowWord, Stored, IncPc, WriteBack, Transferable;
    hide Outgoing, PatchR15;
    ReachFromStart(m, instr);
  }

  /** The processor before and after a store writes its base back. */
  function Patched(c: Cpu, instr: word): (d: Cpu)
    requires Ready(c)
    ensures Ready(d)
  {
    if Listed(instr, 15) then PatchR15(IncPc(c, true)) else IncPc(c, true)
  }

  function Written(c: Cpu, instr: word): (d: Cpu)
    requires Ready(c)
    ensures Ready(d)
  {
    WriteBack(Patched(c, instr), instr, Final(c.reg[Base(instr)], instr))
  }

  lemma WrittenKeeps(c: Cpu, instr: word)
    requires Ready(c)
    ensures var d := Written(c, instr);
            && d == c.(reg := d.reg, next := d.next)
            && (forall r :: 0 <= r < 15 ==>
                  if BaseWritten(instr) && r == Base(instr)
                  then Nat(d.reg[r]) == Moved(Nat(c.reg[r]), instr, Count(instr))
                  else d.reg[r] == c.reg[r])
  {
    hide Nat, Final, Set, Field, Forth, Rank, Moved, GetR15, Listed;
    FinalIsMoved(c.reg[Base(instr)], instr);
  }

  lemma OutgoingIsSent(c: Cpu, instr: word, r: nat)
    requires Ready(c) && Count(instr) > 0 && r < 16 && Listed(instr, r)
    ensures Outgoing(Patched(c, instr), Written(c, instr), instr)[r] == Sent(c, instr, r)
  {
    hide Listed, Final, GetR15, Rank, Nth, Patched, Written, Writes, Base, IncPc;
    NthOfRank(instr, r);
    FirstRank(instr, r);
    PatchedRegister(c, instr, r);
    WrittenRegister(c, instr, r);
  }

  lemma PatchedRegister(c: Cpu, instr: word, r: nat)
    requires Ready(c) && r < 16 && Listed(instr, r)
    ensures Patched(c, instr).reg[r] == if r == 15 then GetR15(IncPc(c, true)) else c.reg[r]
  {
    hide Listed, Forth, GetR15;
  }

  lemma WrittenRegister(c: Cpu, instr: word, r: nat)
    requires Ready(c) && r < 16
    ensures Written(c, instr).reg[r] ==
      if BaseWritten(instr) && r == Base(instr) then Final(c.reg[r], instr) else Patched(c, instr).reg[r]
  {
    hide Patched, Final, Writes, Base;
  }

  /** Only the first register of a list has rank zero. */
  lemma FirstRank(instr: word, r: nat)
    requires Count(instr) > 0 && r < 16 && Listed(instr, r)
    ensures Rank(instr, r) == 0 <==> Nth(instr, 0) == r
  {
    hide Listed, Rank, Nth;
    NthOfRank(instr, r);
  }

  /** STM: ascending words from the lowest address become the listed registers, and no other word
      changes; with writeback the base moves by four bytes for each register; no other register
      changes. */
  lemma StoresList(m: Machine, instr: word)
    requires Running(m) && !Loads(instr) && !UserForm(instr) && BlockTransfer(m, instr).Done?
    ensures var n, w := BlockTransfer(m, instr).m, LowWord(m.cpu, instr);
            && InReach(m, instr) && |n.mem| == MEMWORDS && n.cpu == m.cpu.(reg := n.cpu.reg, next := n.cpu.next)
            && (forall r :: 0 <= r < 16 && Listed(instr, r) ==>
                  w + Rank(instr, r) < MEMWORDS && n.mem[w + Rank(instr, r)] == Sent(m.cpu, instr, r))
            && (forall i :: 0 <= i < w || w + Count(instr) <= i < MEMWORDS ==> n.mem[i] == m.mem[i])
            && (forall r :: 0 <= r < 15 ==>
                  if BaseWritten(instr) && r == Base(instr)
                  then Nat(n.cpu.reg[r]) == Moved(Nat(m.cpu.reg[r]), instr, Count(instr))
                  else n.cpu.reg[r] == m.cpu.reg[r])
  {
    hide Listed, Nat, Rank, Moved, Stored, Written, Patched, Outgoing, BlockTransfer, Base, BaseWritten, Loads, UserForm;
    hide LowWord, Sent;
    StoreListIs(m, instr);
    WrittenKeeps(m.cpu, instr);
    StoredWords(m.mem, instr, Outgoing(Patched(m.cpu, instr), Written(m.cpu, instr), instr), LowWord(m.cpu, instr));
    forall r | 0 <= r < 16 && Listed(instr, r)
      ensures Outgoing(Patched(m.cpu, instr), Written(m.cpu, instr), instr)[r] == Sent(m.cpu, instr, r)
    {
      OutgoingIsSent(m.cpu, instr, r);
    }
  }

  // ---- A list of one ----

  /** LDR or STR of the one register of a list, with the same direction, side and writeback, and
      an offset of four bytes. */
  predicate Alone(block: word, single: word) {
    && Count(block) == 1 && Nth(block, 0) == Dest(single) != 15 && Base(block) == Base(single) != 15
    && Up(block) == Up(single) && Before(block) == Before(single) && Loads(block) == Loads(single)
    && Writes(block) == WritesBack(single) && !UserForm(block) && !IsByte(single)
    && !Set(single, 25) && Nat(Low12(single)) == 4
  }

  lemma AloneAddress(base: word, block: word, single: word)
    requires Alone(block, single)
    ensures var moved := Offset(base, Low12(single), Up(single));
            && Start(base, block) == (if Before(single) then moved else base) && Final(base, block) == moved
  {
    hide Nat, Word, Up, Before, Rank, Nth, Loads, Writes, UserForm, IsByte, WritesBack, Set, Dest, Base, Low12;
    WordNat(base);
  }

  lemma AloneList(block: word, single: word, r: nat)
    requires Alone(block, single) && r < 16
    ensures Listed(block, r) <==> r == Dest(single)
    ensures Rank(block, Dest(single)) == 0
  {
    hide Nat, Up, Before, Loads, Writes, UserForm, IsByte, WritesBack, Set, Dest, Base, Low12, Listed, Nth;
    if Listed(block, r) {
      NthOfRank(block, r);
      NthOfRank(block, Dest(single));
    }
  }

  /** When a list transfer is made, and when a single one is. */
  lemma BlockDone(m: Machine, instr: word)
    requires Running(m) && Count(instr) > 0 && !UserForm(instr)
    ensures var a := Start(m.cpu.reg[Base(instr)], instr);
            BlockTransfer(m, instr).Done? <==> !AddressException(a) && Transferable(a, instr)
  {
    hide Nat, Rank, Loads, Base, Start, Final, Listed, Abort, IncPc, Stored, Loaded, GetR15, AddressException;
    hide Transferable, WriteBack, Outgoing, PatchR15;
  }

  lemma SingleDone(m: Machine, instr: word)
    requires Running(m) && !(WritesBack(instr) && Base(instr) == 15)
    ensures SingleTransfer(m, instr).Done? <==> Reaches(Address(m.cpu, instr), instr)
  {
    hide Nat, Loads, Base, Dest, Before, Up, Writes, Offset, LSRHS, LHS, SetLane, Lane, Abort, IncPc, GetR15, WriteDest;
    hide PatchR15;
    InMemory(Address(m.cpu, instr));
  }

  lemma AloneDone(m: Machine, block: word, single: word)
    requires Running(m) && Alone(block, single)
    ensures BlockTransfer(m, block).Done? <==> SingleTransfer(m, single).Done?
    ensures Address(m.cpu, single) == Start(m.cpu.reg[Base(block)], block)
  {
    hide Nat, Up, Before, Rank, Nth, Loads, UserForm, Dest, Base, Low12, Offset, Start, Final, WritesBack, IsByte;
    hide BlockTransfer, SingleTransfer, Set;
    AloneAddress(m.cpu.reg[Base(block)], block, single);
    BlockDone(m, block);
    SingleDone(m, single);
    InMemory(Start(m.cpu.reg[Base(block)], block));
  }

  lemma AloneLoads(block: word, single: word)
    requires Alone(block, single)
    ensures (Loads(block) <==> Loads(single)) && !UserForm(block) && Base(single) == Base(block) && Base(block) != 15
    ensures (Before(block) <==> Before(single)) && (Up(block) <==> Up(single)) && !Set(single, 25) && !IsByte(single)
    ensures (Writes(block) <==> WritesBack(single)) && Dest(single) != 15
  {}

  /** The registers after either load. */
  function Reloaded(reg: seq<word>, dest: nat, v: word, back: bool, base: nat, moved: word): seq<word>
    requires |reg| == 16 && dest < 15 && base < 15
  {
    reg[15 := Forth(reg[15])][base := if back then moved else reg[base]][dest := v]
  }

  lemma ListReloaded(m: Machine, block: word, single: word)
    requires Running(m) && Alone(block, single) && Loads(single) && BlockTransfer(m, block).Done?
    ensures var c, o := m.cpu, BlockTransfer(m, block);
            && Base(block) < 15 && Dest(single) < 15 && 0 <= LowWord(c, block) < MEMWORDS && o.m.mem == m.mem
            && o.m.cpu == c.(next := o.m.cpu.next,
                             reg := Reloaded(c.reg, Dest(single), m.mem[LowWord(c, block)], Writes(block), Base(block),
                                             Final(c.reg[Base(block)], block)))
  {
    hide Nat, Up, Before, Rank, Nth, UserForm, Dest, Base, Start, Final, BlockTransfer, Listed, Forth, LowWord, Writes, Loaded;
    hide Alone, Loads;
    AloneLoads(block, single);
    LoadListIs(m, block);
    AloneList(block, single, 15);
    AloneCount(block, single);
    var a := Ahead(m.cpu, block, true);
    LoadedWords(a.reg, block, m.mem, LowWord(m.cpu, block));
    forall r: nat | r < 16 ensures Listed(block, r) <==> r == Dest(single) {
      AloneList(block, single, r);
    }
    AloneList(block, single, 0);
    assert a.reg == m.cpu.reg[15 := Forth(m.cpu.reg[15])][Base(block) :=
      if Writes(block) then Final(m.cpu.reg[Base(block)], block) else m.cpu.reg[Base(block)]];
  }

  lemma AloneCount(block: word, single: word)
    requires Alone(block, single)
    ensures Count(block) == 1
  {}

  lemma SingleReloaded(m: Machine, single: word)
    requires Running(m) && Loads(single) && Dest(single) < 15 && Base(single) < 15 && SingleTransfer(m, single).Done?
    requires !Set(single, 25) && !IsByte(single)
    ensures var c, o := m.cpu, SingleTransfer(m, single);
            && WordAt(Address(c, single)) < MEMWORDS && o.m.mem == m.mem
            && o.m.cpu == c.(next := o.m.cpu.next,
                             reg := Reloaded(c.reg, Dest(single), m.mem[WordAt(Address(c, single))], WritesBack(single),
                                             Base(single), Offset(c.reg[Base(single)], Low12(single), Up(single))))
  {
    hide Nat, Up, Before, Dest, Base, Low12, Offset, IsByte, SingleTransfer, Set, Forth, WritesBack, Loads;
    LoadIs(m, single);
  }

  /** The registers after either store. */
  function Resent(reg: seq<word>, back: bool, base: nat, moved: word): seq<word>
    requires |reg| == 16 && base < 15
  {
    reg[15 := Forth(reg[15])][base := if back then moved else reg[base]]
  }

  lemma ListResent(m: Machine, block: word, single: word)
    requires Running(m) && Alone(block, single) && !Loads(single) && BlockTransfer(m, block).Done?
    ensures var c, o := m.cpu, BlockTransfer(m, block);
            && Base(block) < 15 && Dest(single) < 15 && 0 <= LowWord(c, block) < MEMWORDS
            && o.m.mem == m.mem[LowWord(c, block) := c.reg[Dest(single)]]
            && o.m.cpu == c.(next := o.m.cpu.next,
                             reg := Resent(c.reg, Writes(block), Base(block), Final(c.reg[Base(block)], block)))
  {
    hide Nat, Up, Before, Rank, Nth, UserForm, Dest, Base, Start, Final, BlockTransfer, Listed, Forth, LowWord, Writes, Stored;
    hide Alone, Loads, Outgoing, GetR15;
    AloneLoads(block, single);
    StoreListIs(m, block);
    AloneList(block, single, 15);
    AloneList(block, single, Dest(single));
    AloneCount(block, single);
    AloneStored(m.mem, block, single, Outgoing(Patched(m.cpu, block), Written(m.cpu, block), block), LowWord(m.cpu, block));
    OutgoingIsSent(m.cpu, block, Dest(single));
    assert Written(m.cpu, block).reg == m.cpu.reg[15 := Forth(m.cpu.reg[15])][Base(block) :=
      if Writes(block) then Final(m.cpu.reg[Base(block)], block) else m.cpu.reg[Base(block)]];
  }

  lemma AloneStored(mem: seq<word>, block: word, single: word, reg: seq<word>, w: nat)
    requires Alone(block, single) && |reg| == 16 && w < |mem|
    ensures Stored(mem, block, reg, w) == mem[w := reg[Dest(single)]]
  {
    hide Rank, Nth;
  }

  lemma SingleResent(m: Machine, single: word)
    requires Running(m) && !Loads(single) && Dest(single) < 15 && Base(single) < 15 && SingleTransfer(m, single).Done?
    requires !Set(single, 25) && !IsByte(single)
    ensures var c, o := m.cpu, SingleTransfer(m, single);
            && WordAt(Address(c, single)) < MEMWORDS
            && o.m.mem == m.mem[WordAt(Address(c, single)) := c.reg[Dest(single)]]
            && o.m.cpu == c.(next := o.m.cpu.next,
                             reg := Resent(c.reg, WritesBack(single), Base(single),
                                           Offset(c.reg[Base(single)], Low12(single), Up(single))))
  {
    hide Nat, Up, Before, Dest, Base, Low12, Offset, IsByte, SingleTransfer, Set, Forth, WritesBack, Loads;
    StoreIs(m, single);
  }

  /** LDM and STM of one register do what LDR and STR do with an offset of four: the same memory
      and the same registers, or neither is carried out. */
  lemma OneIsSingle(m: Machine, block: word, single: word)
    requires Running(m) && Alone(block, single)
    ensures var b, s := BlockTransfer(m, block), SingleTransfer(m, single);
            && (b.Done? <==> s.Done?)
            && (b.Done? ==> b.m.mem == s.m.mem && b.m.cpu == s.m.cpu.(next := b.m.cpu.next))
  {
    hide Alone, BlockTransfer, SingleTransfer, Loads, Address, Start, Final, Base, Reloaded, Resent, Dest, Nat, Offset;
    hide Before, Up, Low12, LowWord, Set, IsByte, Writes, WritesBack;
    AloneDone(m, block, single);
    if SingleTransfer(m, single).Done? {
      AloneLoads(block, single);
      AloneAddress(m.cpu.reg[Base(block)], block, single);
      SameWord(m, block, single);
      if Loads(single) {
        ListReloaded(m, block, single);
        SingleReloaded(m, single);
      } else {
        ListResent(m, block, single);
        SingleResent(m, single);
      }
    }
  }

  lemma SameWord(m: Machine, block: word, single: word)
    requires Running(m) && Alone(block, single)
    ensures LowWord(m.cpu, block) == WordAt(Address(m.cpu, single))
  {
    hide Nat, Alone, Start, Base, Lowest, Rank, Address;
    AloneDone(m, block, single);
    StartIsLowest(m.cpu.reg[Base(block)], block);
  }
}
