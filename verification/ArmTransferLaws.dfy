/** Stores and loads of register lists undo each other. */
module ArmTransferLaws {
  import opened ArmState
  import opened ArmWords
  import opened ArmPsr
  import opened ArmPsrLaws
  import opened ArmBlock
  import opened ArmTransfer

  // ---- Stack pairings ----

  /** The load a stack discipline pairs with a store: same registers and base, opposite
      direction, opposite side of the base. */
  predicate Pops(ld: word, st: word) {
    && !Loads(st) && Loads(ld) && !UserForm(st) && !UserForm(ld) && Writes(st) && Writes(ld)
    && Base(ld) == Base(st) && Up(ld) != Up(st) && Before(ld) != Before(st)
    && forall r :: 0 <= r < 16 ==> (Listed(ld, r) <==> Listed(st, r))
  }

  lemma {:induction false} SameRank(ld: word, st: word, r: nat)
    requires r <= 16 && forall q :: 0 <= q < 16 ==> (Listed(ld, q) <==> Listed(st, q))
    ensures Rank(ld, r) == Rank(st, r)
    decreases r
  {
    hide Listed;
    if r > 0 {
      SameRank(ld, st, r - 1);
    }
  }

  /** The load starts where the store did, and moves the base back. */
  lemma PopAddresses(ld: word, st: word, base: word)
    requires Pops(ld, st)
    ensures Count(ld) == Count(st)
    ensures Start(Final(base, st), ld) == Start(base, st)
    ensures Final(Final(base, st), ld) == base
  {
    hide Listed, Nat, Word, Set, Rank;
    SameRank(ld, st, 16);
    var n: int := NumBytes(st);
    WordNat(base);
    if Up(st) {
      Wrapped(Nat(base), n, -n);
      Wrapped(Nat(base), n, -n + 4);
    } else {
      Wrapped(Nat(base), -n, n);
      Wrapped(Nat(base), -n, 4);
      WordNat(Final(base, st));
    }
  }

  /** Wrapping once or twice is the same. */
  lemma Wrapped(base: int, d: int, e: int)
    ensures Word(Nat(Word(base + d)) + e) == Word(base + d + e)
  {
    hide Nat, Word;
    NatWord(base + d);
    ModuloTwice(base + d, e);
    WordModulo((base + d) % 0x1_0000_0000 + e, base + d + e);
  }

  lemma ModuloTwice(x: int, e: int)
    ensures (x % 0x1_0000_0000 + e) % 0x1_0000_0000 == (x + e) % 0x1_0000_0000
  {
    var q := x / 0x1_0000_0000;
    assert x + e == x % 0x1_0000_0000 + e + q * 0x1_0000_0000;
  }

  lemma WordModulo(a: int, b: int)
    requires a % 0x1_0000_0000 == b % 0x1_0000_0000
    ensures Word(a) == Word(b)
  {
    hide Glue, Octet;
  }

  /** Where a transfer starts, as a word index. */
  function FirstWord(m: Machine, instr: word): (w: nat)
    requires Running(m)
    ensures Transferable(Start(m.cpu.reg[Base(instr)], instr), instr) ==> w + Count(instr) <= MEMWORDS
  {
    Nat(Start(m.cpu.reg[Base(instr)], instr)) / 4
  }

  /** A transfer with writeback of registers other than the base and register 15, within
      memory. */
  predicate Plain(m: Machine, instr: word)
    requires Running(m)
  {
    && Count(instr) > 0 && !UserForm(instr) && Writes(instr)
    && Base(instr) != 15 && !Listed(instr, Base(instr)) && !Listed(instr, 15)
    && var a := Start(m.cpu.reg[Base(instr)], instr); !AddressException(a) && Transferable(a, instr)
  }

  /** A store with writeback, seen through its result. */
  lemma Pushed(m: Machine, st: word)
    requires Running(m) && Plain(m, st) && !Loads(st)
    ensures var o := BlockTransfer(m, st);
            && o.Done? && o.m.mem == Stored(m.mem, st, m.cpu.reg, FirstWord(m, st))
            && o.m.cpu.reg[Base(st)] == Final(m.cpu.reg[Base(st)], st)
            && Confined(m.cpu, o.m.cpu) && o.m.cpu.flags == m.cpu.flags
  {
    hide Listed, Nat, Start, Final, Set, Field, Forth, GetR15, Abort;
    var a := IncPc(m.cpu, true);
    var d := WriteBack(a, st, Final(m.cpu.reg[Base(st)], st));
    SameStores(m.mem, st, Outgoing(a, d, st), m.cpu.reg, FirstWord(m, st));
  }

  /** Only the listed registers matter to a store. */
  lemma SameStores(mem: seq<word>, instr: word, r: seq<word>, s: seq<word>, w: nat)
    requires |r| == |s| == 16 && w + Count(instr) <= |mem|
    requires forall i :: 0 <= i < 16 && Listed(instr, i) ==> r[i] == s[i]
    ensures Stored(mem, instr, r, w) == Stored(mem, instr, s, w)
  {
    hide Listed;
  }

  /** What has to survive between a store and the load that undoes it: the base it left, and
      the words it stored. */
  predicate Kept(m: Machine, st: word, later: Machine)
    requires Running(m) && Plain(m, st) && Running(later)
  {
    var o := BlockTransfer(m, st);
    var w := FirstWord(m, st);
    && o.Done? && later.cpu.reg[Base(st)] == o.m.cpu.reg[Base(st)]
    && later.mem[w..w + Count(st)] == o.m.mem[w..w + Count(st)]
  }

  /** Whatever ran in between, as long as it kept the base and the stored words, the paired load
      restores every listed register and the base, and changes no other and no memory. */
  lemma PushPop(m: Machine, st: word, later: Machine, ld: word)
    requires Running(m) && Running(later) && Pops(ld, st) && Plain(m, st) && Kept(m, st, later)
    ensures var o := BlockTransfer(later, ld);
            && o.Done? && o.m.mem == later.mem && Confined(later.cpu, o.m.cpu)
            && forall r :: 0 <= r < 15 ==>
                 o.m.cpu.reg[r] == if Listed(st, r) || r == Base(st) then m.cpu.reg[r] else later.cpu.reg[r]
  {
    hide Listed, Nat, Start, Final, Set, Field, Abort, Stored, Loaded, Transferable, AddressException, StoreMult;
    hide LoadMult, Confined, BlockTransfer, Pops, Rank, Nth;
    PopsFields(ld, st);
    var base := m.cpu.reg[Base(st)];
    var w := FirstWord(m, st);
    Pushed(m, st);
    PopAddresses(ld, st, base);
    SameTransferable(ld, st, Start(base, st));
    var o := BlockTransfer(later, ld);
    Popped(later, ld);
    forall r | 0 <= r < 15 && Listed(st, r) ensures o.m.cpu.reg[r] == m.cpu.reg[r] {
      PoppedRegister(m, st, later.mem, w, ld, r);
    }
  }

  lemma PopsFields(ld: word, st: word)
    requires Pops(ld, st)
    ensures !Loads(st) && !UserForm(st) && Writes(st) && Loads(ld) && !UserForm(ld) && Writes(ld)
    ensures Base(ld) == Base(st) && forall r :: 0 <= r < 16 ==> (Listed(ld, r) <==> Listed(st, r))
  {}

  lemma SameTransferable(ld: word, st: word, address: word)
    requires Count(ld) == Count(st)
    ensures Transferable(address, ld) <==> Transferable(address, st)
    ensures Transferable(address, st) ==> Nat(address) / 4 + Count(st) <= MEMWORDS
  {}

  /** The word the load reads for a register is the one the store wrote for it. */
  lemma PoppedRegister(m: Machine, st: word, mem: seq<word>, w: nat, ld: word, r: nat)
    requires Running(m) && |mem| == MEMWORDS && w + Count(st) <= MEMWORDS && Pops(ld, st) && r < 16 && Listed(st, r)
    requires mem[w..w + Count(st)] == Stored(m.mem, st, m.cpu.reg, w)[w..w + Count(st)]
    ensures w + Rank(ld, r) < MEMWORDS && mem[w + Rank(ld, r)] == m.cpu.reg[r]
  {
    hide Listed, Set, Field, Rank, Nth, Stored, Pops;
    PopsFields(ld, st);
    SameRank(ld, st, r);
    NthOfRank(st, r);
    StoredWords(m.mem, st, m.cpu.reg, w);
    SliceAt(mem, Stored(m.mem, st, m.cpu.reg, w), w, w + Count(st), w + Rank(st, r));
  }

  lemma SliceAt(s: seq<word>, t: seq<word>, lo: nat, hi: nat, k: nat)
    requires lo <= k < hi <= |s| == |t| && s[lo..hi] == t[lo..hi]
    ensures s[k] == t[k]
  {
    assert s[k] == s[lo..hi][k - lo] && t[k] == t[lo..hi][k - lo];
  }

  /** A load with writeback, register by register. */
  lemma Popped(m: Machine, ld: word)
    requires Running(m) && Plain(m, ld) && Loads(ld)
    ensures var o := BlockTransfer(m, ld);
            var w := FirstWord(m, ld);
            && o.Done? && o.m.mem == m.mem && Confined(m.cpu, o.m.cpu)
            && w + Count(ld) <= MEMWORDS
            && forall r :: 0 <= r < 15 ==>
                 && (Listed(ld, r) ==> w + Rank(ld, r) < MEMWORDS)
                 && o.m.cpu.reg[r] == if Listed(ld, r) then m.mem[w + Rank(ld, r)]
                                      else if r == Base(ld) then Final(m.cpu.reg[r], ld) else m.cpu.reg[r]
  {
    hide Listed, Nat, Start, Final, Set, Field, Forth, Abort, Transferable, Rank;
    forall r | 0 <= r < 15 && Listed(ld, r) ensures Rank(ld, r) < Count(ld) {
      NthOfRank(ld, r);
    }
  }
}
