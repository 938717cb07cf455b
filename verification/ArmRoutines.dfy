/** The emulator's loops: register-list transfers over real memory, the long multiplies, the
    fetch at the top of the emulation loop, and the bit-count table. */
module ArmRoutines {
  import opened ArmState
  import opened ArmWords
  import opened ArmBlock
  import opened ArmTransfer
  import opened ArmEmulator
  import ArmPsr
  import ArmBanks
  import ArmPipeline
  import ArmMultiply
  import ArmFlags
  import ArmExecute

  /** An emulator with its memory, each in an array of its own. */
  predicate Sound(s: ARMul, mem: array<word>)
    reads s`NFlag, s`ZFlag, s`CFlag, s`VFlag, s`IFFlags, s`Bank, s`Mode, s`NextInstr, s.Reg, s.RegBank, s.Spsr
  {
    s.Valid() && mem.Length == MEMWORDS && mem != s.Reg && mem != s.Spsr
  }

  function Now(s: ARMul, mem: array<word>): (m: Machine)
    requires Sound(s, mem)
    reads s`NFlag, s`ZFlag, s`CFlag, s`VFlag, s`IFFlags, s`Bank, s`Mode, s`NextInstr, s.Reg, s.RegBank, s.Spsr, mem
    ensures Running(m)
  {
    Machine(s.View(), mem[..])
  }

  // ---- Register-list transfers ----

  /** The first listed register. */
  method FirstListed(instr: word) returns (temp: nat)
    requires Count(instr) > 0
    ensures temp < 16 && Listed(instr, temp) && Rank(instr, temp) == 0
    ensures temp == Nth(instr, 0) && forall r :: 0 <= r < temp ==> !Listed(instr, r)
  {
    hide Listed;
    temp := 0;
    while !Listed(instr, temp)
      invariant temp < 16 && Rank(instr, temp) == 0
      invariant forall r :: 0 <= r < temp ==> !Listed(instr, r)
      decreases 16 - temp
    {
      temp := temp + 1;
    }
    NthOfRank(instr, temp);
  }

  lemma RankStep(instr: word, r: nat)
    requires r < 16
    ensures Rank(instr, r + 1) == Rank(instr, r) + (if Listed(instr, r) then 1 else 0)
    ensures Rank(instr, r + 1) <= Count(instr)
  {
    hide Listed;
    RankGrows(instr, r + 1, 16);
  }

  lemma LoadedStep(was: seq<word>, instr: word, mem: seq<word>, w: nat, r: nat)
    requires |was| == 16 && w + Count(instr) <= |mem| && r < 16
    ensures LoadedAt(was, instr, mem, w, r) ==
      if Listed(instr, r) && w + Rank(instr, r) < |mem| then mem[w + Rank(instr, r)] else was[r]
  {
    hide Listed, Rank;
    if Listed(instr, r) {
      NthOfRank(instr, r);
    }
  }

  /** Loads the listed registers from consecutive words. */
  method LoadWords(reg: array<word>, mem: array<word>, instr: word, start: nat)
    requires reg.Length == 16 && mem.Length == MEMWORDS && mem != reg
    requires Count(instr) > 0 && start % 4 == 0 && start / 4 + Count(instr) <= MEMWORDS
    modifies reg
    ensures reg[..] == Loaded(old(reg[..]), instr, mem[..], start / 4)
  {
    hide Listed, Rank, LoadedAt;
    ghost var was := reg[..];
    ghost var words := mem[..];
    ghost var w := start / 4;
    var address := start;
    var temp := FirstListed(instr);
    reg[temp] := mem[address / 4];
    forall r | 0 <= r <= temp ensures reg[r] == LoadedAt(was, instr, words, w, r) {
      LoadedStep(was, instr, words, w, r);
    }
    RankStep(instr, temp);
    temp := temp + 1;
    while temp < 16
      invariant temp <= 16 && 0 < Rank(instr, temp) <= Count(instr) && address == start + 4 * (Rank(instr, temp) - 1)
      invariant forall r :: 0 <= r < 16 ==> reg[r] == if r < temp then LoadedAt(was, instr, words, w, r) else was[r]
    {
      RankStep(instr, temp);
      LoadedStep(was, instr, words, w, temp);
      if Listed(instr, temp) {
        address := address + 4;
        reg[temp] := mem[address / 4];
      }
      temp := temp + 1;
    }
  }

  method LoadList(s: ARMul, mem: array<word>, instr: word, start: word)
    requires s.Shaped() && mem.Length == MEMWORDS && mem != s.Reg
    requires Count(instr) > 0 && Transferable(start, instr)
    modifies s.Reg
    ensures s.Shaped() && s.View() == old(s.View()).(reg := Loaded(old(s.Reg[..]), instr, mem[..], Nat(start) / 4))
  {
    hide Loaded, Rank, Nat;
    LoadWords(s.Reg, mem, instr, Nat(start));
  }

  /** Stores the listed registers after the first to consecutive words. */
  method StoreRest(reg: array<word>, mem: array<word>, instr: word, start: nat, first: nat)
    requires reg.Length == 16 && mem.Length == MEMWORDS && mem != reg
    requires start % 4 == 0 && start / 4 + Count(instr) <= MEMWORDS
    requires first < 16 && Listed(instr, first) && Rank(instr, first) == 0
    modifies mem
    ensures forall i :: 0 <= i < MEMWORDS ==>
      mem[i] == if start / 4 < i < start / 4 + Count(instr) then reg[Nth(instr, i - start / 4)] else old(mem[i])
  {
    hide Listed, Rank, Nth;
    ghost var was := mem[..];
    ghost var w := start / 4;
    var address := start;
    RankStep(instr, first);
    var temp := first + 1;
    while temp < 16
      invariant temp <= 16 && 0 < Rank(instr, temp) <= Count(instr) && address == start + 4 * (Rank(instr, temp) - 1)
      invariant forall i :: 0 <= i < MEMWORDS ==>
        mem[i] == if w < i < w + Rank(instr, temp) && i < w + Count(instr) then reg[Nth(instr, i - w)] else was[i]
    {
      RankStep(instr, temp);
      if Listed(instr, temp) {
        NthOfRank(instr, temp);
        address := address + 4;
        mem[address / 4] := reg[temp];
      }
      temp := temp + 1;
    }
    RankEnd(instr, temp);
  }

  lemma RankEnd(instr: word, r: nat)
    requires r == 16
    ensures Rank(instr, r) == Count(instr)
  {}

  /** Stores the listed registers, writing the base back after the first. */
  method StoreList(s: ARMul, mem: array<word>, instr: word, start: word, base: word)
    requires s.Shaped() && mem.Length == MEMWORDS && mem != s.Reg && mem != s.Spsr
    requires Count(instr) > 0 && Transferable(start, instr)
    modifies s.Reg, mem
    ensures s.Shaped() && s.View() == WriteBack(old(s.View()), instr, base)
    ensures mem[..] == Stored(old(mem[..]), instr, Outgoing(old(s.View()), s.View(), instr), Nat(start) / 4)
  {
    hide Listed, Nat, Writes, Base, Rank, WriteBack, s.View, Stored;
    ghost var was := mem[..];
    ghost var w := Nat(start) / 4;
    var temp := FirstListed(instr);
    var first := s.Reg[temp];
    mem[Nat(start) / 4] := s.Reg[temp];
    WriteBackBase(s, instr, base);
    StoreRest(s.Reg, mem, instr, Nat(start), temp);
    AllStored(was, instr, temp, first, s.Reg[..], w, mem[..]);
  }

  lemma AllStored(was: seq<word>, instr: word, first: nat, v: word, reg: seq<word>, w: nat, mem: seq<word>)
    requires |reg| == 16 && |was| == |mem| == MEMWORDS && 0 < Count(instr) && w + Count(instr) <= MEMWORDS && first == Nth(instr, 0)
    requires forall i :: 0 <= i < MEMWORDS ==>
      mem[i] == if w < i < w + Count(instr) then reg[Nth(instr, i - w)] else if i == w then v else was[i]
    ensures mem == Stored(was, instr, reg[first := v], w)
  {
    hide Listed;
    forall k | 0 < k < Count(instr) ensures Nth(instr, k) != first {
      assert Rank(instr, Nth(instr, k)) == k;
    }
  }

  method WriteBackBase(s: ARMul, instr: word, base: word)
    requires s.Shaped()
    modifies s.Reg
    ensures s.Shaped() && s.View() == WriteBack(old(s.View()), instr, base)
  {
    hide Writes, Base;
    if Writes(instr) && Base(instr) != 15 {
      s.SetReg(Base(instr), base);
    }
  }

  /** `LoadMult`. An aborted transfer's loads are discarded, so it makes none here. */
  method LoadMult(s: ARMul, mem: array<word>, instr: word, address: word, base: word)
    requires Sound(s, mem) && Count(instr) > 0 && (AddressException(address) || Transferable(address, instr))
    modifies s, s.Reg, s.RegBank, s.Spsr
    ensures Sound(s, mem)
    ensures var o := ArmTransfer.LoadMult(old(Now(s, mem)), instr, address, base); !o.Outside? && Now(s, mem) == o.m
  {
    hide Listed, Nat, Writes, Base, ArmPsr.Abort, AddressException, Transferable, Loaded, Rank, IncPc, s.View;
    s.IncPc(true);
    WriteBackBase(s, instr, base);
    if AddressException(address) {
      AddressVector();
      s.Abort(20);
    } else {
      LoadList(s, mem, instr, address);
      if Listed(instr, 15) {
        s.FlushPipe();
      }
    }
  }

  lemma AddressVector()
    ensures (20 as word) < 32 && (20 as word) & 3 == 0
  {}

  /** `StoreMult` */
  method StoreMult(s: ARMul, mem: array<word>, instr: word, address: word, base: word)
    requires Sound(s, mem) && Count(instr) > 0 && (AddressException(address) || Transferable(address, instr))
    modifies s, s.Reg, s.RegBank, s.Spsr, mem
    ensures Sound(s, mem)
    ensures var o := ArmTransfer.StoreMult(old(Now(s, mem)), instr, address, base); !o.Outside? && Now(s, mem) == o.m
  {
    hide Listed, Nat, Writes, Base, ArmPsr.Abort, AddressException, Transferable, Stored, Outgoing, Rank, IncPc;
    hide GetR15, s.View;
    s.IncPc(true);
    if Listed(instr, 15) {
      s.SetReg(15, GetR15(s.View()));
    }
    if AddressException(address) {
      WriteBackBase(s, instr, base);
      AddressVector();
      s.Abort(20);
    } else {
      StoreList(s, mem, instr, address, base);
    }
  }

  /** The temporary switch to the user bank, and back; the mode returned is not installed. */
  method ToUser(s: ARMul)
    requires s.Valid()
    modifies s`Bank, s.Reg, s.RegBank
    ensures s.Shaped() && s.View() == ToUserBank(old(s.View()))
  {
    hide ArmBanks.SwitchMode;
    if s.Bank != USERBANK {
      var mode := s.SwitchMode(s.Mode, USER26);
    }
  }

  method FromUser(s: ARMul)
    requires s.Shaped() && s.Bank == USERBANK && s.Mode <= 3
    modifies s`Bank, s.Reg, s.RegBank
    ensures s.Valid() && s.View() == FromUserBank(old(s.View()))
  {
    hide ArmBanks.SwitchMode;
    if s.Mode != USER26 {
      var mode := s.SwitchMode(USER26, s.Mode);
    }
  }

  /** `LoadSMult` */
  method LoadSMult(s: ARMul, mem: array<word>, instr: word, address: word, base: word)
    requires Sound(s, mem) && Count(instr) > 0 && !AddressException(address) && Transferable(address, instr)
    modifies s, s.Reg, s.RegBank
    ensures Sound(s, mem)
    ensures var o := ArmTransfer.LoadSMult(old(Now(s, mem)), instr, address, base); !o.Outside? && Now(s, mem) == o.m
  {
    hide Listed, Nat, Writes, Base, AddressException, Transferable, Loaded, Rank, IncPc, ArmPsr.R15Altered, FlagsOf;
    hide ToUserBank, FromUserBank, WriteBack, s.View;
    s.IncPc(false);
    WriteBackBase(s, instr, base);
    if Listed(instr, 15) {
      LoadList(s, mem, instr, address);
      if s.Mode == USER26 {
        s.AssignFlags(s.Reg[15]);
      } else {
        s.R15Altered();
      }
      s.FlushPipe();
    } else {
      ToUser(s);
      LoadList(s, mem, instr, address);
      FromUser(s);
    }
  }

  /** `StoreSMult` */
  method StoreSMult(s: ARMul, mem: array<word>, instr: word, address: word, base: word)
    requires Sound(s, mem) && Count(instr) > 0 && !AddressException(address) && Transferable(address, instr)
    modifies s, s.Reg, s.RegBank, mem
    ensures Sound(s, mem)
    ensures var o := ArmTransfer.StoreSMult(old(Now(s, mem)), instr, address, base); !o.Outside? && Now(s, mem) == o.m
  {
    hide Listed, Nat, Writes, Base, AddressException, Transferable, Stored, Outgoing, Rank, IncPc, GetR15;
    hide ToUserBank, FromUserBank, WriteBack, s.View;
    s.IncPc(true);
    if Listed(instr, 15) {
      s.SetReg(15, GetR15(s.View()));
    }
    ToUser(s);
    StoreList(s, mem, instr, address, base);
    FromUser(s);
  }

  // ---- Long multiplies ----

  /** Leaves a 64-bit result in its registers, and sets the flags if asked to. */
  method SetResult(s: ARMul, instr: word, lo: ArmMultiply.word32, hi: ArmMultiply.word32, scc: bool)
    requires s.Valid() && ArmMultiply.Legal(instr)
    modifies s, s.Reg
    ensures s.Valid()
    ensures var c, p := old(s.View()), hi * ArmMultiply.WRAP + lo;
            s.View() == c.(reg := ArmMultiply.SetPair(c.reg, instr, p),
                           flags := if scc then ArmMultiply.LongFlags(c.flags, p) else c.flags)
  {
    hide Field, Nat, Word, ArmFlags.NegZero;
    s.SetReg(ArmMultiply.RdLo(instr), Word(lo));
    s.SetReg(ArmMultiply.RdHi(instr), Word(hi));
    if scc {
      if hi == 0 && lo == 0 {
        NegZero(s, Word(0));
      } else {
        NegZero(s, Word(1));
      }
    }
  }

  /** `Multiply64`, for the legal register combinations. */
  method Multiply64(s: ARMul, instr: word, signed: bool, scc: bool)
    requires s.Valid() && ArmMultiply.Legal(instr)
    modifies s, s.Reg
    ensures s.Valid() && s.View() == ArmMultiply.Multiply64(old(s.View()), instr, signed, scc)
  {
    hide Field, ArmMultiply.Product, ArmMultiply.SetPair, ArmMultiply.LongFlags, s.View;
    var lo, hi := ArmMultiply.Multiply(s.Reg[ArmMultiply.Rs(instr)], s.Reg[ArmMultiply.Rm(instr)], signed);
    SetResult(s, instr, lo, hi, scc);
  }

  /** `MultiplyAdd64` */
  method MultiplyAdd64(s: ARMul, instr: word, signed: bool, scc: bool)
    requires s.Valid() && ArmMultiply.Legal(instr)
    modifies s, s.Reg
    ensures s.Valid() && s.View() == ArmMultiply.MultiplyAdd64(old(s.View()), instr, signed, scc)
  {
    hide Field, ArmMultiply.Product, ArmMultiply.SetPair, ArmMultiply.LongFlags, Nat, s.View;
    ghost var c := s.View();
    var hi, lo := Nat(s.Reg[ArmMultiply.RdHi(instr)]), Nat(s.Reg[ArmMultiply.RdLo(instr)]);
    ghost var p := ArmMultiply.Product(s.Reg[ArmMultiply.Rm(instr)], s.Reg[ArmMultiply.Rs(instr)], signed);
    Multiply64(s, instr, signed, false);
    ArmMultiply.PairOfSetPair(c.reg, instr, p);
    lo, hi := AddPair(lo, hi, Nat(s.Reg[ArmMultiply.RdLo(instr)]), Nat(s.Reg[ArmMultiply.RdHi(instr)]));
    SetResult(s, instr, lo, hi, scc);
    TwicePaired(c.reg, instr, p, hi * ArmMultiply.WRAP + lo);
  }

  /** Adds two 64-bit values held in pairs of words, modulo 2^64. */
  method AddPair(lo1: ArmMultiply.word32, hi1: ArmMultiply.word32, lo2: ArmMultiply.word32, hi2: ArmMultiply.word32)
    returns (lo: ArmMultiply.word32, hi: ArmMultiply.word32)
    ensures hi * ArmMultiply.WRAP + lo == (hi1 * ArmMultiply.WRAP + lo1 + (hi2 * ArmMultiply.WRAP + lo2)) % ArmMultiply.WRAP64
  {
    var carry;
    lo, carry := ArmMultiply.Add32(lo1, lo2);
    hi := (hi1 + hi2 + carry) % ArmMultiply.WRAP;
  }

  lemma TwicePaired(reg: seq<word>, instr: word, p: nat, q: nat)
    requires |reg| == 16
    ensures ArmMultiply.SetPair(ArmMultiply.SetPair(reg, instr, p), instr, q) == ArmMultiply.SetPair(reg, instr, q)
  {
    hide Word, Field;
  }

  /** `ARMul_NegZero` */
  method NegZero(s: ARMul, result: word)
    requires s.Shaped()
    modifies s`NFlag, s`ZFlag
    ensures s.Shaped() && s.View() == old(s.View()).(flags := ArmFlags.NegZero(old(s.View()).flags, result))
  {
    if ArmFlags.Neg(result) {
      s.NFlag := true;
      s.ZFlag := false;
    } else if Nat(result) == 0 {
      s.NFlag := false;
      s.ZFlag := true;
    } else {
      s.NFlag := false;
      s.ZFlag := false;
    }
  }

  // ---- The fetch ----

  /** The switch on `NextInstr`: advances or refills the pipeline `p` and gives the instruction
      to execute. */
  method Advance(s: ARMul, mem: array<word>, p: ArmPipeline.Pipeline) returns (q: ArmPipeline.Pipeline, instr: word)
    requires Sound(s, mem) && ArmPipeline.Advance(Now(s, mem), p).Fetched?
    modifies s`NextInstr, s.Reg
    ensures Sound(s, mem) && ArmPipeline.Advance(old(Now(s, mem)), p) == ArmPipeline.Fetched(Now(s, mem), q, instr)
  {
    hide Nat, Forth, PcOf, s.Pending, ArmExecute.WordAt, ArmPipeline.Ahead, s.View, ArmPipeline.Refilled;
    Cases(s);
    InMemory(ArmPipeline.NextPc(Now(s, mem), p.pc));
    if s.NextInstr < 4 {
      var pc := Forth(p.pc);
      instr := p.decoded;
      q := ArmPipeline.Pipeline(pc, p.loaded, mem[ArmExecute.WordAt(Forth(Forth(pc)))]);
      Refill(s, mem, if s.NextInstr < 2 then Forth(s.Reg[15]) else s.Reg[15]);
    } else {
      var pc := PcOf(s.Reg[15]);
      instr := mem[ArmExecute.WordAt(pc)];
      q := ArmPipeline.Pipeline(pc, mem[ArmExecute.WordAt(Forth(pc))], mem[ArmExecute.WordAt(Forth(Forth(pc)))]);
      Refill(s, mem, Forth(Forth(pc)));
    }
  }

  /** The new register 15, and `NORMALCYCLE`. */
  method Refill(s: ARMul, mem: array<word>, r15: word)
    requires Sound(s, mem)
    modifies s`NextInstr, s.Reg
    ensures Sound(s, mem) && Now(s, mem) == ArmPipeline.Refilled(old(Now(s, mem)), r15)
  {
    hide s.Pending;
    s.Reg[15] := r15;
    s.NextInstr := 0;
    Cases(s);
  }

  /** The words a fetch reads are in memory. */
  lemma InMemory(pc: word)
    ensures ArmPipeline.Ahead(pc) ==>
      && ArmExecute.WordAt(pc) < MEMWORDS && ArmExecute.WordAt(Forth(pc)) < MEMWORDS
      && ArmExecute.WordAt(Forth(Forth(pc))) < MEMWORDS
    ensures ArmPipeline.Ahead(pc) ==> ArmPipeline.InSpace(pc) && ArmPipeline.InSpace(Forth(pc)) && ArmPipeline.InSpace(Forth(Forth(pc)))
  {
    hide Forth, PcOf, ArmExecute.WordAt;
  }

  /** What the values of `NextInstr` stand for. */
  lemma Cases(s: ARMul)
    requires s.NextInstr < 8
    ensures s.Pending().prime <==> s.NextInstr >= 4
    ensures s.NextInstr < 4 ==> (s.Pending().incPc <==> s.NextInstr >= 2)
    ensures s.NextInstr == 0 ==> s.Pending() == NORMALCYCLE
  {}
}
