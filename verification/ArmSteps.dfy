/** What every instruction keeps: user mode stays user mode unless an exception is taken, and
    register 15 stays in step with the fetch loop. */
module ArmSteps {
  import opened ArmState
  import opened ArmWords
  import opened ArmFlags
  import opened ArmBanks
  import opened ArmPsr
  import opened ArmPsrLaws
  import opened ArmExceptions
  import opened ArmBlock
  import opened ArmTransfer
  import opened ArmOperands
  import opened ArmExecute
  import ArmMultiply

  /** The program counter is where the fetch loop will look for it: refilling is due, or it has
      not moved since `c`. */
  predicate Settled(c: Cpu, d: Cpu)
    requires Shaped(c) && Shaped(d)
  {
    d.next.prime || (R15PC(d) == R15PC(c) && d.next == c.next)
  }

  /** A change that settles, and in user mode changes neither mode, bank nor interrupt masks. */
  predicate Tame(c: Cpu, d: Cpu)
    requires Shaped(c) && Shaped(d)
  {
    Settled(c, d) && (c.mode == USER26 ==> Confined(c, d))
  }

  /** The program counter, advanced early or not at all. */
  predicate Ticked(c: Cpu, d: Cpu)
    requires Shaped(c) && Shaped(d)
  {
    && Confined(c, d) && d.next.prime == c.next.prime
    && if d.next.incPc then d.reg[15] == Forth(c.reg[15]) else d.reg[15] == c.reg[15] && d.next == c.next
  }

  /** One whole instruction, from the state the fetch loop leaves. */
  predicate Steps(c: Cpu, d: Cpu)
    requires Shaped(c) && Shaped(d)
  {
    && (d.next.prime || (R15PC(d) == PcOf(if d.next.incPc then Forth(c.reg[15]) else c.reg[15])
                         && (!d.next.incPc ==> d.next == NORMALCYCLE)))
    && (c.mode == USER26 ==> Confined(c, d))
  }

  lemma Compose(c: Cpu, d: Cpu, e: Cpu)
    requires Ready(c) && Ready(d) && Ready(e) && c.next == NORMALCYCLE && Ticked(c, d) && Tame(d, e)
    ensures Steps(c, e)
  {
    hide PcOf, Forth;
  }

  lemma TameTwice(c: Cpu, d: Cpu, e: Cpu)
    requires Shaped(c) && Shaped(d) && Shaped(e) && Tame(c, d) && Tame(d, e) && (d.next.prime ==> e.next.prime)
    ensures Tame(c, e)
  {
    hide PcOf;
  }

  // ---- Changes of the processor ----

  lemma IncPcTicks(c: Cpu, nonSeq: bool)
    requires Ready(c) && c.next == NORMALCYCLE
    ensures Ticked(c, IncPc(c, nonSeq))
  {
    hide Forth;
  }

  lemma EvaluatedTicks(c: Cpu, d: Cpu)
    requires Ready(c) && Ready(d) && c.next == NORMALCYCLE && Evaluated(c, d)
    ensures Ticked(c, d)
  {
    hide Forth;
  }

  lemma SetRegTame(c: Cpu, r: nat, v: word)
    requires Ready(c) && r < 15
    ensures Tame(c, SetReg(c, r, v))
  {}

  lemma WriteR15Tame(c: Cpu, v: word)
    requires Ready(c)
    ensures Tame(c, WriteR15(c, v)) && WriteR15(c, v).next.prime
  {
    hide Pack, FlagsOf, IntOf, ModeOf, PcOf;
    WriteR15Confined(c, v);
  }

  lemma WriteDestTame(c: Cpu, instr: word, v: word)
    requires Ready(c)
    ensures Tame(c, WriteDest(c, instr, v))
    ensures c.next.prime ==> WriteDest(c, instr, v).next.prime
  {
    hide WriteR15, Dest, Tame;
    if Dest(instr) == 15 {
      WriteR15Tame(c, v);
    } else {
      SetRegTame(c, Dest(instr), v);
    }
  }

  lemma WriteSR15Tame(c: Cpu, v: word)
    requires Ready(c)
    ensures Tame(c, WriteSR15(c, v))
  {
    hide Pack, FlagsOf, IntOf, ModeOf, PcOf, EnterMode;
    if c.mode == USER26 {
      WriteSR15Confined(c, v);
    }
  }

  lemma WriteSDestTame(c: Cpu, instr: word, v: word)
    requires Ready(c)
    ensures Tame(c, WriteSDest(c, instr, v))
  {
    hide WriteSR15, Dest, NegZero, PcOf;
    if Dest(instr) == 15 {
      WriteSR15Tame(c, v);
    }
  }

  /** Status bits around an unchanged program counter. */
  lemma StatusPc(w: word, s: word)
    ensures PcOf(PcOf(w) | Status(s)) == PcOf(w)
  {}

  lemma SetR15PSRTame(c: Cpu, s: word)
    requires Ready(c)
    ensures Tame(c, SetR15PSR(c, s))
  {
    hide Pack, FlagsOf, IntOf, ModeOf, PcOf, EnterMode, Status;
    if c.mode == USER26 {
      SetR15PSRConfined(c, s);
    } else {
      StatusPc(c.reg[15], s);
    }
  }

  lemma FixCPSRTame(c: Cpu, instr: word, v: word)
    requires Ready(c)
    ensures Tame(c, FixCPSR(c, instr, v))
  {
    hide CPSRAltered, GetCPSR, Masked, SetCC, WritesFlags, PcOf, SameBanked;
    CPSRAlteredNext(c, FixedCpsr(c, instr, v));
    CPSRAlteredTakes(c, FixedCpsr(c, instr, v));
    if c.mode == USER26 {
      FixCPSRConfined(c, instr, v);
    }
  }

  /** The status word an MSR installs. */
  function FixedCpsr(c: Cpu, instr: word, rhs: word): word {
    if c.bank == USERBANK then
      if WritesFlags(instr) then SetCC(GetCPSR(c), rhs) else GetCPSR(c)
    else Masked(GetCPSR(c), rhs, instr)
  }

  lemma CPSRAlteredNext(c: Cpu, cpsr: word)
    requires Ready(c)
    ensures CPSRAltered(c, cpsr).next == c.next
  {
    hide FlagsOf, ModeOf, CpsrInt, GetR15;
  }

  lemma FixSPSRTame(c: Cpu, instr: word, v: word)
    requires Ready(c)
    ensures Tame(c, FixSPSR(c, instr, v))
  {
    hide Masked, PcOf;
  }

  lemma PatchR15Tame(c: Cpu)
    requires Ready(c)
    ensures Tame(c, PatchR15(c)) && PatchR15(c).next == c.next
  {
    hide Pack, PcOf;
    PackFields(c.reg[15], c.flags, c.iff, c.mode);
  }

  lemma WriteBackTame(c: Cpu, instr: word, v: word)
    requires Ready(c)
    ensures Tame(c, WriteBack(c, instr, v)) && WriteBack(c, instr, v).next == c.next
  {
    hide PcOf, Writes, Base;
  }

  // ---- Exceptions ----

  /** An exception leaves its own mode, and the pipeline to be refilled. */
  lemma Traps(c: Cpu, vector: word)
    requires Ready(c) && (vector == 4 || vector == 20)
    ensures Abort(c, vector).mode == SVC26 && Abort(c, vector).next.prime
  {
    hide Abort, View, GetCPSR, GetR15, BankedExceptLink;
    AbortEnters(c, vector);
    assert VectorMode(vector) == (SVC26, 0x80);
  }

  // ---- Data processing ----

  lemma TickedFlags(c: Cpu, d: Cpu, f: Flags)
    requires Ready(c) && Ready(d) && Ticked(c, d)
    ensures Ticked(c, WithFlags(d, f))
  {
    hide Forth;
  }

  lemma EvaluateTicks(c: Cpu, instr: word)
    requires Ready(c) && c.next == NORMALCYCLE
    requires Readable(instr)
    ensures Ticked(c, Evaluate(c, instr).cpu)
  {
    hide OpcodeOf, Result, LHS, PlainRHS, LogicalRHS, NegZero, ArithmeticFlags, Sets, ToPsr, BareR15, IsImmediate;
    hide Evaluated, Ticked;
    var op := OpcodeOf(instr);
    PlainEvaluated(c, instr);
    EvaluatedTicks(c, PlainRHS(c, instr).cpu);
    if Sets(instr) && !ToPsr(instr) {
      if IsLogical(op) {
        LogicalEvaluated(c, instr);
        var o := LogicalRHS(c, instr);
        EvaluatedTicks(c, o.cpu);
        TickedFlags(c, o.cpu, NegZero(o.cpu.flags, Result(op, LHS(o.cpu, instr), o.value, false)));
      } else {
        var o := PlainRHS(c, instr);
        var v := Result(op, LHS(c, instr), o.value, o.cpu.flags.c);
        TickedFlags(c, o.cpu, ArithmeticFlags(op, o.cpu.flags, LHS(c, instr), o.value, v));
      }
    }
  }

  lemma DataProcessSteps(c: Cpu, instr: word)
    requires Ready(c) && c.next == NORMALCYCLE
    requires Readable(instr)
    ensures Steps(c, DataProcess(c, instr))
  {
    hide Evaluate, ToPsr, IsTest, OpcodeOf, Sets, SetR15PSR, WriteSDest, WriteDest, Ticked, Tame, Steps, BareR15;
    hide IsImmediate, IsLogical;
    var o := Evaluate(c, instr);
    EvaluateTicks(c, instr);
    SetR15PSRTame(o.cpu, o.value);
    WriteSDestTame(o.cpu, instr, o.value);
    WriteDestTame(o.cpu, instr, o.value);
    SameTame(o.cpu);
    Compose(c, o.cpu, DataProcess(c, instr));
  }

  lemma SameTame(c: Cpu)
    requires Ready(c)
    ensures Tame(c, c)
  {}

  lemma TameSteps(c: Cpu, d: Cpu)
    requires Ready(c) && Ready(d) && c.next == NORMALCYCLE && Tame(c, d)
    ensures Steps(c, d)
  {
    hide PcOf, Forth;
  }

  /** Register 15 rewritten by a jump. */
  lemma JumpTame(c: Cpu, v: word)
    requires Ready(c)
    ensures Tame(c, Jump(c, v))
  {
    hide PcOf;
  }

  /** An instruction's outcome keeps the laws: a normal end steps, and an exception enters
      supervisor mode with the pipeline to be refilled. */
  predicate Lawful(m: Machine, o: Outcome)
    requires Running(m) && (!o.Outside? ==> Running(o.m))
  {
    && (o.Done? ==> Steps(m.cpu, o.m.cpu))
    && (o.Trapped? ==> o.m.cpu.mode == SVC26 && o.m.cpu.next.prime)
  }

  lemma BXLawful(m: Machine, instr: word)
    requires Running(m) && m.cpu.next == NORMALCYCLE && OpcodeOf(instr).TEQ? && IsBX(instr)
    ensures Lawful(m, StatusMove(m, instr))
  {
    hide IsBX, BranchTarget, Jump, Abort, Tame, Steps, Odd, WordAligned, OpcodeOf;
    var c := m.cpu;
    var d := Jump(c, WordAligned(BranchTarget(c, instr)));
    Traps(c, 4);
    JumpTame(c, WordAligned(BranchTarget(c, instr)));
    TameSteps(c, d);
  }

  /** The two MSR forms. */
  lemma MSRSteps(c: Cpu, instr: word)
    requires Ready(c) && c.next == NORMALCYCLE
    ensures var o := PlainRHS(c, instr);
            Steps(c, FixCPSR(o.cpu, instr, o.value)) && Steps(c, FixSPSR(o.cpu, instr, o.value))
  {
    hide PlainRHS, FixCPSR, FixSPSR, Tame, Steps, Ticked, Evaluated;
    var o := PlainRHS(c, instr);
    PlainEvaluated(c, instr);
    EvaluatedTicks(c, o.cpu);
    FixCPSRTame(o.cpu, instr, o.value);
    FixSPSRTame(o.cpu, instr, o.value);
    Compose(c, o.cpu, FixCPSR(o.cpu, instr, o.value));
    Compose(c, o.cpu, FixSPSR(o.cpu, instr, o.value));
  }

  lemma Still(c: Cpu)
    requires Ready(c) && c.next == NORMALCYCLE
    ensures Steps(c, c)
  {}

  lemma StatusMoveLawful(m: Machine, instr: word)
    requires Running(m) && m.cpu.next == NORMALCYCLE
    ensures Lawful(m, StatusMove(m, instr))
  {
    hide OpcodeOf, IsMRS, IsMSR, IsBX, Dest, GetCPSR, GetSPSR, PlainRHS, FixCPSR, FixSPSR, Steps, SetReg;
    hide BranchTarget, Jump, Abort, Odd, WordAligned;
    var c := m.cpu;
    Still(c);
    if OpcodeOf(instr).TEQ? && IsBX(instr) {
      BXLawful(m, instr);
    } else {
      MSRSteps(c, instr);
      if Dest(instr) != 15 {
        MoveTame(c, Dest(instr), GetCPSR(c));
        MoveTame(c, Dest(instr), GetSPSR(c));
      }
    }
  }

  lemma MoveTame(c: Cpu, r: nat, v: word)
    requires Ready(c) && c.next == NORMALCYCLE && r < 15
    ensures Steps(c, SetReg(c, r, v))
  {
    hide Tame, Steps;
    SetRegTame(c, r, v);
    TameSteps(c, SetReg(c, r, v));
  }

  // ---- Multiplies and swaps ----

  lemma MultiplyTame(c: Cpu, instr: word)
    requires Ready(c) && Field(instr, 16) != 15
    ensures Tame(c, Multiply(c, instr))
  {
    hide Field, Set, Nat, Word, NegZero, PcOf;
  }

  lemma LongMultiplyTame(c: Cpu, instr: word)
    requires Ready(c) && ArmMultiply.Legal(instr)
    ensures Tame(c, LongMultiply(c, instr))
  {
    hide Field, Set, Nat, Word, PcOf, ArmMultiply.Product, ArmMultiply.LongFlags, ArmMultiply.PairOf;
  }

  lemma SwapLawful(m: Machine, instr: word)
    requires Running(m) && m.cpu.next == NORMALCYCLE
    ensures Lawful(m, Swap(m, instr))
  {
    hide IncPc, LHS, Nat, Set, Dest, Lane, SetLane, RHSReg, SetReg, Tame, Ticked, Steps, AddressException;
    var c := IncPc(m.cpu, false);
    IncPcTicks(m.cpu, false);
    var o := Swap(m, instr);
    if o.Done? {
      var was := m.mem[WordAt(LHS(m.cpu, instr))];
      var v := if Set(instr, 22) then Lane(was, LHS(m.cpu, instr)) else was;
      SetRegTame(c, Dest(instr), v);
      Compose(m.cpu, c, SetReg(c, Dest(instr), v));
    }
  }

  lemma MultipliesLawful(m: Machine, instr: word)
    requires Running(m) && m.cpu.next == NORMALCYCLE
    ensures Lawful(m, Multiplies(m, instr))
  {
    hide Multiply, LongMultiply, Swap, Set, Field, ArmMultiply.Legal, Tame, Steps, IsMultiply;
    SwapLawful(m, instr);
    if Field(instr, 16) != 15 {
      MultiplyTame(m.cpu, instr);
      TameSteps(m.cpu, Multiply(m.cpu, instr));
    }
    if ArmMultiply.Legal(instr) {
      LongMultiplyTame(m.cpu, instr);
      TameSteps(m.cpu, LongMultiply(m.cpu, instr));
    }
  }

  // ---- Single transfers ----

  lemma LoadAccessLawful(m: Machine, instr: word, address: word)
    requires Running(m) && m.cpu.next == NORMALCYCLE
    ensures var a := LoadAccess(m, instr, address);
            && Lawful(m, a.o)
            && (a.o.Done? ==> Ticked(m.cpu, IncPc(m.cpu, false)) && Tame(IncPc(m.cpu, false), a.o.m.cpu))
  {
    hide IncPc, Abort, AddressException, Nat, WriteDest, Lane, Dest, Base, Tame, Ticked, Steps, Set;
    var c := IncPc(m.cpu, false);
    IncPcTicks(m.cpu, false);
    Traps(c, 20);
    var a := LoadAccess(m, instr, address);
    if a.o.Done? {
      var w := m.mem[WordAt(address)];
      WriteDestTame(c, instr, if Set(instr, 22) then Lane(w, address) else w);
      Compose(m.cpu, c, a.o.m.cpu);
    }
  }

  lemma StoreAccessLawful(m: Machine, instr: word, address: word)
    requires Running(m) && m.cpu.next == NORMALCYCLE
    ensures var a := StoreAccess(m, instr, address);
            && Lawful(m, a.o)
            && (a.o.Done? ==> Ticked(m.cpu, IncPc(m.cpu, true)) && Tame(IncPc(m.cpu, true), a.o.m.cpu))
  {
    hide IncPc, PatchR15, Abort, AddressException, Nat, SetLane, Dest, Tame, Ticked, Steps, Set;
    var c := IncPc(m.cpu, true);
    IncPcTicks(m.cpu, true);
    Traps(c, 20);
    Traps(PatchR15(c), 20);
    var a := StoreAccess(m, instr, address);
    if a.o.Done? {
      SameTame(c);
      PatchR15Tame(c);
      Compose(m.cpu, c, a.o.m.cpu);
    }
  }

  lemma SingleTransferLawful(m: Machine, instr: word)
    requires Running(m) && m.cpu.next == NORMALCYCLE
    ensures Lawful(m, SingleTransfer(m, instr))
  {
    hide LoadAccess, StoreAccess, IncPc, LHS, LSRHS, Offset, Before, Up, Writes, Loads, Base, Lawful, Tame, Ticked;
    hide Steps, SetReg;
    var base := LHS(m.cpu, instr);
    var address := if Before(instr) then Offset(base, LSRHS(m.cpu, instr), Up(instr)) else base;
    LoadAccessLawful(m, instr, address);
    StoreAccessLawful(m, instr, address);
    OutsideLawful(m);
    var a := Transfer(m, instr, address);
    var e := IncPc(m.cpu, !Loads(instr));
    var o := SingleTransfer(m, instr);
    if a.o.Done? && o != a.o && o.Done? {
      var c := a.o.m.cpu;
      var final := if Before(instr) then address else Offset(base, LSRHS(c, instr), Up(instr));
      BaseWritten(m, e, c, Base(instr), final);
      DoneLawful(m, o);
    }
  }

  lemma OutsideLawful(m: Machine)
    requires Running(m)
    ensures Lawful(m, Outside)
  {}

  lemma DoneLawful(m: Machine, o: Outcome)
    requires Running(m) && o.Done? && Running(o.m) && Steps(m.cpu, o.m.cpu)
    ensures Lawful(m, o)
  {}

  lemma BaseWritten(m: Machine, e: Cpu, c: Cpu, r: nat, v: word)
    requires Running(m) && m.cpu.next == NORMALCYCLE && Ready(e) && Ready(c) && r < 15
    requires Ticked(m.cpu, e) && Tame(e, c)
    ensures Steps(m.cpu, SetReg(c, r, v))
  {
    hide Ticked, Steps;
    var d := SetReg(c, r, v);
    assert d.reg[15] == c.reg[15];
    Compose(m.cpu, e, d);
  }

  // ---- Register lists ----

  /** Loading registers other than 15 settles; loading 15 asks for the pipeline to be refilled. */
  lemma LoadedTame(c: Cpu, instr: word, mem: seq<word>, w: nat)
    requires Ready(c) && w + Count(instr) <= |mem|
    ensures var d := c.(reg := Loaded(c.reg, instr, mem, w));
            Tame(c, if Listed(instr, 15) then FlushPipe(d) else d)
  {
    hide Listed, Rank, PcOf;
  }

  lemma LoadMultLawful(m: Machine, instr: word, address: word, base: word)
    requires Running(m) && m.cpu.next == NORMALCYCLE && Count(instr) > 0
    ensures Lawful(m, LoadMult(m, instr, address, base))
  {
    hide IncPc, WriteBack, Abort, AddressException, Transferable, Listed, Rank, Loaded, FlushPipe, Nat, Tame;
    hide Ticked, Steps;
    var a := IncPc(m.cpu, true);
    IncPcTicks(m.cpu, true);
    var c := WriteBack(a, instr, base);
    WriteBackTame(a, instr, base);
    Traps(c, 20);
    var o := LoadMult(m, instr, address, base);
    if o.Done? {
      var w := Nat(address) / 4;
      SameTransfer(address, instr);
      LoadedTame(c, instr, m.mem, w);
      Chain(m.cpu, a, c, o.m.cpu);
    }
  }

  lemma SameTransfer(address: word, instr: word)
    requires Transferable(address, instr)
    ensures Nat(address) / 4 + Count(instr) <= MEMWORDS
  {}

  /** An early tick and two tame changes, of which the first leaves the pipeline alone. */
  lemma Chain(c: Cpu, a: Cpu, b: Cpu, d: Cpu)
    requires Ready(c) && Ready(a) && Ready(b) && Ready(d) && c.next == NORMALCYCLE
    requires Ticked(c, a) && Tame(a, b) && b.next == a.next && Tame(b, d)
    ensures Steps(c, d)
  {
    hide PcOf, Forth;
    TameTwice(a, b, d);
    Compose(c, a, d);
  }

  lemma StoreMultLawful(m: Machine, instr: word, address: word, base: word)
    requires Running(m) && m.cpu.next == NORMALCYCLE && Count(instr) > 0
    ensures Lawful(m, StoreMult(m, instr, address, base))
  {
    hide IncPc, PatchR15, WriteBack, Abort, AddressException, Transferable, Listed, Rank, Stored, Outgoing, Nat;
    hide Tame, Ticked, Steps;
    var a := IncPc(m.cpu, true);
    IncPcTicks(m.cpu, true);
    PatchR15Tame(a);
    SameTame(a);
    var c := if Listed(instr, 15) then PatchR15(a) else a;
    WriteBackTame(c, instr, base);
    Traps(WriteBack(c, instr, base), 20);
    Chain(m.cpu, a, c, WriteBack(c, instr, base));
  }

  /** A trip through the user bank changes neither register 15 nor anything but registers. */
  lemma ToUserR15(c: Cpu)
    requires Ready(c)
    ensures var d := ToUserBank(c);
            d == c.(reg := d.reg, regBank := d.regBank, bank := d.bank) && d.reg[15] == c.reg[15]
  {
    hide Saved, Restored, ModeToBank;
  }

  lemma FromUserR15(c: Cpu)
    requires Shaped(c) && c.bank == USERBANK && c.mode <= 3
    ensures var d := FromUserBank(c);
            d == c.(reg := d.reg, regBank := d.regBank, bank := d.bank) && d.reg[15] == c.reg[15]
            && d.bank == ModeToBank(c.mode)
  {
    hide Saved, Restored, ModeToBank;
  }

  /** Leaving for the user bank, replacing registers there, and coming back is tame. */
  lemma UserTripTame(c: Cpu, d: Cpu)
    requires Ready(c) && Shaped(d) && d.bank == USERBANK && d.reg[15] == c.reg[15]
    requires d == ToUserBank(c).(reg := d.reg)
    ensures Tame(c, FromUserBank(d)) && FromUserBank(d).next == c.next
  {
    hide ToUserBank, FromUserBank, PcOf, ModeToBank;
    ToUserR15(c);
    FromUserR15(d);
  }

  lemma LoadSMultLawful(m: Machine, instr: word, address: word, base: word)
    requires Running(m) && m.cpu.next == NORMALCYCLE && Count(instr) > 0
    ensures Lawful(m, LoadSMult(m, instr, address, base))
  {
    hide IncPc, WriteBack, AddressException, Transferable, Listed, Rank, TakeR15, ToUserBank, FromUserBank, Loaded;
    hide Nat, Tame, Ticked, Steps;
    var a := IncPc(m.cpu, false);
    IncPcTicks(m.cpu, false);
    var c := WriteBack(a, instr, base);
    WriteBackTame(a, instr, base);
    var o := LoadSMult(m, instr, address, base);
    if o.Done? {
      var w := Nat(address) / 4;
      SameTransfer(address, instr);
      if Listed(instr, 15) {
        var d := c.(reg := Loaded(c.reg, instr, m.mem, w));
        LoadTakes(c, d);
        Chain(m.cpu, a, c, o.m.cpu);
      } else {
        var d := ToUserBank(c);
        ToUserR15(c);
        Loaded15(d.reg, instr, m.mem, w);
        UserTripTame(c, d.(reg := Loaded(d.reg, instr, m.mem, w)));
        Chain(m.cpu, a, c, o.m.cpu);
      }
    }
  }

  lemma Loaded15(reg: seq<word>, instr: word, mem: seq<word>, w: nat)
    requires |reg| == 16 && w + Count(instr) <= |mem| && !Listed(instr, 15)
    ensures Loaded(reg, instr, mem, w)[15] == reg[15]
  {
    hide Listed, Rank;
  }

  lemma LoadTakes(c: Cpu, d: Cpu)
    requires Ready(c) && d == c.(reg := d.reg) && |d.reg| == 16
    ensures Tame(c, TakeR15(d))
  {
    hide FlagsOf, IntOf, ModeOf, PcOf, EnterMode;
  }

  lemma StoreSMultLawful(m: Machine, instr: word, address: word, base: word)
    requires Running(m) && m.cpu.next == NORMALCYCLE && Count(instr) > 0
    ensures Lawful(m, StoreSMult(m, instr, address, base))
  {
    hide IncPc, PatchR15, WriteBack, AddressException, Transferable, Listed, Rank, ToUserBank, FromUserBank, Stored;
    hide Outgoing, Nat, Tame, Ticked, Steps;
    var a := IncPc(m.cpu, true);
    IncPcTicks(m.cpu, true);
    PatchR15Tame(a);
    SameTame(a);
    var b := if Listed(instr, 15) then PatchR15(a) else a;
    var c := ToUserBank(b);
    ToUserR15(b);
    var d := WriteBack(c, instr, base);
    UserTripTame(b, d);
    Chain(m.cpu, a, b, FromUserBank(d));
  }

  lemma BlockTransferLawful(m: Machine, instr: word)
    requires Running(m) && m.cpu.next == NORMALCYCLE
    ensures Lawful(m, BlockTransfer(m, instr))
  {
    hide LoadMult, StoreMult, LoadSMult, StoreSMult, Loads, UserForm, Start, Final, Rank, Base, Lawful;
    OutsideLawful(m);
    if Count(instr) > 0 {
      var base := m.cpu.reg[Base(instr)];
      LoadMultLawful(m, instr, Start(base, instr), Final(base, instr));
      StoreMultLawful(m, instr, Start(base, instr), Final(base, instr));
      LoadSMultLawful(m, instr, Start(base, instr), Final(base, instr));
      StoreSMultLawful(m, instr, Start(base, instr), Final(base, instr));
    }
  }

  // ---- Every instruction ----

  lemma BranchSteps(c: Cpu, pc: word, instr: word)
    requires Ready(c) && c.next == NORMALCYCLE
    ensures Steps(c, Branch(c, pc, instr))
  {
    hide Set, Link, BranchTo, PcOf, Forth;
  }

  lemma ProcessingLawful(m: Machine, instr: word)
    requires Running(m) && m.cpu.next == NORMALCYCLE
    ensures Lawful(m, Processing(m, instr))
  {
    hide StatusMove, DataProcess, Sets, IsTest, OpcodeOf, IsLogical, ToPsr, IsImmediate, BareR15, Steps;
    if IsTest(OpcodeOf(instr)) && !Sets(instr) {
      StatusMoveLawful(m, instr);
    } else if !Readable(instr) {
    } else {
      DataProcessSteps(m.cpu, instr);
    }
  }

  /** Every modelled instruction, whatever its operands: from user mode it leaves mode, bank and interrupt
      masks alone unless it takes an exception, and it leaves register 15 where the fetch loop
      expects it. */
  lemma ExecuteLawful(m: Machine, pc: word, instr: word)
    requires Running(m) && m.cpu.next == NORMALCYCLE
    ensures Lawful(m, Execute(m, pc, instr))
  {
    hide Passed, ConditionOf, Set, Multiplies, Processing, SingleTransfer, BlockTransfer, Branch, Abort, Steps;
    Still(m.cpu);
    MultipliesLawful(m, instr);
    ProcessingLawful(m, instr);
    SingleTransferLawful(m, instr);
    BlockTransferLawful(m, instr);
    BranchSteps(m.cpu, pc, instr);
    Traps(m.cpu, 4);
  }
}
