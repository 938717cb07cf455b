/** The emulation loop in place: each instruction's effect on the emulator's own fields and on
    memory, dispatched as the loop dispatches it. */
module ArmEmulation {
  import opened ArmState
  import opened ArmWords
  import opened ArmFlags
  import opened ArmBlock
  import opened ArmTransfer
  import opened ArmOperands
  import opened ArmEmulator
  import opened ArmRoutines
  import ArmPsr
  import ArmPipeline
  import ArmMultiply
  import ArmExecute

  // ---- Operands and results ----

  method AssignAll(s: ARMul, f: Flags)
    requires s.Shaped()
    modifies s`NFlag, s`ZFlag, s`CFlag, s`VFlag
    ensures s.Shaped() && s.View() == old(s.View()).(flags := f)
  {
    s.NFlag := f.n;
    s.ZFlag := f.z;
    s.CFlag := f.c;
    s.VFlag := f.v;
  }

  /** `GetDPRegRHS` behind `DPRegRHS`. */
  method RegRHS(s: ARMul, instr: word) returns (v: word)
    requires s.Valid()
    modifies s`NextInstr, s.Reg
    ensures s.Valid() && DPRegRHS(old(s.View()), instr) == Operand(s.View(), v)
  {
    hide ShiftByReg, ShiftByConst, RHS, ShiftCount, IncPc, s.View;
    if Low12(instr) < 15 {
      v := s.Reg[RHSReg(instr)];
    } else if Set(instr, 4) {
      s.IncPc(false);
      v := ShiftByReg(ShiftKind(instr), RHS(s.View(), instr), ShiftCount(s.View(), instr));
    } else {
      v := ShiftByConst(ShiftKind(instr), RHS(s.View(), instr), ShiftAmount(instr), s.CFlag);
    }
  }

  method SetCarry(s: ARMul, carry: bool)
    requires s.Valid()
    modifies s`CFlag
    ensures s.Valid() && s.View() == WithCarry(old(s.View()), carry)
  {
    s.CFlag := carry;
  }

  /** `GetDPSRegRHS` behind `DPSRegRHS`. */
  method LogicalRegRHS(s: ARMul, instr: word) returns (v: word)
    requires s.Valid() && !BareR15(instr)
    modifies s`NextInstr, s`CFlag, s.Reg
    ensures s.Valid() && DPSRegRHS(old(s.View()), instr) == Operand(s.View(), v)
  {
    hide ShiftByReg, ShiftByConst, CarryByReg, CarryByConst, RHS, ShiftCount, IncPc, s.View;
    if Low12(instr) < 15 {
      v := s.Reg[RHSReg(instr)];
    } else if Set(instr, 4) {
      s.IncPc(false);
      var w, n := RHS(s.View(), instr), ShiftCount(s.View(), instr);
      v := ShiftByReg(ShiftKind(instr), w, n);
      SetCarry(s, CarryByReg(ShiftKind(instr), w, n, s.CFlag));
    } else {
      var w, n := RHS(s.View(), instr), ShiftAmount(instr);
      v := ShiftByConst(ShiftKind(instr), w, n, s.CFlag);
      SetCarry(s, CarryByConst(ShiftKind(instr), w, n));
    }
  }

  /** The right-hand operand of an instruction whose carry comes from its result, if at all. */
  method PlainOperand(s: ARMul, instr: word) returns (v: word)
    requires s.Valid()
    modifies s`NextInstr, s.Reg
    ensures s.Valid() && PlainRHS(old(s.View()), instr) == Operand(s.View(), v)
  {
    hide DPRegRHS, s.View;
    if IsImmediate(instr) {
      v := Immediate(instr);
    } else {
      v := RegRHS(s, instr);
    }
  }

  /** The right-hand operand of a logical instruction with the S bit. */
  method LogicalOperand(s: ARMul, instr: word) returns (v: word)
    requires s.Valid() && (IsImmediate(instr) || !BareR15(instr))
    modifies s`NextInstr, s`CFlag, s.Reg
    ensures s.Valid() && LogicalRHS(old(s.View()), instr) == Operand(s.View(), v)
  {
    hide DPSRegRHS, BareR15, s.View, Immediate, BitOf;
    if IsImmediate(instr) {
      v := Immediate(instr);
      if Low12(instr) > 255 {
        SetCarry(s, BitOf(v, 31));
      }
    } else {
      v := LogicalRegRHS(s, instr);
    }
  }

  /** `WRITEDEST` */
  method WriteDest(s: ARMul, instr: word, v: word)
    requires s.Valid()
    modifies s, s.Reg, s.RegBank
    ensures s.Valid() && s.View() == ArmExecute.WriteDest(old(s.View()), instr, v)
  {
    hide ArmPsr.WriteR15, Dest, ArmPsr.SetReg, s.View;
    if Dest(instr) == 15 {
      s.WriteR15(v);
    } else {
      s.SetReg(Dest(instr), v);
    }
  }

  /** `WRITESDEST` */
  method WriteSDest(s: ARMul, instr: word, v: word)
    requires s.Valid()
    modifies s, s.Reg, s.RegBank
    ensures s.Valid() && s.View() == ArmExecute.WriteSDest(old(s.View()), instr, v)
  {
    hide ArmPsr.WriteSR15, Dest, ArmFlags.NegZero, s.View;
    if Dest(instr) == 15 {
      s.WriteSR15(v);
    } else {
      s.SetReg(Dest(instr), v);
      ArmRoutines.NegZero(s, v);
    }
  }

  // ---- Data processing ----

  /** Result and flags of an operation. The arithmetic forms with the S bit read their first
      operand before a register shift advances register 15, all others after. */
  method Evaluate(s: ARMul, instr: word) returns (v: word)
    requires s.Valid() && ArmExecute.Readable(instr)
    modifies s`NFlag, s`ZFlag, s`CFlag, s`VFlag, s`NextInstr, s.Reg
    ensures s.Valid() && ArmExecute.Evaluate(old(s.View()), instr) == Operand(s.View(), v)
  {
    hide PlainRHS, LogicalRHS, LHS, ArmExecute.Result, ArmExecute.OpcodeOf, ArmExecute.Sets, ArmExecute.ToPsr;
    hide ArmExecute.ArithmeticFlags, ArmFlags.NegZero, BareR15, IsImmediate, s.View;
    var op := ArmExecute.OpcodeOf(instr);
    if !ArmExecute.Sets(instr) || ArmExecute.ToPsr(instr) {
      var rhs := PlainOperand(s, instr);
      v := ArmExecute.Result(op, LHS(s.View(), instr), rhs, s.CFlag);
    } else if ArmExecute.IsLogical(op) {
      var rhs := LogicalOperand(s, instr);
      v := ArmExecute.Result(op, LHS(s.View(), instr), rhs, false);
      if ArmExecute.IsTest(op) {
        ArmRoutines.NegZero(s, v);
      }
    } else {
      var lhs := LHS(s.View(), instr);
      var rhs := PlainOperand(s, instr);
      v := ArmExecute.Result(op, lhs, rhs, s.CFlag);
      AssignAll(s, ArmExecute.ArithmeticFlags(op, s.View().flags, lhs, rhs, v));
    }
  }

  method DataProcess(s: ARMul, instr: word)
    requires s.Valid() && ArmExecute.Readable(instr)
    modifies s, s.Reg, s.RegBank
    ensures s.Valid() && s.View() == ArmExecute.DataProcess(old(s.View()), instr)
  {
    hide ArmExecute.Evaluate, ArmExecute.OpcodeOf, ArmExecute.Sets, ArmExecute.ToPsr, ArmExecute.IsTest;
    hide ArmExecute.IsLogical, ArmExecute.WriteDest, ArmExecute.WriteSDest, ArmPsr.SetR15PSR, BareR15, IsImmediate;
    hide s.View;
    var v := Evaluate(s, instr);
    if ArmExecute.ToPsr(instr) {
      s.SetR15PSR(v);
    } else if ArmExecute.IsTest(ArmExecute.OpcodeOf(instr)) {
    } else if ArmExecute.Sets(instr) {
      WriteSDest(s, instr, v);
    } else {
      WriteDest(s, instr, v);
    }
  }

  method Jump(s: ARMul, v: word)
    requires s.Valid()
    modifies s`NextInstr, s.Reg
    ensures s.Valid() && s.View() == ArmExecute.Jump(old(s.View()), v)
  {
    hide ArmPsr.SetReg, s.View;
    s.SetReg(15, v);
    s.FlushPipe();
  }

  /** MRS, MSR and BX. */
  method StatusMove(s: ARMul, mem: array<word>, instr: word)
    requires Sound(s, mem) && !ArmExecute.StatusMove(Now(s, mem), instr).Outside?
    modifies s, s.Reg, s.RegBank, s.Spsr
    ensures Sound(s, mem) && Now(s, mem) == ArmExecute.StatusMove(old(Now(s, mem)), instr).m
  {
    hide ArmExecute.OpcodeOf, ArmExecute.IsMRS, ArmExecute.IsMSR, ArmExecute.IsBX, Dest, GetCPSR;
    hide ArmExecute.GetSPSR, ArmExecute.BranchTarget, ArmExecute.Jump, Odd, ArmExecute.WordAligned, PlainRHS;
    hide ArmPsr.Abort, ArmPsr.FixCPSR, ArmPsr.FixSPSR, ArmPsr.SetReg, s.View;
    match ArmExecute.OpcodeOf(instr)
    case TST =>
      if ArmExecute.IsMRS(instr) {
        s.SetReg(Dest(instr), GetCPSR(s.View()));
      }
    case TEQ =>
      if ArmExecute.IsBX(instr) {
        var target := ArmExecute.BranchTarget(s.View(), instr);
        if Odd(target) {
          Vectors();
          s.Abort(4);
        } else {
          Jump(s, ArmExecute.WordAligned(target));
        }
      } else if ArmExecute.IsMSR(instr) {
        var rhs := PlainOperand(s, instr);
        s.FixCPSR(instr, rhs);
      }
    case CMP =>
      if ArmExecute.IsMRS(instr) {
        s.SetReg(Dest(instr), ArmExecute.GetSPSR(s.View()));
      }
    case _ =>
      if ArmExecute.IsMSR(instr) {
        var rhs := PlainOperand(s, instr);
        s.FixSPSR(instr, rhs);
      }
  }

  lemma Vectors()
    ensures (4 as word) < 32 && (4 as word) & 3 == 0 && (20 as word) < 32 && (20 as word) & 3 == 0
  {}

  // ---- Multiplies and swaps ----

  /** MUL and MLA, with a zero product when the destination is an operand. */
  method Multiply(s: ARMul, instr: word)
    requires s.Valid() && Field(instr, 16) != 15
    modifies s`NFlag, s`ZFlag, s.Reg
    ensures s.Valid() && s.View() == ArmExecute.Multiply(old(s.View()), instr)
  {
    hide Field, Set, Nat, Word, ArmFlags.NegZero;
    var rm, rd := Field(instr, 0), Field(instr, 16);
    var addend := if Set(instr, 21) then Nat(s.Reg[Field(instr, 12)]) else 0;
    var v;
    if rm == rd {
      v := Word(addend);
    } else {
      v := Word(Nat(s.Reg[rm]) * Nat(s.Reg[Field(instr, 8)]) + addend);
    }
    s.SetReg(rd, v);
    if Set(instr, 20) {
      ArmRoutines.NegZero(s, v);
    }
  }

  method LongMultiply(s: ARMul, instr: word)
    requires s.Valid() && ArmMultiply.Legal(instr)
    modifies s, s.Reg
    ensures s.Valid() && s.View() == ArmExecute.LongMultiply(old(s.View()), instr)
  {
    hide Set, ArmMultiply.Multiply64, ArmMultiply.MultiplyAdd64, ArmMultiply.Legal, s.View;
    if Set(instr, 21) {
      ArmRoutines.MultiplyAdd64(s, instr, Set(instr, 22), Set(instr, 20));
    } else {
      ArmRoutines.Multiply64(s, instr, Set(instr, 22), Set(instr, 20));
    }
  }

  method Swap(s: ARMul, mem: array<word>, instr: word)
    requires Sound(s, mem) && !ArmExecute.Swap(Now(s, mem), instr).Outside?
    modifies s`NextInstr, s.Reg, mem
    ensures Sound(s, mem) && Now(s, mem) == ArmExecute.Swap(old(Now(s, mem)), instr).m
  {
    hide LHS, Nat, ArmExecute.Lane, ArmExecute.SetLane, ArmExecute.WordAt, Dest, RHSReg, Set, IncPc, ArmPsr.SetReg;
    hide AddressException, s.View;
    var address := LHS(s.View(), instr);
    InBounds(address);
    s.IncPc(false);
    var w := ArmExecute.WordAt(address);
    var was := mem[w];
    if Set(instr, 22) {
      mem[w] := ArmExecute.SetLane(was, address, s.Reg[RHSReg(instr)]);
      s.SetReg(Dest(instr), ArmExecute.Lane(was, address));
    } else {
      mem[w] := s.Reg[RHSReg(instr)];
      s.SetReg(Dest(instr), was);
    }
  }

  lemma InBounds(address: word)
    ensures !AddressException(address) ==> ArmExecute.WordAt(address) < MEMWORDS
  {
    hide Nat;
  }

  method Multiplies(s: ARMul, mem: array<word>, instr: word)
    requires Sound(s, mem) && !ArmExecute.Multiplies(Now(s, mem), instr).Outside?
    modifies s, s.Reg, mem
    ensures Sound(s, mem) && Now(s, mem) == ArmExecute.Multiplies(old(Now(s, mem)), instr).m
  {
    hide ArmExecute.IsMultiply, Set, Field, ArmMultiply.Legal, ArmExecute.Multiply, ArmExecute.LongMultiply;
    hide ArmExecute.Swap, s.View;
    if !Set(instr, 24) && !Set(instr, 23) {
      Multiply(s, instr);
    } else if !Set(instr, 24) {
      LongMultiply(s, instr);
    } else {
      Swap(s, mem, instr);
    }
  }

  // ---- Transfers ----

  /** `LoadWord` and `LoadByte`: whether the base may be written back. */
  method LoadAccess(s: ARMul, mem: array<word>, instr: word, address: word) returns (back: bool)
    requires Sound(s, mem) && !ArmExecute.LoadAccess(Now(s, mem), instr, address).o.Outside?
    modifies s, s.Reg, s.RegBank, s.Spsr
    ensures Sound(s, mem)
    ensures var a := ArmExecute.LoadAccess(old(Now(s, mem)), instr, address); Now(s, mem) == a.o.m && back == a.back
  {
    hide IncPc, Nat, Set, AddressException, ArmExecute.Lane, ArmExecute.WordAt, ArmExecute.WriteDest, ArmPsr.Abort;
    hide Dest, Base, s.View;
    s.IncPc(false);
    InBounds(address);
    if AddressException(address) {
      Vectors();
      s.Abort(20);
      return false;
    }
    var w := mem[ArmExecute.WordAt(address)];
    WriteDest(s, instr, if Set(instr, 22) then ArmExecute.Lane(w, address) else w);
    back := Dest(instr) != Base(instr);
  }

  /** `StoreWord` and `StoreByte` */
  method StoreAccess(s: ARMul, mem: array<word>, instr: word, address: word) returns (back: bool)
    requires Sound(s, mem) && !ArmExecute.StoreAccess(Now(s, mem), instr, address).o.Outside?
    modifies s, s.Reg, s.RegBank, s.Spsr, mem
    ensures Sound(s, mem)
    ensures var a := ArmExecute.StoreAccess(old(Now(s, mem)), instr, address); Now(s, mem) == a.o.m && back == a.back
  {
    hide IncPc, Nat, Set, AddressException, ArmExecute.SetLane, ArmExecute.WordAt, ArmPsr.Abort, Dest, GetR15;
    hide ArmPsr.SetReg, s.View;
    s.IncPc(true);
    InBounds(address);
    if Dest(instr) == 15 {
      s.SetReg(15, GetR15(s.View()));
    }
    if AddressException(address) {
      Vectors();
      s.Abort(20);
      return false;
    }
    var v := s.Reg[Dest(instr)];
    var w := ArmExecute.WordAt(address);
    mem[w] := if Set(instr, 22) then ArmExecute.SetLane(mem[w], address, v) else v;
    back := true;
  }

  /** LDR and STR. */
  method SingleTransfer(s: ARMul, mem: array<word>, instr: word)
    requires Sound(s, mem) && !ArmExecute.SingleTransfer(Now(s, mem), instr).Outside?
    modifies s, s.Reg, s.RegBank, s.Spsr, mem
    ensures Sound(s, mem) && Now(s, mem) == ArmExecute.SingleTransfer(old(Now(s, mem)), instr).m
  {
    hide ArmExecute.LoadAccess, ArmExecute.StoreAccess, LHS, LSRHS, ArmExecute.Offset, Before, Up, Writes, Loads;
    hide Base, ArmPsr.SetReg, s.View;
    ghost var m := Now(s, mem);
    var base := LHS(s.View(), instr);
    var pre := Before(instr);
    var address := if pre then ArmExecute.Offset(base, LSRHS(s.View(), instr), Up(instr)) else base;
    Accesses(m, instr, address);
    var back;
    if Loads(instr) {
      back := LoadAccess(s, mem, instr, address);
    } else {
      back := StoreAccess(s, mem, instr, address);
    }
    if back && (!pre || Writes(instr)) {
      s.SetReg(Base(instr), if pre then address else ArmExecute.Offset(base, LSRHS(s.View(), instr), Up(instr)));
    }
  }

  /** The base is written back only after a transfer that was made. */
  lemma Accesses(m: Machine, instr: word, address: word)
    requires Running(m)
    ensures ArmExecute.LoadAccess(m, instr, address).back ==> ArmExecute.LoadAccess(m, instr, address).o.Done?
    ensures ArmExecute.StoreAccess(m, instr, address).back ==> ArmExecute.StoreAccess(m, instr, address).o.Done?
  {
    hide IncPc, Nat, Set, AddressException, ArmExecute.Lane, ArmExecute.SetLane, ArmExecute.WriteDest, ArmPsr.Abort;
    hide Dest, Base, GetR15;
  }

  /** LDM and STM. */
  method BlockTransfer(s: ARMul, mem: array<word>, instr: word)
    requires Sound(s, mem) && !ArmTransfer.BlockTransfer(Now(s, mem), instr).Outside?
    modifies s, s.Reg, s.RegBank, s.Spsr, mem
    ensures Sound(s, mem) && Now(s, mem) == ArmTransfer.BlockTransfer(old(Now(s, mem)), instr).m
  {
    hide ArmTransfer.LoadMult, ArmTransfer.StoreMult, ArmTransfer.LoadSMult, ArmTransfer.StoreSMult;
    hide Loads, UserForm, Start, Final, Rank, Base, AddressException, Transferable, s.View;
    var base := s.Reg[Base(instr)];
    var start, final := Start(base, instr), Final(base, instr);
    Possible(Now(s, mem), instr, start, final);
    if Loads(instr) {
      if UserForm(instr) {
        ArmRoutines.LoadSMult(s, mem, instr, start, final);
      } else {
        ArmRoutines.LoadMult(s, mem, instr, start, final);
      }
    } else {
      if UserForm(instr) {
        ArmRoutines.StoreSMult(s, mem, instr, start, final);
      } else {
        ArmRoutines.StoreMult(s, mem, instr, start, final);
      }
    }
  }

  lemma Possible(m: Machine, instr: word, address: word, base: word)
    requires Running(m) && Count(instr) > 0
    ensures !ArmTransfer.LoadMult(m, instr, address, base).Outside? ==> AddressException(address) || Transferable(address, instr)
    ensures !ArmTransfer.StoreMult(m, instr, address, base).Outside? ==> AddressException(address) || Transferable(address, instr)
    ensures !ArmTransfer.LoadSMult(m, instr, address, base).Outside? ==> !AddressException(address) && Transferable(address, instr)
    ensures !ArmTransfer.StoreSMult(m, instr, address, base).Outside? ==> !AddressException(address) && Transferable(address, instr)
  {
    hide IncPc, PatchR15, WriteBack, Loaded, Stored, Outgoing, ToUserBank, FromUserBank, TakeR15, ArmPsr.Abort;
    hide Rank, Nat;
  }

  // ---- Branches and the loop ----

  method Branch(s: ARMul, pc: word, instr: word)
    requires s.Valid()
    modifies s`NextInstr, s.Reg
    ensures s.Valid() && s.View() == ArmExecute.Branch(old(s.View()), pc, instr)
  {
    hide Set, ArmExecute.Link, ArmExecute.BranchTo, ArmPsr.SetReg, ArmExecute.Jump, s.View;
    if Set(instr, 24) {
      s.SetReg(14, ArmExecute.Link(s.View(), pc));
    }
    Jump(s, ArmExecute.BranchTo(pc, instr));
  }

  method Processing(s: ARMul, mem: array<word>, instr: word)
    requires Sound(s, mem) && !ArmExecute.Processing(Now(s, mem), instr).Outside?
    modifies s, s.Reg, s.RegBank, s.Spsr
    ensures Sound(s, mem) && Now(s, mem) == ArmExecute.Processing(old(Now(s, mem)), instr).m
  {
    hide ArmExecute.StatusMove, ArmExecute.DataProcess, ArmExecute.OpcodeOf, ArmExecute.Sets, ArmExecute.ToPsr;
    hide ArmExecute.IsTest, ArmExecute.IsLogical, BareR15, IsImmediate, s.View;
    if ArmExecute.IsTest(ArmExecute.OpcodeOf(instr)) && !ArmExecute.Sets(instr) {
      StatusMove(s, mem, instr);
    } else {
      DataProcess(s, instr);
    }
  }

  /** The condition check and the switch on the instruction. */
  method Execute(s: ARMul, mem: array<word>, pc: word, instr: word)
    requires Sound(s, mem) && !ArmExecute.Execute(Now(s, mem), pc, instr).Outside?
    modifies s, s.Reg, s.RegBank, s.Spsr, mem
    ensures Sound(s, mem) && Now(s, mem) == ArmExecute.Execute(old(Now(s, mem)), pc, instr).m
  {
    hide Passed, ConditionOf, Set, ArmExecute.Multiplies, ArmExecute.Processing, ArmExecute.SingleTransfer;
    hide ArmTransfer.BlockTransfer, ArmExecute.Branch, ArmPsr.Abort, s.View;
    if Passed(ConditionOf(instr), s.View().flags) {
      if !Set(instr, 27) && !Set(instr, 26) {
        if !Set(instr, 25) && Set(instr, 4) && Set(instr, 7) {
          Multiplies(s, mem, instr);
        } else {
          Processing(s, mem, instr);
        }
      } else if !Set(instr, 27) {
        if Set(instr, 25) && Set(instr, 4) {
          Vectors();
          s.Abort(4);
        } else {
          SingleTransfer(s, mem, instr);
        }
      } else if !Set(instr, 25) {
        BlockTransfer(s, mem, instr);
      } else {
        Branch(s, pc, instr);
      }
    }
  }

  /** `ARMul_Emulate26` for `n` instructions that stay within the model. */
  method Emulate(s: ARMul, mem: array<word>, p: ArmPipeline.Pipeline, n: nat) returns (q: ArmPipeline.Pipeline)
    requires Sound(s, mem) && ArmPipeline.Emulate(Now(s, mem), p, n).At?
    modifies s, s.Reg, s.RegBank, s.Spsr, mem
    ensures Sound(s, mem) && ArmPipeline.Emulate(old(Now(s, mem)), p, n) == ArmPipeline.At(Now(s, mem), q)
  {
    hide ArmExecute.Execute, ArmPipeline.Advance, s.View;
    ghost var r := ArmPipeline.Emulate(Now(s, mem), p, n);
    q := p;
    var k := n;
    while k > 0
      invariant Sound(s, mem) && r == ArmPipeline.Emulate(Now(s, mem), q, k)
    {
      var instr;
      q, instr := Advance(s, mem, q);
      Execute(s, mem, q.pc, instr);
      k := k - 1;
    }
  }
}
