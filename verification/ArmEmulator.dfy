/** The emulator's state as the routines that update it in place see it. Each method brings the
    whole state to what the corresponding function says. */
module ArmEmulator {
  import opened ArmState
  import ArmBanks
  import ArmPsr
  import ArmExceptions
  import ArmTransfer

  class ARMul {
    const Reg: array<word>
    const RegBank: array2<word>
    const Spsr: array<word>
    var NFlag: bool
    var ZFlag: bool
    var CFlag: bool
    var VFlag: bool
    var IFFlags: word
    var Bank: nat
    var Mode: word
    var NextInstr: bv8
    /** The scratch CPSR field status writes go through. */
    var Cpsr: word

    predicate Shaped()
      reads this`IFFlags, this`NextInstr
    {
      && Reg.Length == 16 && Spsr.Length == 7 && RegBank.Length0 == 7 && RegBank.Length1 == 16
      && Reg != Spsr && IFFlags <= 3 && NextInstr < 8
    }

    function Banks(): (m: seq<seq<word>>)
      requires RegBank.Length0 == 7 && RegBank.Length1 == 16
      reads RegBank
      ensures |m| == 7 && forall b :: 0 <= b < 7 ==> |m[b]| == 16
    {
      seq(7, b requires 0 <= b < 7 reads RegBank => seq(16, r requires 0 <= r < 16 reads RegBank => RegBank[b, r]))
    }

    lemma BanksAt()
      requires RegBank.Length0 == 7 && RegBank.Length1 == 16
      ensures forall b, r :: 0 <= b < 7 && 0 <= r < 16 ==> Banks()[b][r] == RegBank[b, r]
    {}

    function Pending(): Next
      reads this`NextInstr
    {
      Next(NextInstr & 1 != 0, NextInstr & 2 != 0, NextInstr & 4 != 0)
    }

    function View(): (c: Cpu)
      requires Shaped()
      reads this`NFlag, this`ZFlag, this`CFlag, this`VFlag, this`IFFlags, this`Bank, this`Mode, this`NextInstr, Reg, RegBank, Spsr
      ensures ArmState.Shaped(c)
      ensures c.mode == Mode && c.bank == Bank && c.iff == IFFlags && c.flags == Flags(NFlag, ZFlag, CFlag, VFlag)
      ensures c.reg == Reg[..] && c.spsr == Spsr[..] && c.next == Pending()
    {
      Cpu(Reg[..], Banks(), Spsr[..], Flags(NFlag, ZFlag, CFlag, VFlag), IFFlags, Bank, Mode, Pending())
    }

    /** What holds between instructions. */
    predicate Valid()
      reads this`NFlag, this`ZFlag, this`CFlag, this`VFlag, this`IFFlags, this`Bank, this`Mode, this`NextInstr, Reg, RegBank, Spsr
    {
      Shaped() && Ready(View())
    }

    // ---- Banks ----

    /** Copies registers `lo` up to `hi` into row `b` of the bank matrix. */
    method CopyToBank(b: nat, lo: nat, hi: nat)
      requires Shaped() && b < 7 && lo <= hi <= 16
      modifies RegBank
      ensures forall k, r :: 0 <= k < 7 && 0 <= r < 16 ==>
        RegBank[k, r] == if k == b && lo <= r < hi then Reg[r] else old(RegBank[k, r])
    {
      for i := lo to hi
        invariant forall k, r :: 0 <= k < 7 && 0 <= r < 16 ==>
          RegBank[k, r] == if k == b && lo <= r < i then Reg[r] else old(RegBank[k, r])
      {
        RegBank[b, i] := Reg[i];
      }
    }

    /** Copies row `b` of the bank matrix into registers `lo` up to `hi`. */
    method CopyFromBank(b: nat, lo: nat, hi: nat)
      requires Shaped() && b < 7 && lo <= hi <= 16
      modifies Reg
      ensures forall r :: 0 <= r < 16 ==> Reg[r] == if lo <= r < hi then RegBank[b, r] else old(Reg[r])
    {
      for i := lo to hi
        invariant forall r :: 0 <= r < 16 ==> Reg[r] == if lo <= r < i then RegBank[b, r] else old(Reg[r])
      {
        Reg[i] := RegBank[b, i];
      }
    }

    /** Clears registers 8 to 14 of the dummy bank. */
    method ClearDummyBank()
      requires Shaped()
      modifies RegBank
      ensures forall k, r :: 0 <= k < 7 && 0 <= r < 16 ==>
        RegBank[k, r] == if k == DUMMYBANK && 8 <= r < 15 then 0 else old(RegBank[k, r])
    {
      for i := 8 to 15
        invariant forall k, r :: 0 <= k < 7 && 0 <= r < 16 ==>
          RegBank[k, r] == if k == DUMMYBANK && 8 <= r < i then 0 else old(RegBank[k, r])
      {
        RegBank[DUMMYBANK, i] := 0;
      }
    }

    /** Saves the registers of bank `from` on the way to bank `to`. */
    method Save(from: nat, to: nat)
      requires Shaped() && from <= DUMMYBANK && to <= DUMMYBANK
      modifies RegBank
      ensures forall b, r :: 0 <= b < 7 && 0 <= r < 16 ==> RegBank[b, r] == ArmBanks.SavedAt(old(View()), from, to, b, r)
    {
      BanksAt();
      if from == FIQBANK {
        CopyToBank(FIQBANK, 8, 15);
      } else if from == DUMMYBANK {
        ClearDummyBank();
      } else {
        if to == FIQBANK {
          CopyToBank(USERBANK, 8, 13);
        }
        RegBank[from, 13] := Reg[13];
        RegBank[from, 14] := Reg[14];
      }
    }

    static lemma AllSaved(c: Cpu, from: nat, to: nat, m: seq<seq<word>>)
      requires ArmState.Shaped(c) && |m| == 7 && forall b :: 0 <= b < 7 ==> |m[b]| == 16
      requires forall b, r :: 0 <= b < 7 && 0 <= r < 16 ==> m[b][r] == ArmBanks.SavedAt(c, from, to, b, r)
      ensures m == ArmBanks.Saved(c, from, to)
    {
      hide ArmBanks.SavedAt;
      SameBanks(m, ArmBanks.Saved(c, from, to));
    }

    static lemma SameBanks(m: seq<seq<word>>, n: seq<seq<word>>)
      requires |m| == |n| == 7 && forall b :: 0 <= b < 7 ==> |m[b]| == |n[b]| == 16
      requires forall b, r :: 0 <= b < 7 && 0 <= r < 16 ==> m[b][r] == n[b][r]
      ensures m == n
    {
      forall b | 0 <= b < 7 ensures m[b] == n[b] {}
    }

    /** Loads the registers of bank `to`, coming from bank `from`. */
    method Restore(from: nat, to: nat)
      requires Shaped() && from <= DUMMYBANK && to <= DUMMYBANK
      modifies Reg
      ensures forall r :: 0 <= r < 16 ==> Reg[r] == ArmBanks.RestoredAt(old(View()), from, to, r)
    {
      BanksAt();
      if to == FIQBANK {
        CopyFromBank(FIQBANK, 8, 15);
      } else if to == DUMMYBANK {
        for i := 8 to 15
          invariant forall r :: 0 <= r < 16 ==> Reg[r] == if 8 <= r < i then 0 else old(Reg[r])
        {
          Reg[i] := 0;
        }
      } else {
        if from == FIQBANK {
          CopyFromBank(USERBANK, 8, 13);
        }
        Reg[13] := RegBank[to, 13];
        Reg[14] := RegBank[to, 14];
      }
    }

    static lemma AllRestored(c: Cpu, from: nat, to: nat, reg: seq<word>)
      requires ArmState.Shaped(c) && to < 7 && |reg| == 16
      requires forall r :: 0 <= r < 16 ==> reg[r] == ArmBanks.RestoredAt(c, from, to, r)
      ensures reg == ArmBanks.Restored(c, from, to)
    {
      hide ArmBanks.RestoredAt;
    }

    /** What is saved does not depend on which bank is current. */
    static lemma SavedSame(c: Cpu, d: Cpu, from: nat, to: nat)
      requires ArmState.Shaped(c) && ArmState.Shaped(d) && c.reg == d.reg && c.regBank == d.regBank
      ensures ArmBanks.Saved(c, from, to) == ArmBanks.Saved(d, from, to)
    {
      SameBanks(ArmBanks.Saved(c, from, to), ArmBanks.Saved(d, from, to));
    }

    /** `ARMul_SwitchMode`; the mode it returns is for the caller to install. */
    method SwitchMode(oldmode: word, newmode: word) returns (mode: word)
      requires Shaped()
      modifies this`Bank, Reg, RegBank
      ensures Shaped() && mode == newmode && View() == ArmBanks.SwitchMode(old(View()), oldmode, newmode)
    {
      hide ArmBanks.Saved, ArmBanks.SavedAt, ArmBanks.Restored, ArmBanks.RestoredAt, ModeToBank;
      var from := ModeToBank(oldmode);
      Bank := ModeToBank(newmode);
      if from != Bank {
        SavedSame(old(View()), View(), from, Bank);
        ghost var c := View();
        Save(from, Bank);
        BanksAt();
        AllSaved(c, from, Bank, Banks());
        ghost var d := View();
        Restore(from, Bank);
        AllRestored(d, from, Bank, Reg[..]);
      }
      mode := newmode;
    }

    // ---- Status ----

    method AssignFlags(w: word)
      requires Shaped()
      modifies this`NFlag, this`ZFlag, this`CFlag, this`VFlag
      ensures Shaped() && View() == old(View()).(flags := FlagsOf(w))
    {
      NFlag := w & 0x8000_0000 != 0;
      ZFlag := w & 0x4000_0000 != 0;
      CFlag := w & 0x2000_0000 != 0;
      VFlag := w & 0x1000_0000 != 0;
    }

    method SetReg(r: nat, v: word)
      requires Shaped() && r < 16
      modifies Reg
      ensures Shaped() && View() == ArmPsr.SetReg(old(View()), r, v)
    {
      Reg[r] := v;
    }

    method FlushPipe()
      requires Shaped()
      modifies this`NextInstr
      ensures Shaped() && View() == ArmPsr.FlushPipe(old(View()))
    {
      NextInstr := NextInstr | 4;
    }

    /** `INCPC`, and the bus cycles that go with a memory access. */
    method IncPc(nonSeq: bool)
      requires Valid()
      modifies this`NextInstr, Reg
      ensures Valid() && View() == ArmTransfer.IncPc(old(View()), nonSeq)
    {
      Reg[15] := ArmTransfer.Forth(Reg[15]);
      if nonSeq {
        NextInstr := NextInstr | 3;
      } else {
        NextInstr := NextInstr | 2;
      }
    }

    /** Makes `mode` current, with its bank, if it is not already. */
    method EnterMode(mode: word)
      requires Valid() && mode <= 3
      modifies this`Bank, this`Mode, Reg, RegBank
      ensures Valid() && View() == ArmPsr.EnterMode(old(View()), mode)
    {
      hide ArmBanks.SwitchMode;
      if Mode != mode {
        var entered := SwitchMode(Mode, mode);
        Mode := entered;
      }
    }

    /** `ARMul_CPSRAltered` */
    method CPSRAltered()
      requires Valid()
      modifies this, Reg, RegBank
      ensures Valid() && View() == ArmPsr.CPSRAltered(old(View()), old(Cpsr))
    {
      hide ArmPsr.EnterMode, FlagsOf, ECC;
      ghost var cpsr := Cpsr;
      Cpsr := Cpsr & (CCBITS | INTBITS | R15MODEBITS);
      ArmPsr.ModeIsReal(cpsr);
      Limited(cpsr);
      EnterMode(Cpsr & MODEBITS);
      IFFlags := ArmPsr.CpsrInt(Cpsr);
      AssignFlags(Cpsr);
      SetReg(15, Pack(Reg[15], Flags(NFlag, ZFlag, CFlag, VFlag), IFFlags, Mode));
    }

    /** Only the fields a 26-bit mode has survive. */
    static lemma Limited(cpsr: word)
      ensures var w := cpsr & (CCBITS | INTBITS | R15MODEBITS);
              w & MODEBITS == ModeOf(cpsr) && ArmPsr.CpsrInt(w) == ArmPsr.CpsrInt(cpsr) && FlagsOf(w) == FlagsOf(cpsr)
    {
      LimitedStatus(cpsr);
      LimitedFlags(cpsr);
    }

    static lemma LimitedStatus(cpsr: word)
      ensures var w := cpsr & (CCBITS | INTBITS | R15MODEBITS);
              w & MODEBITS == ModeOf(cpsr) && ArmPsr.CpsrInt(w) == ArmPsr.CpsrInt(cpsr)
    {}

    static lemma LimitedFlags(cpsr: word)
      ensures FlagsOf(cpsr & (CCBITS | INTBITS | R15MODEBITS)) == FlagsOf(cpsr)
    {
      var w := cpsr & (CCBITS | INTBITS | R15MODEBITS);
      assert w & 0x8000_0000 == cpsr & 0x8000_0000;
      assert w & 0x4000_0000 == cpsr & 0x4000_0000;
      assert w & 0x2000_0000 == cpsr & 0x2000_0000;
      assert w & 0x1000_0000 == cpsr & 0x1000_0000;
    }

    /** `ARMul_R15Altered` */
    method R15Altered()
      requires Valid()
      modifies this, Reg, RegBank
      ensures Valid() && View() == ArmPsr.R15Altered(old(View())) && Cpsr == old(Cpsr)
    {
      hide ArmPsr.EnterMode, FlagsOf;
      ArmPsr.ModeIsReal(Reg[15]);
      ghost var w := Reg[15];
      EnterMode(ModeOf(Reg[15]));
      IFFlags := IntOf(Reg[15]);
      AssignFlags(Reg[15]);
    }

    /** `ARMul_SetR15` */
    method SetR15(v: word)
      requires Valid()
      modifies this, Reg, RegBank
      ensures Valid() && View() == ArmPsr.SetR15(old(View()), v)
    {
      hide ArmPsr.R15Altered, ArmPsr.SetReg;
      SetReg(15, v);
      R15Altered();
      FlushPipe();
    }

    method WriteR15(src: word)
      requires Valid()
      modifies this, Reg, RegBank
      ensures Valid() && View() == ArmPsr.WriteR15(old(View()), src)
    {
      hide ArmPsr.R15Altered, ArmPsr.SetReg;
      SetReg(15, Pack(src, Flags(NFlag, ZFlag, CFlag, VFlag), IFFlags, Mode));
      R15Altered();
      FlushPipe();
    }

    method WriteSR15(src: word)
      requires Valid()
      modifies this, Reg, RegBank
      ensures Valid() && View() == ArmPsr.WriteSR15(old(View()), src)
    {
      hide ArmPsr.R15Altered, ArmPsr.SetReg;
      if Bank == USERBANK {
        SetReg(15, Pack(src, FlagsOf(src), IFFlags, Mode));
      } else {
        SetReg(15, src);
      }
      R15Altered();
      FlushPipe();
    }

    /** `SETR15PSR` */
    method SetR15PSR(s: word)
      requires Valid()
      modifies this, Reg, RegBank
      ensures Valid() && View() == ArmPsr.SetR15PSR(old(View()), s)
    {
      hide ArmPsr.R15Altered, ArmPsr.SetReg;
      if Mode == USER26 {
        SetReg(15, Pack(Reg[15], FlagsOf(s), IFFlags, Mode));
        AssignFlags(Reg[15]);
      } else {
        SetReg(15, PcOf(Reg[15]) | Status(s));
        R15Altered();
      }
    }

    /** `ARMul_FixCPSR` */
    method FixCPSR(instr: word, rhs: word)
      requires Valid()
      modifies this, Reg, RegBank
      ensures Valid() && View() == ArmPsr.FixCPSR(old(View()), instr, rhs)
    {
      hide ArmPsr.CPSRAltered, GetCPSR, ArmPsr.SetCC, ArmPsr.Masked, ArmPsr.WritesFlags;
      Cpsr := GetCPSR(View());
      if Bank == USERBANK {
        if ArmPsr.WritesFlags(instr) {
          Cpsr := ArmPsr.SetCC(Cpsr, rhs);
        }
      } else {
        Cpsr := ArmPsr.Masked(Cpsr, rhs, instr);
      }
      CPSRAltered();
    }

    /** `ARMul_FixSPSR` */
    method FixSPSR(instr: word, rhs: word)
      requires Valid()
      modifies Spsr
      ensures Valid() && View() == ArmPsr.FixSPSR(old(View()), instr, rhs)
    {
      hide ArmPsr.Masked;
      if Bank != USERBANK {
        Spsr[Bank] := ArmPsr.Masked(Spsr[Bank], rhs, instr);
      }
    }

    /** `SETABORT` and the status change after it. */
    method EnterException(vector: word)
      requires Valid() && vector < 32 && vector & 3 == 0
      modifies this, Reg, RegBank, Spsr
      ensures Valid() && View() == ArmExceptions.Entered(old(View()), vector)
    {
      hide ArmPsr.CPSRAltered, ECC, EINT, Assemble, GetCPSR, ModeToBank, ArmPsr.VectorMode;
      ArmExceptions.VectorFields(vector);
      var (mode, masks) := ArmPsr.VectorMode(vector);
      Spsr[ModeToBank(mode)] := GetCPSR(View());
      Cpsr := Assemble(ECC(Flags(NFlag, ZFlag, CFlag, VFlag)), EINT(IFFlags) | masks, mode);
      CPSRAltered();
    }

    /** `ARMul_Abort` */
    method Abort(vector: word)
      requires Valid() && vector < 32 && vector & 3 == 0
      modifies this, Reg, RegBank, Spsr
      ensures Valid() && View() == ArmPsr.Abort(old(View()), vector)
    {
      hide ArmPsr.Abort, ArmPsr.SetR15, GetR15, Status, ArmPsr.Back, ArmPsr.SetReg, ArmExceptions.Entered, View;
      var temp := GetR15(View());
      EnterException(vector);
      ghost var entered := View();
      SetReg(14, if vector == 0 then temp else ArmPsr.Back(temp));
      ArmExceptions.AbortSteps(old(View()), vector, entered, View());
      SetR15(Status(Reg[15]) | vector);
    }

    // ---- Reset ----

    lemma ViewBanks()
      requires Shaped()
      ensures View().regBank == Banks()
    {}

    static lemma ZeroView(c: Cpu, b: nat, r: nat)
      requires ArmState.Shaped(c) && ArmBanks.Real(b) && r < 16 && c.reg[r] == 0
      requires forall k :: 0 <= k < 7 ==> c.regBank[k][r] == 0
      ensures ArmBanks.View(c, b, r) == 0
    {}

    /** `ARMul_Reset`: supervisor mode with interrupts masked and flags clear, the pipeline to be
        filled from address zero, and no bank's other registers changed. */
    method Reset()
      requires Valid()
      modifies this, Reg, RegBank
      ensures Valid() && ArmPsr.SameBanked(old(View()), View())
      ensures Mode == SVC26 && IFFlags == 3 && R15PC(View()) == 0 && View().next.prime
      ensures !NFlag && !ZFlag && !CFlag && !VFlag
    {
      hide ArmPsr.CPSRAltered, ArmPsr.SameBanked, FlagsOf, ArmPsr.CpsrInt, ModeOf, PcOf, Pack, View, Banks;
      ghost var c := View();
      NextInstr := 0;
      ghost var a := View();
      assert a == c.(next := a.next) by { OnlyNext(c); }
      ArmExceptions.StatusBanked(c, a);
      SetReg(15, R15INTBITS | SVC26);
      ghost var b := View();
      ArmExceptions.SetRegBanked(a, R15INTBITS | SVC26);
      Cpsr := INTBITS | SVC26;
      ResetFields();
      ArmExceptions.CPSRAlteredTakes(b, Cpsr);
      CPSRAltered();
      ghost var d := View();
      FlushPipe();
      ArmExceptions.StatusBanked(d, View());
      ArmExceptions.BankedTransitive(c, a, b);
      ArmExceptions.BankedTransitive(c, b, d);
      ArmExceptions.BankedTransitive(c, d, View());
    }

    twostate lemma OnlyNext(c: Cpu)
      requires old(Shaped()) && Shaped() && c == old(View())
      requires Bank == old(Bank) && Mode == old(Mode) && IFFlags == old(IFFlags)
      requires NFlag == old(NFlag) && ZFlag == old(ZFlag) && CFlag == old(CFlag) && VFlag == old(VFlag)
      requires unchanged(Reg) && unchanged(RegBank) && unchanged(Spsr)
      ensures View() == c.(next := View().next)
    {}

    static lemma ResetFields()
      ensures PcOf(R15INTBITS | SVC26) == 0 && ModeOf(INTBITS | SVC26) == SVC26 && ArmPsr.CpsrInt(INTBITS | SVC26) == 3
      ensures FlagsOf(INTBITS | SVC26) == Flags(false, false, false, false)
    {}

    static lemma StillZero(c: Cpu, d: Cpu)
      requires ArmState.Shaped(c) && ArmState.Shaped(d) && ArmPsr.SameBanked(c, d)
      requires forall b: nat, r: nat :: ArmBanks.Real(b) && r < 15 ==> ArmBanks.View(c, b, r) == 0
      ensures forall b: nat, r: nat :: ArmBanks.Real(b) && r < 15 ==> ArmBanks.View(d, b, r) == 0
    {
      hide ArmBanks.View;
    }

    /** `ARMul_NewState`: every field zero, then a reset. */
    constructor ()
      ensures Valid() && fresh(Reg) && fresh(RegBank) && fresh(Spsr)
      ensures forall b: nat, r: nat :: ArmBanks.Real(b) && r < 15 ==> ArmBanks.View(View(), b, r) == 0
      ensures Mode == SVC26 && IFFlags == 3 && R15PC(View()) == 0 && View().next.prime
      ensures !NFlag && !ZFlag && !CFlag && !VFlag
    {
      Reg := new word[16](i => 0);
      RegBank := new word[7, 16]((i, j) => 0);
      Spsr := new word[7](i => 0);
      Mode, Bank, IFFlags, NextInstr := USER26, USERBANK, 0, 0;
      NFlag, ZFlag, CFlag, VFlag := false, false, false, false;
      new;
      hide ArmBanks.View, View, R15PC, ArmPsr.SameBanked;
      BanksAt();
      ghost var c := View();
      assert c.regBank == Banks() by { ViewBanks(); }
      forall b: nat, r: nat | ArmBanks.Real(b) && r < 15 ensures ArmBanks.View(c, b, r) == 0 {
        ZeroView(c, b, r);
      }
      Reset();
      StillZero(c, View());
    }
  }
}
