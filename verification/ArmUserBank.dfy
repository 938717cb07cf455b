/** The S forms of LDM and STM from a privileged mode: they move the user bank's registers,
    and put the bank back. */
module ArmUserBank {
  import opened ArmState
  import opened ArmWords
  import opened ArmBanks
  import opened ArmPsr
  import opened ArmPsrLaws
  import opened ArmExceptions
  import opened ArmBlock
  import opened ArmTransfer
  import opened ArmTransferLaws

  /** The registers as the user bank sees them. */
  function UserRegs(c: Cpu): (s: seq<word>)
    requires Shaped(c)
    ensures |s| == 16
  {
    seq(16, r requires 0 <= r < 16 => View(c, USERBANK, r))
  }

  /** Whether bank `b` keeps register `r` where the user bank does. */
  predicate Shared(b: nat, r: nat) {
    r < 8 || b == USERBANK || (r < 13 && b != FIQBANK)
  }

  lemma ToUserSame(c: Cpu)
    requires Ready(c)
    ensures SameViews(c, ToUserBank(c)) && ToUserBank(c).reg == UserRegs(c)
    ensures var d := ToUserBank(c); d == c.(reg := d.reg, regBank := d.regBank, bank := d.bank)
  {
    hide View, SwitchMode;
    RealMode(c.mode);
    var d := ToUserBank(c);
    if c.bank != USERBANK {
      SwitchKeepsViews(c, c.mode, USER26);
    } else {
      forall r: nat | r < 16 ensures d.reg[r] == View(c, USERBANK, r) {
        CurrentView(c, r);
      }
    }
    assert d.reg == UserRegs(c);
  }

  lemma FromUserSame(c: Cpu)
    requires Shaped(c) && c.bank == USERBANK && c.mode <= 3
    ensures SameViews(c, FromUserBank(c)) && FromUserBank(c).bank == ModeToBank(c.mode)
    ensures var d := FromUserBank(c); d == c.(reg := d.reg, regBank := d.regBank, bank := d.bank)
  {
    hide View, SwitchMode;
    RealMode(c.mode);
    if c.mode != USER26 {
      SwitchKeepsViews(c, USER26, c.mode);
    }
  }

  lemma ViewsTransitive(c: Cpu, d: Cpu, e: Cpu)
    requires Shaped(c) && Shaped(d) && Shaped(e) && SameBanked(c, d) && SameViews(d, e)
    ensures SameBanked(c, e)
  {
    hide View;
  }

  lemma IncPcBanked(c: Cpu, nonSeq: bool)
    requires Ready(c)
    ensures SameBanked(c, IncPc(c, nonSeq)) && Confined(c, IncPc(c, nonSeq))
  {
    hide View, Forth;
    var d := IncPc(c, nonSeq);
    forall b: nat, r: nat | Real(b) && r < 15 ensures View(d, b, r) == View(c, b, r) {
      ViewIgnores(c, d, b, r);
    }
  }

  /** Storing the user bank: memory receives exactly the user view of the listed registers, and
      no register r0-r14 of any bank changes. */
  lemma StoreUser(m: Machine, instr: word)
    requires Running(m) && Count(instr) > 0 && !Loads(instr) && UserForm(instr) && !Writes(instr) && !Listed(instr, 15)
    requires var a := Start(m.cpu.reg[Base(instr)], instr); !AddressException(a) && Transferable(a, instr)
    ensures var o := BlockTransfer(m, instr);
            var w := Nat(Start(m.cpu.reg[Base(instr)], instr)) / 4;
            && o.Done? && w + Count(instr) <= MEMWORDS
            && o.m.mem == Stored(m.mem, instr, UserRegs(m.cpu), w)
            && SameBanked(m.cpu, o.m.cpu) && Confined(m.cpu, o.m.cpu)
  {
    hide View, Listed, Nat, Start, Final, Loads, UserForm, Writes, Base, Stored, Loaded, SwitchMode, ToUserBank;
    hide FromUserBank, SameBanked, SameViews, IncPc, Rank;
    var c := IncPc(m.cpu, true);
    IncPcBanked(m.cpu, true);
    ToUserSame(c);
    var d := ToUserBank(c);
    FromUserSame(d);
    var e := FromUserBank(d);
    assert WriteBack(d, instr, Final(m.cpu.reg[Base(instr)], instr)) == d;
    ViewsTransitive(m.cpu, c, d);
    ViewsTransitive(m.cpu, d, e);
    SameTransferable(instr, instr, Start(m.cpu.reg[Base(instr)], instr));
    SameUser(m.cpu, c);
    SameStores(m.mem, instr, d.reg, UserRegs(m.cpu), Nat(Start(m.cpu.reg[Base(instr)], instr)) / 4);
    OutgoingSame(d, instr);
  }

  lemma OutgoingSame(c: Cpu, instr: word)
    requires Shaped(c) && Count(instr) > 0
    ensures Outgoing(c, c, instr) == c.reg
  {
    hide Listed, Rank;
  }

  lemma SameUser(c: Cpu, d: Cpu)
    requires Shaped(c) && Shaped(d) && SameBanked(c, d)
    ensures forall r :: 0 <= r < 15 ==> UserRegs(d)[r] == UserRegs(c)[r]
  {
    hide View;
  }

  /** Register `r` of bank `b` after registers were replaced while the user bank was current. */
  lemma UserLoadView(c: Cpu, d: Cpu, b: nat, r: nat)
    requires Shaped(c) && Shaped(d) && c.bank == d.bank == USERBANK && d.regBank == c.regBank && Real(b) && r < 15
    ensures View(d, b, r) == if Shared(b, r) then d.reg[r] else View(c, b, r)
    ensures Shared(b, r) ==> View(c, b, r) == c.reg[r]
  {}

  /** Loading the user bank changes exactly the user bank's listed registers: in every bank the
      ones it shares, and nothing else. */
  lemma LoadUser(m: Machine, instr: word)
    requires Running(m) && Count(instr) > 0 && Loads(instr) && UserForm(instr) && !Writes(instr) && !Listed(instr, 15)
    requires var a := Start(m.cpu.reg[Base(instr)], instr); !AddressException(a) && Transferable(a, instr)
    ensures var o := BlockTransfer(m, instr);
            var w := Nat(Start(m.cpu.reg[Base(instr)], instr)) / 4;
            && o.Done? && o.m.mem == m.mem && Confined(m.cpu, o.m.cpu) && w + Count(instr) <= MEMWORDS
            && forall b: nat, r: nat :: Real(b) && r < 15 ==>
                 && (Listed(instr, r) ==> w + Rank(instr, r) < MEMWORDS)
                 && View(o.m.cpu, b, r) == if Listed(instr, r) && Shared(b, r) then m.mem[w + Rank(instr, r)]
                                           else View(m.cpu, b, r)
  {
    hide View, Listed, Nat, Start, Final, Loads, UserForm, Writes, Base, SwitchMode, ToUserBank, FromUserBank;
    hide IncPc, Rank, Shared, Loaded;
    var c := IncPc(m.cpu, false);
    IncPcBanked(m.cpu, false);
    ToUserSame(c);
    var d := ToUserBank(c);
    var a := Start(m.cpu.reg[Base(instr)], instr);
    var w := Nat(a) / 4;
    SameTransferable(instr, instr, a);
    assert WriteBack(c, instr, Final(m.cpu.reg[Base(instr)], instr)) == c;
    var e := d.(reg := Loaded(d.reg, instr, m.mem, w));
    FromUserSame(e);
    LoadedUser(m, instr, c, d, e, w);
    assert BlockTransfer(m, instr) == Done(m.(cpu := FromUserBank(e)));
  }

  lemma LoadedUser(m: Machine, instr: word, c: Cpu, d: Cpu, e: Cpu, w: nat)
    requires Running(m) && Shaped(c) && Shaped(d) && SameBanked(m.cpu, c) && SameViews(c, d) && d.bank == USERBANK
    requires w + Count(instr) <= MEMWORDS && e == d.(reg := Loaded(d.reg, instr, m.mem, w))
    ensures forall b: nat, r: nat :: Real(b) && r < 15 ==>
              && (Listed(instr, r) ==> w + Rank(instr, r) < MEMWORDS)
              && View(e, b, r) == if Listed(instr, r) && Shared(b, r) then m.mem[w + Rank(instr, r)] else View(m.cpu, b, r)
  {
    hide View, Listed, Shared, Rank;
    forall b: nat, r: nat | Real(b) && r < 15
      ensures (Listed(instr, r) ==> w + Rank(instr, r) < MEMWORDS)
      ensures View(e, b, r) == if Listed(instr, r) && Shared(b, r) then m.mem[w + Rank(instr, r)] else View(m.cpu, b, r)
    {
      if Listed(instr, r) {
        NthOfRank(instr, r);
      }
      UserLoadView(d, e, b, r);
      assert View(d, b, r) == View(c, b, r) == View(m.cpu, b, r);
    }
  }
}
