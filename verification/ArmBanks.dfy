/** Register banking: what a mode switch saves and restores, and the register file each
    bank sees. */
module ArmBanks {
  import opened ArmState

  /** A bank that keeps its registers; the dummy bank loses r8-r14. */
  predicate Real(b: nat) {
    b <= UNDEFBANK
  }

  /** Register `r` of row `b` of the bank matrix after saving bank `from` on the way to
      bank `to`. */
  function SavedAt(c: Cpu, from: nat, to: nat, b: nat, r: nat): word
    requires Shaped(c) && b < 7 && r < 16
  {
    if from == FIQBANK then
      if b == FIQBANK && 8 <= r < 15 then c.reg[r] else c.regBank[b][r]
    else if from == DUMMYBANK then
      if b == DUMMYBANK && 8 <= r < 15 then 0 else c.regBank[b][r]
    else if b == from && 13 <= r < 15 then c.reg[r]
    else if to == FIQBANK && b == USERBANK && 8 <= r < 13 then c.reg[r]
    else c.regBank[b][r]
  }

  function Saved(c: Cpu, from: nat, to: nat): (m: seq<seq<word>>)
    requires Shaped(c)
    ensures |m| == 7 && forall b :: 0 <= b < 7 ==> |m[b]| == 16
  {
    seq(7, b requires 0 <= b < 7 => seq(16, r requires 0 <= r < 16 => SavedAt(c, from, to, b, r)))
  }

  /** Register `r` after loading bank `to` from the matrix, coming from bank `from`. */
  function RestoredAt(c: Cpu, from: nat, to: nat, r: nat): word
    requires Shaped(c) && to < 7 && r < 16
  {
    if to == FIQBANK then
      if 8 <= r < 15 then c.regBank[FIQBANK][r] else c.reg[r]
    else if to == DUMMYBANK then
      if 8 <= r < 15 then 0 else c.reg[r]
    else if 13 <= r < 15 then c.regBank[to][r]
    else if from == FIQBANK && 8 <= r < 13 then c.regBank[USERBANK][r]
    else c.reg[r]
  }

  function Restored(c: Cpu, from: nat, to: nat): (s: seq<word>)
    requires Shaped(c) && to < 7
    ensures |s| == 16
  {
    seq(16, r requires 0 <= r < 16 => RestoredAt(c, from, to, r))
  }

  /** `ARMul_SwitchMode`: saves the old bank, loads the new one, and makes it current. */
  function SwitchMode(c: Cpu, oldmode: word, newmode: word): (d: Cpu)
    requires Shaped(c)
    ensures Shaped(d) && d.bank == ModeToBank(newmode) && d.reg[15] == c.reg[15]
    ensures d == c.(reg := d.reg, regBank := d.regBank, bank := d.bank)
  {
    var from, to := ModeToBank(oldmode), ModeToBank(newmode);
    if from == to then c.(bank := to)
    else
      var saved := c.(regBank := Saved(c, from, to), bank := to);
      saved.(reg := Restored(saved, from, to))
  }

  /** Register `r` as bank `b` sees it, whichever bank is current. */
  function View(c: Cpu, b: nat, r: nat): word
    requires Shaped(c) && Real(b) && r < 16
  {
    if r < 8 || r == 15 then c.reg[r]
    else if r >= 13 then
      if b == c.bank then c.reg[r] else c.regBank[b][r]
    else if b == FIQBANK then
      if c.bank == FIQBANK then c.reg[r] else c.regBank[FIQBANK][r]
    else
      if c.bank == FIQBANK then c.regBank[USERBANK][r] else c.reg[r]
  }

  /** Every bank of `d` sees what it saw in `c`. */
  ghost predicate SameViews(c: Cpu, d: Cpu)
    requires Shaped(c) && Shaped(d)
  {
    forall b: nat, r: nat :: Real(b) && r < 16 ==> View(d, b, r) == View(c, b, r)
  }

  /** Switching between real banks changes no bank's view, and makes the register file the
      new bank's view. */
  lemma SwitchKeepsViews(c: Cpu, oldmode: word, newmode: word)
    requires Shaped(c) && c.bank == ModeToBank(oldmode)
    requires Real(c.bank) && Real(ModeToBank(newmode))
    ensures SameViews(c, SwitchMode(c, oldmode, newmode))
    ensures forall r: nat :: r < 16 ==> SwitchMode(c, oldmode, newmode).reg[r] == View(c, ModeToBank(newmode), r)
  {
    hide ModeToBank, SwitchMode, View;
    var d := SwitchMode(c, oldmode, newmode);
    forall b: nat, r: nat | Real(b) && r < 16 ensures View(d, b, r) == View(c, b, r) {
      ViewAfter(c, oldmode, newmode, b, r);
    }
    forall r: nat | r < 16 ensures d.reg[r] == View(c, ModeToBank(newmode), r) {
      ViewAfter(c, oldmode, newmode, ModeToBank(newmode), r);
      CurrentView(d, r);
    }
  }

  /** The current bank sees the register file. */
  lemma CurrentView(c: Cpu, r: nat)
    requires Shaped(c) && Real(c.bank) && r < 16
    ensures View(c, c.bank, r) == c.reg[r]
  {}

  lemma ViewAfter(c: Cpu, oldmode: word, newmode: word, b: nat, r: nat)
    requires Shaped(c) && c.bank == ModeToBank(oldmode) && r < 16
    requires Real(c.bank) && Real(ModeToBank(newmode)) && Real(b)
    ensures View(SwitchMode(c, oldmode, newmode), b, r) == View(c, b, r)
  {
    hide ModeToBank, SwitchMode, SavedAt;
    var from, to := c.bank, ModeToBank(newmode);
    if from == to {
      assert SwitchMode(c, oldmode, newmode) == c by { SameBank(c, oldmode, newmode); }
    } else {
      SwitchedAt(c, oldmode, newmode, b, r);
      SwitchedAt(c, oldmode, newmode, USERBANK, r);
      SwitchedAt(c, oldmode, newmode, FIQBANK, r);
      SavedCases(c, from, to, b, r);
      SavedCases(c, from, to, USERBANK, r);
      SavedCases(c, from, to, FIQBANK, r);
      SavedCases(c, from, to, to, r);
    }
  }

  lemma SameBank(c: Cpu, oldmode: word, newmode: word)
    requires Shaped(c) && c.bank == ModeToBank(oldmode) == ModeToBank(newmode)
    ensures SwitchMode(c, oldmode, newmode) == c
  {}

  lemma SavedCases(c: Cpu, from: nat, to: nat, b: nat, r: nat)
    requires Shaped(c) && Real(from) && b < 7 && r < 16
    ensures SavedAt(c, from, to, b, r) ==
      if b == from && (13 <= r < 15 || (from == FIQBANK && 8 <= r < 13)) then c.reg[r]
      else if from != FIQBANK && to == FIQBANK && b == USERBANK && 8 <= r < 13 then c.reg[r]
      else c.regBank[b][r]
  {}

  lemma SwitchedAt(c: Cpu, oldmode: word, newmode: word, b: nat, r: nat)
    requires Shaped(c) && b < 7 && r < 16
    requires ModeToBank(oldmode) != ModeToBank(newmode) && Real(ModeToBank(newmode))
    ensures var from, to := ModeToBank(oldmode), ModeToBank(newmode);
            var d := SwitchMode(c, oldmode, newmode);
            && d.regBank[b][r] == SavedAt(c, from, to, b, r)
            && d.reg[r] == if to == FIQBANK then if 8 <= r < 15 then SavedAt(c, from, to, FIQBANK, r) else c.reg[r]
                           else if 13 <= r < 15 then SavedAt(c, from, to, to, r)
                           else if from == FIQBANK && 8 <= r < 13 then SavedAt(c, from, to, USERBANK, r)
                           else c.reg[r]
  {
    hide ModeToBank, SavedAt;
  }

  /** A sequence of mode switches, each from the mode the one before it entered. */
  function SwitchAll(c: Cpu, mode: word, modes: seq<word>): (d: Cpu)
    requires Shaped(c)
    ensures Shaped(d)
    decreases |modes|
  {
    if modes == [] then c else SwitchAll(SwitchMode(c, mode, modes[0]), modes[0], modes[1..])
  }

  /** However often the processor changes between real banks, no bank's registers change. */
  lemma {:induction false} SwitchesKeepViews(c: Cpu, mode: word, modes: seq<word>)
    requires Shaped(c) && c.bank == ModeToBank(mode) && Real(c.bank)
    requires forall m :: m in modes ==> Real(ModeToBank(m))
    ensures SameViews(c, SwitchAll(c, mode, modes))
    decreases |modes|
  {
    hide ModeToBank, View, SwitchMode;
    if modes != [] {
      var d := SwitchMode(c, mode, modes[0]);
      SwitchKeepsViews(c, mode, modes[0]);
      SwitchesKeepViews(d, modes[0], modes[1..]);
    }
  }

  /** Going to another real bank and straight back restores the whole register file. */
  lemma SwitchBack(c: Cpu, mode: word, other: word)
    requires Shaped(c) && c.bank == ModeToBank(mode) && Real(c.bank) && Real(ModeToBank(other))
    ensures var d := SwitchMode(SwitchMode(c, mode, other), other, mode);
            d.reg == c.reg && d.bank == c.bank
  {
    hide ModeToBank, SwitchMode;
    var e := SwitchMode(c, mode, other);
    SwitchKeepsViews(c, mode, other);
    SwitchKeepsViews(e, other, mode);
    var d := SwitchMode(e, other, mode);
    forall r: nat | r < 16 ensures d.reg[r] == c.reg[r] {
      assert d.reg[r] == View(e, c.bank, r) == View(c, c.bank, r);
    }
    assert d.reg == c.reg;
  }

  /** What a switch to another of the four modes leaves in register `r`: 0-7 and 15 stay, 13 and
      14 come from the new mode's own bank, and 8-12 change only when fast interrupt mode is
      entered, from its bank, or left, from the one the other modes share. */
  lemma SwitchShares(c: Cpu, from: word, to: word, r: nat)
    requires Shaped(c) && c.bank == ModeToBank(from) && from <= 3 && to <= 3 && from != to && r < 16
    ensures ModeToBank(to) == to as nat
    ensures SwitchMode(c, from, to).reg[r] ==
              if r < 8 || r == 15 then c.reg[r]
              else if r >= 13 then c.regBank[ModeToBank(to)][r]
              else if to == 1 then c.regBank[1][r]
              else if from == 1 then c.regBank[0][r]
              else c.reg[r]
  {
    hide SwitchMode, ModeToBank;
    BankIs(from);
    BankIs(to);
    SwitchKeepsViews(c, from, to);
  }

  lemma BankIs(mode: word)
    requires mode <= 3
    ensures ModeToBank(mode) == mode as nat
  {
    if mode == 0 {} else if mode == 1 {} else if mode == 2 {} else {}
  }
}
