/** LDM and STM in all their forms: the transfer routines of the emulator and what they do to
    the register file each bank sees. */
module ArmTransfer {
  import opened ArmState
  import opened ArmWords
  import opened ArmBanks
  import opened ArmPsr
  import opened ArmBlock

  /** What executing an instruction leads to: a new state, an exception taken, or a case
      outside the model. */
  datatype Outcome = Done(m: Machine) | Trapped(m: Machine) | Outside

  const LEGALADDR := 0x3ff_ffff

  // ---- Instruction fields ----

  predicate Set(instr: word, bit: nat)
    requires bit < 32
  {
    (instr >> bit) & 1 == 1
  }

  /** A four-bit register field. */
  function Field(instr: word, low: nat): (r: nat)
    requires low <= 28
    ensures r < 16
  {
    ((instr >> low) & 0xf) as nat
  }

  function Base(instr: word): (r: nat)
    ensures r < 16
  {
    Field(instr, 16)
  }

  predicate Before(instr: word) {
    Set(instr, 24)
  }

  predicate Up(instr: word) {
    Set(instr, 23)
  }

  predicate UserForm(instr: word) {
    Set(instr, 22)
  }

  predicate Writes(instr: word) {
    Set(instr, 21)
  }

  predicate Loads(instr: word) {
    Set(instr, 20)
  }

  // ---- Addresses ----

  /** Bytes a transfer moves. */
  function NumBytes(instr: word): nat {
    4 * Count(instr)
  }

  /** Lowest address of a transfer. */
  function Start(base: word, instr: word): word {
    if Up(instr) then
      if Before(instr) then Word(Nat(base) + 4) else base
    else
      if Before(instr) then Word(Nat(base) - NumBytes(instr)) else Word(Nat(base) - NumBytes(instr) + 4)
  }

  /** The base register after a transfer with writeback. */
  function Final(base: word, instr: word): word {
    if Up(instr) then Word(Nat(base) + NumBytes(instr)) else Word(Nat(base) - NumBytes(instr))
  }

  predicate AddressException(address: word) {
    Nat(address) > LEGALADDR
  }

  /** All the transfer's words are aligned and inside memory. */
  predicate Transferable(address: word, instr: word) {
    Nat(address) % 4 == 0 && Nat(address) / 4 + Count(instr) <= MEMWORDS
  }

  // ---- Shared steps ----

  /** The address four after. */
  function Forth(w: word): word {
    w + 4
  }

  /** Advances the program counter early, ahead of a memory access. */
  function IncPc(c: Cpu, nonSeq: bool): (d: Cpu)
    requires Ready(c)
    ensures Ready(d)
  {
    SetReg(c, 15, Forth(c.reg[15])).(next := Next(c.next.nonSeq || nonSeq, true, c.next.prime))
  }

  /** `PATCHR15`: fills in the status bits of register 15. */
  function PatchR15(c: Cpu): (d: Cpu)
    requires Ready(c)
    ensures Ready(d)
  {
    SetReg(c, 15, GetR15(c))
  }

  function WriteBack(c: Cpu, instr: word, v: word): (d: Cpu)
    requires Shaped(c)
    ensures Shaped(d) && d == c.(reg := d.reg) && d.reg[15] == c.reg[15]
  {
    if Writes(instr) && Base(instr) != 15 then SetReg(c, Base(instr), v) else c
  }

  // ---- The four transfer routines ----

  function LoadMult(m: Machine, instr: word, address: word, base: word): (o: Outcome)
    requires Running(m) && Count(instr) > 0
    ensures !o.Outside? ==> Running(o.m) && o.m.mem == m.mem
  {
    var c := WriteBack(IncPc(m.cpu, true), instr, base);
    if AddressException(address) then Trapped(m.(cpu := Abort(c, 20)))
    else if !Transferable(address, instr) then Outside
    else
      var d := c.(reg := Loaded(c.reg, instr, m.mem, Nat(address) / 4));
      Done(m.(cpu := if Listed(instr, 15) then FlushPipe(d) else d))
  }

  function StoreMult(m: Machine, instr: word, address: word, base: word): (o: Outcome)
    requires Running(m) && Count(instr) > 0
    ensures !o.Outside? ==> Running(o.m)
  {
    var a := IncPc(m.cpu, true);
    var c := if Listed(instr, 15) then PatchR15(a) else a;
    var d := WriteBack(c, instr, base);
    if AddressException(address) then Trapped(m.(cpu := Abort(d, 20)))
    else if !Transferable(address, instr) then Outside
    else Done(Machine(d, Stored(m.mem, instr, Outgoing(c, d, instr), Nat(address) / 4)))
  }

  /** The values stored: writeback happens after the first of them. */
  function Outgoing(before: Cpu, after: Cpu, instr: word): (s: seq<word>)
    requires Shaped(before) && Shaped(after) && Count(instr) > 0
    ensures |s| == 16
  {
    after.reg[Nth(instr, 0) := before.reg[Nth(instr, 0)]]
  }

  /** The temporary switch to the user bank, and back; the mode stays what it was. */
  function ToUserBank(c: Cpu): (d: Cpu)
    requires Ready(c)
    ensures Shaped(d) && d.bank == USERBANK && d.mode == c.mode
  {
    if c.bank != USERBANK then SwitchMode(c, c.mode, USER26) else c
  }

  function FromUserBank(c: Cpu): (d: Cpu)
    requires Shaped(c) && c.bank == USERBANK && c.mode <= 3
    ensures Ready(d)
  {
    if c.mode != USER26 then SwitchMode(c, USER26, c.mode) else c
  }

  /** A loaded register 15 takes effect, in user mode for the condition flags alone. */
  function TakeR15(c: Cpu): (d: Cpu)
    requires Ready(c)
    ensures Ready(d)
  {
    FlushPipe(if c.mode == USER26 then c.(flags := FlagsOf(c.reg[15])) else R15Altered(c))
  }

  /** LDM with the S bit: register 15 brings its status bits, and without it the user bank is
      loaded. */
  function LoadSMult(m: Machine, instr: word, address: word, base: word): (o: Outcome)
    requires Running(m) && Count(instr) > 0
    ensures !o.Outside? ==> Running(o.m) && o.m.mem == m.mem
  {
    var c := WriteBack(IncPc(m.cpu, false), instr, base);
    if AddressException(address) || !Transferable(address, instr) then Outside
    else
      var w := Nat(address) / 4;
      if Listed(instr, 15) then Done(m.(cpu := TakeR15(c.(reg := Loaded(c.reg, instr, m.mem, w)))))
      else
        var d := ToUserBank(c);
        Done(m.(cpu := FromUserBank(d.(reg := Loaded(d.reg, instr, m.mem, w)))))
  }

  /** STM with the S bit: always the user bank's registers. */
  function StoreSMult(m: Machine, instr: word, address: word, base: word): (o: Outcome)
    requires Running(m) && Count(instr) > 0
    ensures !o.Outside? ==> Running(o.m)
  {
    var a := IncPc(m.cpu, true);
    var b := if Listed(instr, 15) then PatchR15(a) else a;
    if AddressException(address) || !Transferable(address, instr) then Outside
    else
      var c := ToUserBank(b);
      var d := WriteBack(c, instr, base);
      Done(Machine(FromUserBank(d), Stored(m.mem, instr, Outgoing(c, d, instr), Nat(address) / 4)))
  }

  /** The instruction as a whole. */
  function BlockTransfer(m: Machine, instr: word): (o: Outcome)
    requires Running(m)
    ensures !o.Outside? ==> Running(o.m)
  {
    if Count(instr) == 0 then Outside
    else
      var base := m.cpu.reg[Base(instr)];
      var start, final := Start(base, instr), Final(base, instr);
      if Loads(instr) then
        if UserForm(instr) then LoadSMult(m, instr, start, final) else LoadMult(m, instr, start, final)
      else
        if UserForm(instr) then StoreSMult(m, instr, start, final) else StoreMult(m, instr, start, final)
  }
}
