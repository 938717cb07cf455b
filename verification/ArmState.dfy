/** The ARM emulator's processor state, for the 26-bit build: program counter, flags,
    interrupt masks and mode all share register 15, while the emulator also keeps each of
    them in a field of its own. */
module ArmState {

  type word = bv32

  // Processor modes.
  const USER26: word := 0
  const FIQ26: word := 1
  const IRQ26: word := 2
  const SVC26: word := 3

  // Register banks.
  const USERBANK := 0
  const FIQBANK := 1
  const IRQBANK := 2
  const SVCBANK := 3
  const ABORTBANK := 4
  const UNDEFBANK := 5
  const DUMMYBANK := 6

  // Fields of register 15 and of the CPSR.
  const CCBITS: word := 0xf000_0000
  const R15INTBITS: word := 0x0c00_0000
  const R15PCBITS: word := 0x03ff_fffc
  const R15MODEBITS: word := 0x0000_0003
  const INTBITS: word := 0x0000_00c0
  const MODEBITS: word := 0x0000_001f

  /** How the next fetch must treat the program counter: `incPc` when this instruction has
      already advanced it, `prime` when it was changed and the pipeline must be refilled. */
  datatype Next = Next(nonSeq: bool, incPc: bool, prime: bool)

  const NORMALCYCLE := Next(false, false, false)

  datatype Flags = Flags(n: bool, z: bool, c: bool, v: bool)

  datatype Cpu = Cpu(
    reg: seq<word>,
    regBank: seq<seq<word>>,
    spsr: seq<word>,
    flags: Flags,
    iff: word,
    bank: nat,
    mode: word,
    next: Next)

  /** Shapes of the arrays; the interrupt flags are two bits. */
  predicate Shaped(c: Cpu) {
    && |c.reg| == 16 && |c.regBank| == 7 && |c.spsr| == 7
    && (forall b :: 0 <= b < 7 ==> |c.regBank[b]| == 16)
    && c.iff <= 3
  }

  function ModeToBank(mode: word): (b: nat)
    ensures b <= DUMMYBANK
  {
    if mode == 0 || mode == 16 then USERBANK
    else if mode == 1 || mode == 17 then FIQBANK
    else if mode == 2 || mode == 18 then IRQBANK
    else if mode == 3 || mode == 19 then SVCBANK
    else if mode == 23 then ABORTBANK
    else if mode == 27 then UNDEFBANK
    else DUMMYBANK
  }

  /** What holds at every instruction boundary of the 26-bit build. */
  predicate Ready(c: Cpu) {
    Shaped(c) && c.mode <= 3 && c.bank == ModeToBank(c.mode)
  }

  // ---- Assembling and splitting register 15 ----

  function Bit(b: bool, v: word): word {
    if b then v else 0
  }

  /** The condition flags in their positions in register 15. */
  function ECC(f: Flags): word {
    Bit(f.n, 0x8000_0000) | Bit(f.z, 0x4000_0000) | Bit(f.c, 0x2000_0000) | Bit(f.v, 0x1000_0000)
  }

  function FlagsOf(w: word): Flags {
    Flags(w & 0x8000_0000 != 0, w & 0x4000_0000 != 0, w & 0x2000_0000 != 0, w & 0x1000_0000 != 0)
  }

  /** Interrupt flags as register 15 holds them, and as the CPSR does. */
  function ER15INT(iff: word): word {
    iff << 26
  }

  function EINT(iff: word): word {
    iff << 6
  }

  // The fields of register 15.

  function PcOf(w: word): word {
    w & R15PCBITS
  }

  function IntOf(w: word): word {
    (w & R15INTBITS) >> 26
  }

  function ModeOf(w: word): word {
    w & R15MODEBITS
  }

  function Or4(pc: word, cc: word, iff: word, mode: word): word {
    pc | cc | ER15INT(iff) | mode
  }

  function Join(pc: word, cc: word, iff: word, mode: word): word {
    Or4(PcOf(pc), cc, iff, mode)
  }

  /** Register 15 put together from a program counter and the separate fields. */
  function Pack(pc: word, f: Flags, iff: word, mode: word): word {
    Join(pc, ECC(f), iff, mode)
  }

  function R15PC(c: Cpu): word
    requires |c.reg| == 16
  {
    PcOf(c.reg[15])
  }

  /** `ECC | ER15INT | R15PC | EMODE` */
  function GetR15(c: Cpu): word
    requires |c.reg| == 16
  {
    Pack(c.reg[15], c.flags, c.iff, c.mode)
  }

  function GetCPSR(c: Cpu): word {
    Assemble(ECC(c.flags), EINT(c.iff), c.mode)
  }

  /** A CPSR from condition flags, interrupt flags and mode. */
  function Assemble(cc: word, masks: word, mode: word): word {
    cc | masks | mode
  }

  /** The bits of register 15 around the program counter. */
  function Status(w: word): word {
    w & (CCBITS | R15INTBITS | R15MODEBITS)
  }

  /** Nothing of a 32-bit register 15 is lost by splitting it into fields. */
  lemma PackParts(w: word)
    ensures Pack(w, FlagsOf(w), IntOf(w), ModeOf(w)) == w
    ensures IntOf(w) <= 3 && ModeOf(w) <= 3
  {
    hide ECC, FlagsOf;
    EccOf(w);
    Reassemble(w);
  }

  lemma Reassemble(w: word)
    ensures Join(w, w & CCBITS, IntOf(w), ModeOf(w)) == w
    ensures IntOf(w) <= 3 && ModeOf(w) <= 3
  {}

  lemma EccOf(w: word)
    ensures ECC(FlagsOf(w)) == w & CCBITS
  {
    assert Bit(w & 0x8000_0000 != 0, 0x8000_0000) == w & 0x8000_0000 by { OneBit(w); }
    assert Bit(w & 0x4000_0000 != 0, 0x4000_0000) == w & 0x4000_0000 by { OneBit(w); }
    assert Bit(w & 0x2000_0000 != 0, 0x2000_0000) == w & 0x2000_0000 by { OneBit(w); }
    assert Bit(w & 0x1000_0000 != 0, 0x1000_0000) == w & 0x1000_0000 by { OneBit(w); }
    assert (w & 0x8000_0000) | (w & 0x4000_0000) | (w & 0x2000_0000) | (w & 0x1000_0000) == w & CCBITS;
  }

  lemma OneBit(w: word)
    ensures w & 0x8000_0000 == 0 || w & 0x8000_0000 == 0x8000_0000
    ensures w & 0x4000_0000 == 0 || w & 0x4000_0000 == 0x4000_0000
    ensures w & 0x2000_0000 == 0 || w & 0x2000_0000 == 0x2000_0000
    ensures w & 0x1000_0000 == 0 || w & 0x1000_0000 == 0x1000_0000
  {}

  /** Splitting a packed register gives its fields back. */
  lemma PackFields(pc: word, f: Flags, iff: word, mode: word)
    requires iff <= 3 && mode <= 3
    ensures var w := Pack(pc, f, iff, mode);
            PcOf(w) == PcOf(pc) && FlagsOf(w) == f && IntOf(w) == iff && ModeOf(w) == mode
  {
    hide ECC, FlagsOf, Join, PcOf, IntOf, ModeOf;
    EccFlags(f);
    JoinFields(pc, ECC(f), iff, mode);
  }

  lemma EccFlags(f: Flags)
    ensures ECC(f) & 0x0fff_ffff == 0 && FlagsOf(ECC(f)) == f
  {
    if f.n { if f.z { if f.c { if f.v {} else {} } else { if f.v {} else {} } }
             else { if f.c { if f.v {} else {} } else { if f.v {} else {} } } }
    else { if f.z { if f.c { if f.v {} else {} } else { if f.v {} else {} } }
           else { if f.c { if f.v {} else {} } else { if f.v {} else {} } } }
  }

  lemma JoinFields(pc: word, cc: word, iff: word, mode: word)
    requires cc & 0x0fff_ffff == 0 && iff <= 3 && mode <= 3
    ensures var w := Join(pc, cc, iff, mode);
            PcOf(w) == PcOf(pc) && FlagsOf(w) == FlagsOf(cc) && IntOf(w) == iff && ModeOf(w) == mode
  {
    hide PcOf, FlagsOf, IntOf, ModeOf, Or4;
    PcClear(pc);
    JoinFlags(PcOf(pc), cc, iff, mode);
    JoinPc(PcOf(pc), cc, iff, mode);
    JoinInt(PcOf(pc), cc, iff, mode);
  }

  lemma PcClear(pc: word)
    ensures PcOf(pc) & 0xfc00_0003 == 0
  {}

  lemma JoinFlags(pc: word, cc: word, iff: word, mode: word)
    requires pc & 0xfc00_0003 == 0 && cc & 0x0fff_ffff == 0 && iff <= 3 && mode <= 3
    ensures FlagsOf(Or4(pc, cc, iff, mode)) == FlagsOf(cc)
  {
    var w := Or4(pc, cc, iff, mode);
    assert w & 0x8000_0000 == cc & 0x8000_0000 && w & 0x4000_0000 == cc & 0x4000_0000;
    assert w & 0x2000_0000 == cc & 0x2000_0000 && w & 0x1000_0000 == cc & 0x1000_0000;
  }

  lemma JoinPc(pc: word, cc: word, iff: word, mode: word)
    requires pc & 0xfc00_0003 == 0 && cc & 0x0fff_ffff == 0 && iff <= 3 && mode <= 3
    ensures PcOf(Or4(pc, cc, iff, mode)) == pc && ModeOf(Or4(pc, cc, iff, mode)) == mode
  {}

  lemma JoinInt(pc: word, cc: word, iff: word, mode: word)
    requires pc & 0xfc00_0003 == 0 && cc & 0x0fff_ffff == 0 && iff <= 3 && mode <= 3
    ensures IntOf(Or4(pc, cc, iff, mode)) == iff
  {}
}
