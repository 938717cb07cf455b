/** Long multiplication from four 16-bit products, with the carries found by comparison. */
module ArmMultiply {
  import opened ArmState
  import opened ArmWords
  import opened ArmFlags
  import opened ArmTransfer

  const WRAP := 0x1_0000_0000
  const WRAP64 := 0x1_0000_0000_0000_0000

  type word32 = n: nat | n < 0x1_0000_0000

  // ---- What a long multiply computes ----

  /** The 64-bit product of two words, read as signed or unsigned. */
  function Product(rm: word, rs: word, signed: bool): (p: nat)
    ensures p < WRAP64
  {
    (if signed then Int(rm) * Int(rs) else Nat(rm) * Nat(rs)) % WRAP64
  }

  // Register fields of a long multiply.

  function RdHi(instr: word): nat {
    Field(instr, 16)
  }

  function RdLo(instr: word): nat {
    Field(instr, 12)
  }

  function Rs(instr: word): nat {
    Field(instr, 8)
  }

  function Rm(instr: word): nat {
    Field(instr, 0)
  }

  /** The operand combinations with a defined result; `Rm` may be a destination. */
  predicate Legal(instr: word) {
    && RdHi(instr) != 15 && RdLo(instr) != 15 && Rs(instr) != 15 && Rm(instr) != 15
    && RdHi(instr) != RdLo(instr) && RdHi(instr) != Rs(instr) && RdLo(instr) != Rs(instr)
  }

  /** Puts a 64-bit value into the two destination registers. */
  function SetPair(reg: seq<word>, instr: word, p: nat): (s: seq<word>)
    requires |reg| == 16 && RdHi(instr) < 16 && RdLo(instr) < 16
    ensures |s| == 16
  {
    reg[RdLo(instr) := Word(p % WRAP)][RdHi(instr) := Word(p / WRAP)]
  }

  /** The 64-bit value of the two destination registers. */
  function PairOf(reg: seq<word>, instr: word): nat
    requires |reg| == 16
  {
    Nat(reg[RdHi(instr)]) * WRAP + Nat(reg[RdLo(instr)])
  }

  lemma PairOfSetPair(reg: seq<word>, instr: word, p: nat)
    requires |reg| == 16 && RdHi(instr) != RdLo(instr) && p < WRAP64
    ensures PairOf(SetPair(reg, instr, p), instr) == p
  {
    hide Nat, Word, Field;
    NatWord(p % WRAP);
    NatWord(p / WRAP);
  }

  // ---- The arithmetic ----

  /** Adds two words and finds the carry by comparing the result with an operand. */
  method Add32(a1: word32, a2: word32) returns (result: word32, carry: word32)
    ensures carry <= 1 && carry * WRAP + result == a1 + a2
  {
    result := (a1 + a2) % WRAP;
    if (if result == a1 then a2 != 0 else result < a1) {
      carry := 1;
    } else {
      carry := 0;
    }
  }

  /** A product whose size is known without multiplying it out. */
  function Times(a: nat, b: nat): nat {
    a * b
  }

  lemma TimesUpTo(a: nat, b: nat, x: nat, y: nat)
    requires a <= x && b <= y
    ensures Times(a, b) <= Times(x, y)
  {
    assert x * y == a * b + (x - a) * b + x * (y - b);
  }

  lemma BelowWrap64(x: word32, y: word32)
    ensures Times(x, y) < WRAP64
  {
    hide Times;
    TimesUpTo(x, y, 0xffff_ffff, 0xffff_ffff);
    assert Times(0xffff_ffff, 0xffff_ffff) < WRAP64 by {
      Times32();
    }
  }

  lemma Times32()
    ensures Times(0xffff_ffff, 0xffff_ffff) < WRAP64 && Times(0xffff, 0xffff) == 0xfffe_0001
  {}

  /** The schoolbook identity behind the four 16-bit products. */
  lemma FourProducts(x: nat, y: nat, a: nat, b: nat, c: nat, d: nat)
    requires x == a * 0x1_0000 + b && y == c * 0x1_0000 + d
    ensures Times(x, y) == Times(a, c) * WRAP + (Times(b, c) + Times(a, d)) * 0x1_0000 + Times(b, d)
  {
    assert x * y == a * 0x1_0000 * (c * 0x1_0000) + a * 0x1_0000 * d + b * (c * 0x1_0000) + b * d;
    assert a * 0x1_0000 * (c * 0x1_0000) == a * c * WRAP;
    assert a * 0x1_0000 * d == a * d * 0x1_0000;
    assert b * (c * 0x1_0000) == b * c * 0x1_0000;
  }

  lemma SmallProduct(a: nat, b: nat)
    requires a < 0x1_0000 && b < 0x1_0000
    ensures Times(a, b) <= 0xfffe_0001
  {
    hide Times;
    TimesUpTo(a, b, 0xffff, 0xffff);
    Times32();
  }

  /** The unsigned 64-bit product, word by word. */
  method MultiplyUnsigned(rs: word32, rm: word32) returns (lo: word32, hi: word32)
    ensures hi * WRAP + lo == Times(rs, rm)
  {
    hide Times;
    var b, a := rs % 0x1_0000, rs / 0x1_0000;
    var d, c := rm % 0x1_0000, rm / 0x1_0000;
    SmallProduct(b, d);
    SmallProduct(b, c);
    SmallProduct(a, d);
    SmallProduct(a, c);
    FourProducts(rs, rm, a, b, c, d);
    var low: word32, mid1: word32, mid2: word32, high: word32 := Times(b, d), Times(b, c), Times(a, d), Times(a, c);
    BelowWrap64(rs, rm);
    lo, hi := AddProducts(low, mid1, mid2, high);
  }

  /** Adds the four products at their places, with the carries. */
  method AddProducts(low: word32, mid1: word32, mid2: word32, high: word32) returns (lo: word32, hi: word32)
    requires high * WRAP + (mid1 + mid2) * 0x1_0000 + low < WRAP64
    ensures hi * WRAP + lo == high * WRAP + (mid1 + mid2) * 0x1_0000 + low
  {
    Shifted(mid1);
    Shifted(mid2);
    var carry1, carry2;
    lo, carry1 := Add32(low, mid1 * 0x1_0000 % WRAP);
    lo, carry2 := Add32(lo, mid2 * 0x1_0000 % WRAP);
    hi := (carry1 + carry2 + mid1 / 0x1_0000 + mid2 / 0x1_0000 + high) % WRAP;
  }

  lemma Shifted(m: word32)
    ensures m * 0x1_0000 == m / 0x1_0000 * WRAP + m * 0x1_0000 % WRAP
  {
    assert m == m / 0x1_0000 * 0x1_0000 + m % 0x1_0000;
    assert m * 0x1_0000 == m / 0x1_0000 * WRAP + m % 0x1_0000 * 0x1_0000;
  }

  /** Negation of a 64-bit value held in two words: complement and add one with the carry. */
  method Negate64(lo: word32, hi: word32) returns (nlo: word32, nhi: word32)
    ensures nhi * WRAP + nlo == (WRAP64 - (hi * WRAP + lo)) % WRAP64
  {
    nlo, nhi := 0xffff_ffff - lo, 0xffff_ffff - hi;
    if nlo == 0xffff_ffff {
      nlo := 0;
      nhi := (nhi + 1) % WRAP;
    } else {
      nlo := nlo + 1;
    }
  }

  /** The product of two words: signs are taken off, and put back on the result. */
  method Multiply(rs: word, rm: word, signed: bool) returns (lo: word32, hi: word32)
    ensures hi * WRAP + lo == Product(rm, rs, signed)
  {
    hide Nat, Times, Product;
    var s: word32, m: word32 := Nat(rs), Nat(rm);
    var sign := false;
    if signed {
      sign := (m >= 0x8000_0000) != (s >= 0x8000_0000);
      if m >= 0x8000_0000 {
        m := (WRAP - m) % WRAP;
      }
      if s >= 0x8000_0000 {
        s := (WRAP - s) % WRAP;
      }
    }
    lo, hi := MultiplyUnsigned(s, m);
    BelowWrap64(s, m);
    if sign {
      lo, hi := Negate64(lo, hi);
    }
    if signed {
      SignedProduct(rm, rs, m, s);
    } else {
      UnsignedProduct(rm, rs, m, s);
    }
  }

  lemma UnsignedProduct(rm: word, rs: word, m: word32, s: word32)
    requires m == Nat(rm) && s == Nat(rs) && Times(s, m) < WRAP64
    ensures Product(rm, rs, false) == Times(s, m)
  {
    hide Nat;
  }

  /** A product of integers is the product of their sizes with the sign put back. */
  lemma SignedProduct(rm: word, rs: word, m: word32, s: word32)
    requires m == (if Int(rm) < 0 then -Int(rm) else Int(rm)) && s == (if Int(rs) < 0 then -Int(rs) else Int(rs))
    requires Times(s, m) < WRAP64
    ensures Product(rm, rs, true) == if (Int(rm) < 0) != (Int(rs) < 0) then (WRAP64 - Times(s, m)) % WRAP64 else Times(s, m)
  {
    hide Int;
    var x, y := Int(rm), Int(rs);
    if (x < 0) != (y < 0) {
      assert x * y == -(s * m);
    } else {
      assert x * y == s * m;
    }
  }

  // ---- Long multiplies on the processor ----

  /** A value other than zero leaves N clear, whatever its sign. */
  function LongFlags(f: Flags, p: nat): Flags {
    NegZero(f, Word(if p == 0 then 0 else 1))
  }

  function Multiply64(c: Cpu, instr: word, signed: bool, scc: bool): (d: Cpu)
    requires Ready(c) && Legal(instr)
    ensures Ready(d)
  {
    var p := Product(c.reg[Rm(instr)], c.reg[Rs(instr)], signed);
    c.(reg := SetPair(c.reg, instr, p), flags := if scc then LongFlags(c.flags, p) else c.flags)
  }

  function MultiplyAdd64(c: Cpu, instr: word, signed: bool, scc: bool): (d: Cpu)
    requires Ready(c) && Legal(instr)
    ensures Ready(d)
  {
    var p := (PairOf(c.reg, instr) + Product(c.reg[Rm(instr)], c.reg[Rs(instr)], signed)) % WRAP64;
    c.(reg := SetPair(c.reg, instr, p), flags := if scc then LongFlags(c.flags, p) else c.flags)
  }

  /** The destination pair holds the product, or the old pair plus the product, modulo 2^64; no
      other register changes. */
  lemma LongMultiplies(c: Cpu, instr: word, signed: bool, scc: bool)
    requires Ready(c) && Legal(instr)
    ensures var p := Product(c.reg[Rm(instr)], c.reg[Rs(instr)], signed);
            var d, e := Multiply64(c, instr, signed, scc), MultiplyAdd64(c, instr, signed, scc);
            && PairOf(d.reg, instr) == p && PairOf(e.reg, instr) == (PairOf(c.reg, instr) + p) % WRAP64
            && (forall r :: 0 <= r < 16 && r != RdHi(instr) && r != RdLo(instr) ==> d.reg[r] == e.reg[r] == c.reg[r])
            && (scc ==> (d.flags.z <==> PairOf(d.reg, instr) == 0) && (e.flags.z <==> PairOf(e.reg, instr) == 0))
  {
    hide Nat, Word, Field, Product, PairOf, SetPair, LongFlags;
    var p := Product(c.reg[Rm(instr)], c.reg[Rs(instr)], signed);
    var q := (PairOf(c.reg, instr) + p) % WRAP64;
    PairOfSetPair(c.reg, instr, p);
    PairOfSetPair(c.reg, instr, q);
    SetPairOthers(c.reg, instr, p);
    SetPairOthers(c.reg, instr, q);
    LongZero(c.flags, p);
    LongZero(c.flags, q);
  }

  lemma SetPairOthers(reg: seq<word>, instr: word, p: nat)
    requires |reg| == 16
    ensures forall r :: 0 <= r < 16 && r != RdHi(instr) && r != RdLo(instr) ==> SetPair(reg, instr, p)[r] == reg[r]
  {
    hide Word, Field;
  }

  lemma LongZero(f: Flags, p: nat)
    ensures LongFlags(f, p).z <==> p == 0
  {
    hide Nat, Word;
    NatWord(0);
    NatWord(1);
  }
}
