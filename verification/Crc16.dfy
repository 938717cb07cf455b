/** The CRC-16/ARC library: bit, byte and word speeds, the partial-byte remainder, and
    the combination of two CRCs. */
module Crc16 {
  import opened CrcAlgebra
  import opened CrcPowers

  /** A `void const *` argument with its length: NULL, or bytes at a host address. */
  datatype Memory = Null | At(address: nat, data: seq<bv8>)

  /** A message byte as a polynomial. */
  function Widen(b: bv8): bv16 {
    b as bv16
  }

  // ---- Reference definition ----

  /** The CRC register after feeding the bytes of `s`, by polynomial arithmetic: add the
      byte, multiply by x^8. */
  function Crc(c: bv16, s: seq<bv8>): bv16
    decreases |s|
  {
    if s == [] then c else Crc(Steps(Xor(c, Widen(s[0])), 8), s[1..])
  }

  /** Feeding the low `n` bits of `v`, one bit at a time. */
  function CrcBits(c: bv16, v: bv16, n: nat): bv16
    decreases n
  {
    if n == 0 then c else CrcBits(Step(Xor(c, LowBit(v))), Shr(v), n - 1)
  }

  function LowBit(v: bv16): bv16 {
    v & 1
  }

  function Shr(v: bv16): bv16 {
    v >> 1
  }

  lemma {:induction false} CrcConcat(c: bv16, s: seq<bv8>, t: seq<bv8>)
    ensures Crc(c, s + t) == Crc(Crc(c, s), t)
    decreases |s|
  {
    hide Step, Xor, Widen;
    if s == [] {
      assert s + t == t;
    } else {
      assert (s + t)[1..] == s[1..] + t;
      CrcConcat(Steps(Xor(c, Widen(s[0])), 8), s[1..], t);
    }
  }

  /** The CRC is affine in its start value. */
  lemma {:induction false} CrcLinear(c: bv16, d: bv16, s: seq<bv8>)
    ensures Crc(Xor(c, d), s) == Xor(Steps(c, 8 * |s|), Crc(d, s))
    decreases |s|
  {
    hide Step, Xor, Widen;
    if s != [] {
      var b := Widen(s[0]);
      XorAssoc(c, d, b);
      StepsLinear(c, Xor(d, b), 8);
      CrcLinear(Steps(c, 8), Steps(Xor(d, b), 8), s[1..]);
      StepsAdd(c, 8, 8 * |s[1..]|);
    }
  }

  /** Appending a message is multiplying the first CRC by a power of x and adding the
      second one. */
  lemma CrcShift(c: bv16, s: seq<bv8>)
    ensures Crc(c, s) == Xor(Steps(c, 8 * |s|), Crc(0, s))
  {
    hide Step, Xor, Widen;
    XorZero(c);
    CrcLinear(c, 0, s);
  }

  // ---- A bit at a time ----

  method CrcBit(crc: bv16, mem: Memory) returns (r: bv16)
    ensures r == if mem.Null? then 0 else Crc(crc, mem.data)
  {
    if mem.Null? {
      return 0;
    }
    hide Step, Xor, Widen;
    var data := mem.data;
    r := crc;
    for i := 0 to |data|
      invariant Crc(r, data[i..]) == Crc(crc, data)
    {
      ghost var r0 := r;
      r := Xor(r, Widen(data[i]));
      for k := 0 to 8
        invariant Steps(r, 8 - k) == Steps(Xor(r0, Widen(data[i])), 8)
      {
        r := Step(r);
      }
      assert data[i..][1..] == data[i + 1..];
    }
  }

  /** The low `bits` bits of `val` on top of `crc`; `bits` is in 0..8. */
  method CrcRem(crc: bv16, val: bv16, bits: nat) returns (r: bv16)
    requires bits <= 8
    ensures r == CrcBits(crc, val, bits)
  {
    hide Step, Xor, Widen;
    r := Xor(crc, LowBits(val, bits));
    RemMask(crc, val, bits);
    for i := 0 to bits
      invariant Steps(r, bits - i) == CrcBits(crc, val, bits)
    {
      r := Step(r);
    }
  }

  /** `val & ((1U << bits) - 1)` */
  function LowBits(val: bv16, bits: nat): bv16
    requires bits <= 8
  {
    match bits
    case 0 => val & 0x00
    case 1 => val & 0x01
    case 2 => val & 0x03
    case 3 => val & 0x07
    case 4 => val & 0x0f
    case 5 => val & 0x1f
    case 6 => val & 0x3f
    case 7 => val & 0x7f
    case 8 => val & 0xff
  }

  lemma LowBitsPeel(v: bv16, n: nat)
    requires 0 < n <= 8
    ensures LowBits(v, n) == Xor(LowBit(v), Shl(LowBits(Shr(v), n - 1)))
    ensures Step(Shl(LowBits(Shr(v), n - 1))) == LowBits(Shr(v), n - 1)
  {
    assert n == 1 || n == 2 || n == 3 || n == 4 || n == 5 || n == 6 || n == 7 || n == 8;
  }

  /** Masking first and stepping afterwards is feeding the bits one by one. */
  lemma {:induction false} RemMask(c: bv16, v: bv16, n: nat)
    requires n <= 8
    ensures Steps(Xor(c, LowBits(v, n)), n) == CrcBits(c, v, n)
    decreases n
  {
    hide Step, Xor, LowBits, LowBit, Shr, Shl;
    if n == 0 {
      assert LowBits(v, 0) == 0 by { LowBitsZero(v); }
      XorZero(c);
    } else {
      var rest := LowBits(Shr(v), n - 1);
      LowBitsPeel(v, n);
      XorAssoc(c, LowBit(v), Shl(rest));
      StepLinear(Xor(c, LowBit(v)), Shl(rest));
      RemMask(Step(Xor(c, LowBit(v))), Shr(v), n - 1);
    }
  }

  lemma LowBitsZero(v: bv16)
    ensures LowBits(v, 0) == 0
  {}

  function ShiftRight(v: bv16, n: nat): bv16
    decreases n
  {
    if n == 0 then v else ShiftRight(Shr(v), n - 1)
  }

  /** The remainder of i + j bits is the remainder of i bits, then of the next j. */
  lemma {:induction false} RemSplit(c: bv16, v: bv16, i: nat, j: nat)
    ensures CrcBits(c, v, i + j) == CrcBits(CrcBits(c, v, i), ShiftRight(v, i), j)
    decreases i
  {
    hide Step, Xor, LowBit, Shr;
    if i > 0 {
      RemSplit(Step(Xor(c, LowBit(v))), Shr(v), i - 1, j);
    }
  }

  /** Eight bits of remainder are one byte of the CRC. */
  lemma RemByte(c: bv16, b: bv8)
    ensures CrcBits(c, Widen(b), 8) == Crc(c, [b])
  {
    hide Step, Xor, Widen, LowBits;
    assert LowBits(Widen(b), 8) == Widen(b) by { LowBitsByte(b); }
    RemMask(c, Widen(b), 8);
  }

  lemma LowBitsByte(b: bv8)
    ensures LowBits(Widen(b), 8) == Widen(b)
  {}

  // ---- Table driven speeds ----

  /** `table_word[k][i]`: table 0 is eight bit steps, and each further table is the one
      before it with one more zero byte. */
  function TableWord(k: nat, i: bv16): bv16
    decreases k
  {
    if k == 0 then Steps(i, 8) else Steps(TableWord(k - 1, i), 8)
  }

  lemma {:induction false} TableSteps(k: nat, i: bv16)
    ensures TableWord(k, i) == Steps(i, 8 * k + 8)
    decreases k
  {
    hide Step;
    if k > 0 {
      TableSteps(k - 1, i);
      StepsAdd(i, 8 * k, 8);
    }
  }

  lemma ShiftOut2(y: bv16)
    requires y & 3 == 0
    ensures Steps(y, 2) == y >> 2
  {
    hide Step;
    Steps2(y);
    assert Step(y) == y >> 1 && Step(y >> 1) == y >> 2 by { StepTwice(y); }
  }

  lemma StepTwice(y: bv16)
    requires y & 3 == 0
    ensures Step(y) == y >> 1 && Step(y >> 1) == y >> 2
  {
    assert y & 1 == 0;
    assert (y >> 1) & 1 == 0;
  }

  /** Eight steps of a register whose low byte is zero only shift. */
  lemma ShiftOut(y: bv16)
    requires y & 0xff == 0
    ensures Steps(y, 8) == y >> 8
  {
    hide Step;
    ShiftOut2(y);
    ShiftOut2(y >> 2);
    ShiftOut2(y >> 4);
    ShiftOut2(y >> 6);
    StepsAdd(y, 2, 2);
    StepsAdd(y, 4, 2);
    StepsAdd(y, 6, 2);
  }

  /** One table lookup is eight bit steps. */
  lemma TableByte(y: bv16)
    ensures Steps(y, 8) == Xor(HalfHi(y), TableWord(0, HalfLo(y)))
  {
    hide Step, Xor, HighByte, HalfLo, HalfHi;
    HalfWords(y);
    ShiftOut(HighByte(y));
    StepsLinear(HighByte(y), HalfLo(y), 8);
  }

  function HalfLo(y: bv16): bv16 {
    y & 0xff
  }

  function HalfHi(y: bv16): bv16 {
    y >> 8
  }

  function HighByte(y: bv16): bv16 {
    y & 0xff00
  }

  lemma HalfWords(y: bv16)
    ensures y == Xor(HighByte(y), HalfLo(y))
    ensures HighByte(y) & 0xff == 0 && HighByte(y) >> 8 == HalfHi(y)
  {}

  /** `(crc >> 8) ^ table_byte[(crc ^ b) & 0xff]` */
  function ByteStep(crc: bv16, b: bv8): bv16 {
    Xor(HalfHi(crc), TableWord(0, HalfLo(Xor(crc, Widen(b)))))
  }

  lemma ByteStepIsCrc(crc: bv16, b: bv8)
    ensures ByteStep(crc, b) == Crc(crc, [b])
  {
    hide Step, Xor, Widen, HalfLo, HalfHi;
    ByteHigh(crc, b);
    TableByte(Xor(crc, Widen(b)));
    assert Crc(crc, [b]) == Steps(Xor(crc, Widen(b)), 8);
  }

  lemma ByteHigh(crc: bv16, b: bv8)
    ensures HalfHi(Xor(crc, Widen(b))) == HalfHi(crc)
  {}

  method CrcByte(crc: bv16, mem: Memory) returns (r: bv16)
    ensures r == if mem.Null? then 0 else Crc(crc, mem.data)
  {
    if mem.Null? {
      return 0;
    }
    hide Step, Xor, Widen;
    var data := mem.data;
    r := crc;
    for i := 0 to |data|
      invariant Crc(r, data[i..]) == Crc(crc, data)
    {
      FeedByte(r, data, i);
      r := ByteStep(r, data[i]);
    }
  }

  lemma FeedByte(crc: bv16, data: seq<bv8>, i: nat)
    requires i < |data|
    ensures Crc(crc, data[i..]) == Crc(ByteStep(crc, data[i]), data[i + 1..])
  {
    hide Step, Xor, Widen, ByteStep;
    ByteStepIsCrc(crc, data[i]);
    CrcConcat(crc, [data[i]], data[i + 1..]);
    assert [data[i]] + data[i + 1..] == data[i..];
  }

  // ---- Eight bytes at a time ----

  /** A 64-bit little-endian load. */
  function Load64(s: seq<bv8>): bv64
    requires |s| == 8
  {
    (s[0] as bv64) | ((s[1] as bv64) << 8) | ((s[2] as bv64) << 16) | ((s[3] as bv64) << 24)
    | ((s[4] as bv64) << 32) | ((s[5] as bv64) << 40) | ((s[6] as bv64) << 48) | ((s[7] as bv64) << 56)
  }

  /** Byte `k` of a 64-bit word, as a table index. */
  function Lane(w: bv64, k: nat): bv16
    requires k < 8
  {
    match k
    case 0 => (w & 0xff) as bv16
    case 1 => ((w >> 8) & 0xff) as bv16
    case 2 => ((w >> 16) & 0xff) as bv16
    case 3 => ((w >> 24) & 0xff) as bv16
    case 4 => ((w >> 32) & 0xff) as bv16
    case 5 => ((w >> 40) & 0xff) as bv16
    case 6 => ((w >> 48) & 0xff) as bv16
    case 7 => (w >> 56) as bv16
  }

  /** The eight table lookups of one loop iteration. */
  function WordStep(crc: bv16, s: seq<bv8>): bv16
    requires |s| == 8
  {
    var w := (crc as bv64) ^ Load64(s);
    Xor(TableWord(7, Lane(w, 0)),
    Xor(TableWord(6, Lane(w, 1)),
    Xor(TableWord(5, Lane(w, 2)),
    Xor(TableWord(4, Lane(w, 3)),
    Xor(TableWord(3, Lane(w, 4)),
    Xor(TableWord(2, Lane(w, 5)),
    Xor(TableWord(1, Lane(w, 6)),
        TableWord(0, Lane(w, 7)))))))))
  }

  lemma WordLanes(crc: bv16, s: seq<bv8>)
    requires |s| == 8
    ensures var w := (crc as bv64) ^ Load64(s);
            && Lane(w, 0) == Xor(HalfLo(crc), Widen(s[0]))
            && Lane(w, 1) == Xor(HalfHi(crc), Widen(s[1]))
            && forall k :: 2 <= k < 8 ==> Lane(w, k) == Widen(s[k])
  {
    var w := (crc as bv64) ^ Load64(s);
    forall k | 2 <= k < 8 ensures Lane(w, k) == Widen(s[k]) {
      assert k == 2 || k == 3 || k == 4 || k == 5 || k == 6 || k == 7;
    }
  }

  /** The tables applied to a message of at most eight bytes, first byte in the largest
      table. */
  function TableSum(s: seq<bv8>): bv16
    decreases |s|
  {
    if s == [] then 0 else Xor(TableWord(|s| - 1, Widen(s[0])), TableSum(s[1..]))
  }

  lemma {:induction false} TableSumIsCrc(s: seq<bv8>)
    ensures TableSum(s) == Crc(0, s)
    decreases |s|
  {
    hide Step, Xor, Widen;
    if s != [] {
      var b := Widen(s[0]);
      TableSumIsCrc(s[1..]);
      TableSteps(|s| - 1, b);
      XorZero(b);
      StepsAdd(b, 8, 8 * |s[1..]|);
      CrcShift(Steps(b, 8), s[1..]);
    }
  }

  lemma TableLinear(k: nat, i: bv16, j: bv16)
    ensures TableWord(k, Xor(i, j)) == Xor(TableWord(k, i), TableWord(k, j))
  {
    hide Step, Xor, Widen;
    TableSteps(k, i);
    TableSteps(k, j);
    TableSteps(k, Xor(i, j));
    StepsLinear(i, j, 8 * k + 8);
  }

  lemma TableSum6(s: seq<bv8>)
    requires |s| == 8
    ensures TableSum(s) ==
      Xor(TableWord(7, Widen(s[0])), Xor(TableWord(6, Widen(s[1])), TableSum(s[2..])))
    ensures TableSum(s[2..]) ==
      Xor(TableWord(5, Widen(s[2])),
      Xor(TableWord(4, Widen(s[3])),
      Xor(TableWord(3, Widen(s[4])),
      Xor(TableWord(2, Widen(s[5])),
      Xor(TableWord(1, Widen(s[6])),
          TableWord(0, Widen(s[7])))))))
  {
    hide Step, Xor, Widen, TableWord;
    assert s[1..][1..] == s[2..];
    assert s[2..][1..] == s[3..];
    assert s[3..][1..] == s[4..];
    assert s[4..][1..] == s[5..];
    assert s[5..][1..] == s[6..];
    assert s[6..][1..] == s[7..];
    assert TableSum(s[1..]) == Xor(TableWord(6, Widen(s[1])), TableSum(s[2..]));
    assert TableSum(s[3..]) == Xor(TableWord(4, Widen(s[3])), TableSum(s[4..]));
    assert TableSum(s[5..]) == Xor(TableWord(2, Widen(s[5])), TableSum(s[6..]));
    assert TableSum(s[6..]) == Xor(TableWord(1, Widen(s[6])), TableSum(s[7..]));
    assert TableSum(s[7..]) == Xor(TableWord(0, Widen(s[7])), 0);
    XorZero(TableWord(0, Widen(s[7])));
  }

  /** The start value enters through the two largest tables only. */
  lemma StartInTables(crc: bv16)
    ensures Steps(crc, 64) == Xor(TableWord(7, HalfLo(crc)), TableWord(6, HalfHi(crc)))
  {
    hide Step, Xor, HighByte, HalfLo, HalfHi;
    HalvesOf(crc);
    StartSplit(HighByte(crc), HalfLo(crc), HalfHi(crc));
  }

  lemma HalvesOf(crc: bv16)
    ensures crc == Xor(HighByte(crc), HalfLo(crc))
    ensures Steps(HighByte(crc), 8) == HalfHi(crc)
  {
    hide Step, Xor, HighByte, HalfLo, HalfHi;
    HalfWords(crc);
    ShiftOut(HighByte(crc));
  }

  lemma StartSplit(high: bv16, lo: bv16, hi: bv16)
    requires Steps(high, 8) == hi
    ensures Steps(Xor(high, lo), 64) == Xor(TableWord(7, lo), TableWord(6, hi))
  {
    hide Step, Xor;
    StepsLinear(high, lo, 64);
    StepsAdd(high, 8, 56);
    TableSteps(7, lo);
    TableSteps(6, hi);
    XorComm(Steps(high, 64), Steps(lo, 64));
  }

  lemma WordStepIsCrc(crc: bv16, s: seq<bv8>)
    requires |s| == 8
    ensures WordStep(crc, s) == Crc(crc, s)
  {
    hide Step, Xor, Widen, Load64, Lane, HalfLo, HalfHi;
    WordLanes(crc, s);
    StartInTables(crc);
    TableSum6(s);
    WordTables(HalfLo(crc), HalfHi(crc), Widen(s[0]), Widen(s[1]), TableSum(s[2..]));
    TableSumIsCrc(s);
    CrcShift(crc, s);
  }

  lemma WordTables(lo: bv16, hi: bv16, b0: bv16, b1: bv16, rest: bv16)
    ensures Xor(TableWord(7, Xor(lo, b0)), Xor(TableWord(6, Xor(hi, b1)), rest)) ==
            Xor(Xor(TableWord(7, lo), TableWord(6, hi)), Xor(TableWord(7, b0), Xor(TableWord(6, b1), rest)))
  {
    hide Step, Xor, TableWord;
    TableLinear(7, lo, b0);
    TableLinear(6, hi, b1);
    XorAssoc(TableWord(6, hi), TableWord(6, b1), rest);
    XorSwap(TableWord(7, lo), TableWord(7, b0), TableWord(6, hi), Xor(TableWord(6, b1), rest));
  }

  lemma FeedWord(crc: bv16, data: seq<bv8>, q: nat)
    requires q + 8 <= |data|
    ensures Crc(crc, data[q..]) == Crc(WordStep(crc, data[q..q + 8]), data[q + 8..])
  {
    hide Step, Xor, Widen, WordStep;
    WordStepIsCrc(crc, data[q..q + 8]);
    CrcConcat(crc, data[q..q + 8], data[q + 8..]);
    assert data[q..q + 8] + data[q + 8..] == data[q..];
  }

  /** The word loop of `crc16arc_word`. */
  method CrcWords(crc: bv16, data: seq<bv8>, p: nat, n: nat) returns (r: bv16)
    requires p + 8 * n <= |data|
    ensures Crc(r, data[p + 8 * n..]) == Crc(crc, data[p..])
  {
    hide Step, Xor, Widen, WordStep, Crc;
    r := crc;
    for i := 0 to n
      invariant Crc(r, data[p + 8 * i..]) == Crc(crc, data[p..])
    {
      FeedWord(r, data, p + 8 * i);
      r := WordStep(r, data[p + 8 * i..p + 8 * i + 8]);
    }
  }

  /** The byte loop that runs until the data pointer is eight-byte aligned. */
  method CrcHead(crc: bv16, data: seq<bv8>, address: nat) returns (r: bv16, p: nat)
    ensures p <= |data| && (p == |data| || (address + p) % 8 == 0)
    ensures Crc(r, data[p..]) == Crc(crc, data)
  {
    hide Step, Xor, Widen, ByteStep, Crc;
    r, p := crc, 0;
    assert data[0..] == data;
    while p < |data| && (address + p) % 8 != 0
      invariant p <= |data|
      invariant Crc(r, data[p..]) == Crc(crc, data)
    {
      FeedByte(r, data, p);
      r := ByteStep(r, data[p]);
      p := p + 1;
    }
  }

  /** The byte loop over what is left after the last whole word. */
  method CrcTail(crc: bv16, data: seq<bv8>, p0: nat) returns (r: bv16)
    requires p0 <= |data|
    ensures r == Crc(crc, data[p0..])
  {
    hide Step, Xor, Widen, ByteStep, Crc;
    r := crc;
    var p := p0;
    while p < |data|
      invariant p0 <= p <= |data|
      invariant Crc(r, data[p..]) == Crc(crc, data[p0..])
    {
      FeedByte(r, data, p);
      r := ByteStep(r, data[p]);
      p := p + 1;
    }
    CrcEmpty(r);
    assert data[p..] == [];
  }

  method CrcWord(crc: bv16, mem: Memory) returns (r: bv16)
    ensures r == if mem.Null? then 0 else Crc(crc, mem.data)
  {
    hide Step, Xor, Widen, Crc;
    if mem.Null? {
      return 0;
    }
    var p;
    r, p := CrcHead(crc, mem.data, mem.address);
    var n := (|mem.data| - p) / 8;
    r := CrcWords(r, mem.data, p, n);
    r := CrcTail(r, mem.data, p + 8 * n);
  }

  lemma CrcEmpty(c: bv16)
    ensures Crc(c, []) == c
  {}

  // ---- Combination ----

  /** The product of two polynomials. The loop ends only because `a` has a set bit: with
      `a == 0` its exit is never taken. */
  method MultModP(a0: bv16, b0: bv16) returns (prod: bv16)
    requires a0 != 0
    ensures prod == Mul(a0, b0)
  {
    hide Step, Xor, Widen;
    var a, b := a0, b0;
    ghost var rounds := 16;
    prod := 0;
    FitsAll(a);
    XorZero(Mul(a, b));
    while true
      invariant a != 0 && Fits(a, rounds)
      invariant Xor(prod, MulSteps(a, b, rounds)) == Mul(a0, b0)
      decreases rounds
    {
      assert rounds > 0;
      XorAssoc(prod, Lead(a, b), MulSteps(Shl(a), Step(b), rounds - 1));
      XorZero(prod);
      if a & 0x8000 != 0 {
        prod := Xor(prod, b);
        if a & 0x7fff == 0 {
          assert a == ONE by { TopOnly(a); }
          MulStepsOne(b, rounds);
          break;
        }
      }
      ShlNonzero(a);
      a := a << 1;
      b := Step(b);
      rounds := rounds - 1;
    }
  }

  lemma TopOnly(a: bv16)
    requires a & 0x8000 != 0 && a & 0x7fff == 0
    ensures a == ONE
  {}

  lemma ShlNonzero(a: bv16)
    ensures a & 0x7fff != 0 ==> Shl(a) != 0
    ensures a != 0 && a & 0x8000 == 0 ==> Shl(a) != 0
  {}

  /** `table_comb[k]` is x^(2^k). */
  const TABLE_COMB: seq<bv16> := [
    0x4000, 0x2000, 0x0800, 0x0080, 0xa001, 0xe801, 0xc881, 0x6080, 0x8801, 0xe081,
    0x6800, 0x2880, 0xa881, 0x4880, 0x8081]

  // The shift-and-add product written out, so that it can be evaluated on literals.

  function Step4(b: bv16): bv16 {
    Step(Step(Step(Step(b))))
  }

  function ShlFour(a: bv16): bv16 {
    Shl(Shl(Shl(Shl(a))))
  }

  function Mul4(a: bv16, b: bv16): bv16 {
    Xor(Lead(a, b), Xor(Lead(Shl(a), Step(b)),
    Xor(Lead(Shl(Shl(a)), Step(Step(b))), Lead(Shl(Shl(Shl(a))), Step(Step(Step(b)))))))
  }

  function Mul16(a: bv16, b: bv16): bv16 {
    var a4, b4 := ShlFour(a), Step4(b);
    var a8, b8 := ShlFour(a4), Step4(b4);
    var a12, b12 := ShlFour(a8), Step4(b8);
    Xor(Mul4(a, b), Xor(Mul4(a4, b4), Xor(Mul4(a8, b8), Mul4(a12, b12))))
  }

  lemma MulRounds4(a: bv16, b: bv16, n: nat)
    ensures MulSteps(a, b, n + 4) == Xor(Mul4(a, b), MulSteps(ShlFour(a), Step4(b), n))
  {
    hide Step, Xor, Lead, Shl;
    var a1, b1 := Shl(a), Step(b);
    var a2, b2 := Shl(a1), Step(b1);
    var a3, b3 := Shl(a2), Step(b2);
    var rest := MulSteps(ShlFour(a), Step4(b), n);
    assert MulSteps(a3, b3, n + 1) == Xor(Lead(a3, b3), rest);
    assert MulSteps(a2, b2, n + 2) == Xor(Lead(a2, b2), Xor(Lead(a3, b3), rest));
    assert MulSteps(a1, b1, n + 3) == Xor(Lead(a1, b1), Xor(Lead(a2, b2), Xor(Lead(a3, b3), rest)));
    XorAssoc(Lead(a2, b2), Lead(a3, b3), rest);
    XorAssoc(Lead(a1, b1), Xor(Lead(a2, b2), Lead(a3, b3)), rest);
    XorAssoc(Lead(a, b), Xor(Lead(a1, b1), Xor(Lead(a2, b2), Lead(a3, b3))), rest);
  }

  lemma MulIsMul16(a: bv16, b: bv16)
    ensures Mul(a, b) == Mul16(a, b)
  {
    hide Step, Xor, Mul4, Step4, ShlFour;
    var a4, b4 := ShlFour(a), Step4(b);
    var a8, b8 := ShlFour(a4), Step4(b4);
    var a12, b12 := ShlFour(a8), Step4(b8);
    MulRounds4(a, b, 12);
    MulRounds4(a4, b4, 8);
    MulRounds4(a8, b8, 4);
    MulRounds4(a12, b12, 0);
    XorZero(Mul4(a12, b12));
  }

  /** Each entry is the square of the one before it, and the square of the last entry is
      the first: x^(2^15) == x. */
  lemma CombSquares(k: nat)
    requires k < 15
    ensures Mul(TABLE_COMB[k], TABLE_COMB[k]) == TABLE_COMB[(k + 1) % 15]
    ensures TABLE_COMB[k] != 0
  {
    hide Mul, Mul16;
    MulIsMul16(TABLE_COMB[k], TABLE_COMB[k]);
    CombLiterals();
    CombLiterals5();
    CombLiterals10();
  }

  lemma CombLiterals()
    ensures Mul16(0x4000, 0x4000) == 0x2000 && Mul16(0x2000, 0x2000) == 0x0800
    ensures Mul16(0x0800, 0x0800) == 0x0080 && Mul16(0x0080, 0x0080) == 0xa001
    ensures Mul16(0xa001, 0xa001) == 0xe801
  {}

  lemma CombLiterals5()
    ensures Mul16(0xe801, 0xe801) == 0xc881 && Mul16(0xc881, 0xc881) == 0x6080
    ensures Mul16(0x6080, 0x6080) == 0x8801 && Mul16(0x8801, 0x8801) == 0xe081
    ensures Mul16(0xe081, 0xe081) == 0x6800
  {}

  lemma CombLiterals10()
    ensures Mul16(0x6800, 0x6800) == 0x2880 && Mul16(0x2880, 0x2880) == 0xa881
    ensures Mul16(0xa881, 0xa881) == 0x4880 && Mul16(0x4880, 0x4880) == 0x8081
    ensures Mul16(0x8081, 0x8081) == 0x4000
  {}

  /** The part of the exponent still to be multiplied in. */
  function Remaining(weight: nat, n: nat): nat {
    weight * n
  }

  lemma Halve(weight: nat, n: nat)
    ensures Remaining(weight, n) == Remaining(2 * weight, n / 2) + if n % 2 == 1 then weight else 0
    ensures Remaining(8, n) == 8 * n && Remaining(weight, 0) == 0
  {
    assert n == 2 * (n / 2) + n % 2;
  }

  lemma NextWeight(k: nat, weight: nat)
    requires k < 15 && TABLE_COMB[k] == X(weight)
    ensures TABLE_COMB[k] != 0
    ensures TABLE_COMB[(k + 1) % 15] == X(2 * weight)
  {
    hide Mul, X;
    CombSquares(k);
    Squared(TABLE_COMB[k], TABLE_COMB[(k + 1) % 15], weight);
  }

  lemma Squared(a: bv16, b: bv16, weight: nat)
    requires a == X(weight) && Mul(a, a) == b
    ensures b == X(2 * weight)
  {
    hide Mul, X;
    XAdd(weight, weight);
  }

  lemma FirstWeight()
    ensures TABLE_COMB[3] == X(8) && X(0) == 0x8000
  {
    hide Step;
    SmallPowers();
  }

  /** x^(8n) modulo p. The table index wraps from 15 to 0, which is sound because squaring
      the last entry gives the first. */
  method X8nModP(n0: nat) returns (xp: bv16)
    ensures xp == X(8 * n0) && xp != 0
  {
    hide Mul, X, Remaining;
    xp := 0x8000;
    var k: nat := 3;
    var n := n0;
    ghost var weight: nat, done: nat := 8, 0;
    FirstWeight();
    Halve(8, n0);
    while true
      invariant 0 <= k < 15
      invariant TABLE_COMB[k] == X(weight)
      invariant xp == X(done) && done + Remaining(weight, n) == 8 * n0
      decreases n
    {
      NextWeight(k, weight);
      Halve(weight, n);
      if n % 2 == 1 {
        xp := MultModP(TABLE_COMB[k], xp);
        XAdd(weight, done);
        done := done + weight;
      }
      n := n / 2;
      weight := 2 * weight;
      if n == 0 {
        Halve(weight, n);
        break;
      }
      ghost var next := (k + 1) % 15;
      k := k + 1;
      if k == 15 {
        k := 0;
      }
      assert k == next;
    }
    XNonzero(8 * n0);
  }

  /** The combination, as polynomial arithmetic. */
  function Comb(crc1: bv16, crc2: bv16, len2: nat): bv16 {
    Xor(Mul(X(8 * len2), crc1), crc2)
  }

  method CrcComb(crc1: bv16, crc2: bv16, len2: nat) returns (r: bv16)
    ensures r == Comb(crc1, crc2, len2)
  {
    hide Step, Xor, Widen, Mul;
    var xp := X8nModP(len2);
    var m := MultModP(xp, crc1);
    r := Xor(m, crc2);
  }

  /** The combination law: the CRC of A followed by B from the two CRCs and the length of
      B alone. */
  lemma CombineLaw(c: bv16, a: seq<bv8>, b: seq<bv8>)
    ensures Crc(c, a + b) == Comb(Crc(c, a), Crc(0, b), |b|)
  {
    hide Step, Xor, Widen, Mul;
    CrcConcat(c, a, b);
    CrcShift(Crc(c, a), b);
    MulX(8 * |b|, Crc(c, a));
  }

  /** Combining is associative: three checksums combine to the same value from either end. */
  lemma CombAssociative(crc1: bv16, crc2: bv16, crc3: bv16, len2: nat, len3: nat)
    ensures Comb(Comb(crc1, crc2, len2), crc3, len3) == Comb(crc1, Comb(crc2, crc3, len3), len2 + len3)
  {
    hide Step, Xor, Widen, Mul;
    var first := Mul(X(8 * len2), crc1);
    MulBilinear(X(8 * len3), first, crc2);
    MulX(8 * len2, crc1);
    MulX(8 * len3, first);
    MulX(8 * (len2 + len3), crc1);
    StepsAdd(crc1, 8 * len2, 8 * len3);
    XorAssoc(Mul(X(8 * len3), first), Mul(X(8 * len3), crc2), crc3);
  }
}
