/** What the barrel shifter computes: products and quotients by powers of two, rotations, and
    the last bit shifted out. */
module ArmShifts {
  import opened ArmState
  import opened ArmWords
  import opened ArmOperands
  import opened ArmBits
  import opened ArmTransfer

  const M := 0x1_0000_0000

  lemma {:induction false} PowerSum(m: nat, n: nat)
    ensures Power(m + n) == Power(m) * Power(n)
  {
    if m > 0 {
      PowerSum(m - 1, n);
    }
  }

  lemma PowerWord()
    ensures Power(32) == M && Power(31) == M / 2
  {
    assert Power(8) == 0x100;
    PowerSum(8, 8);
    PowerSum(16, 8);
    PowerSum(24, 7);
    assert Power(7) == 0x80;
  }

  // ---- Division ----

  lemma Divided(x: int, p: int)
    requires p > 0
    ensures x == p * (x / p) + x % p && 0 <= x % p < p
  {}

  lemma Distribute(p: int, a: int, b: int)
    ensures p * (a - b) == p * a - p * b
  {}

  lemma Times(p: int, k: int)
    requires p > 0
    ensures k >= 1 ==> p * k >= p
    ensures k <= -1 ==> p * k <= -p
  {
    if k >= 1 {
      assert p * k == p * (k - 1) + p;
    } else if k <= -1 {
      assert p * k == p * (k + 1) - p;
    }
  }

  lemma DivUnique(x: int, p: int, q: int, r: int)
    requires p > 0 && x == p * q + r && 0 <= r < p
    ensures x / p == q && x % p == r
  {
    var q1 := x / p;
    assert x == p * q1 + x % p;
    Distribute(p, q1, q);
    Times(p, q1 - q);
  }

  lemma QuotientLess(x: int, p: int)
    requires p > 0 && x >= 0
    ensures 0 <= x / p <= x
  {
    var q := x / p;
    assert x == p * q + x % p;
    Distribute(p, q, x);
    Times(p, q - x);
    Times(p, q);
  }

  /** Dividing twice. */
  lemma DivDiv(x: int, p: nat)
    requires p > 0
    ensures x / p / 2 == x / (2 * p)
  {
    var q, r := x / p, x % p;
    DivUnique(x, 2 * p, q / 2, q % 2 * p + r);
  }

  /** Doubling a remainder. */
  lemma DoubleMod(x: nat, p: nat)
    ensures 2 * (x * p % M) % M == x * (2 * p) % M
  {
    assert x * (2 * p) == 2 * (x * p);
    TwiceMod(x * p);
  }

  lemma TwiceMod(y: nat)
    ensures 2 * (y % M) % M == 2 * y % M
  {
    Divided(y, M);
    Divided(2 * (y % M), M);
    DivUnique(2 * y, M, 2 * (y / M) + 2 * (y % M) / M, 2 * (y % M) % M);
  }

  /** Rounding a negative quotient down. */
  lemma DivNegative(k: int, p: int)
    requires p > 0
    ensures (-k - 1) / p == -1 - k / p
  {
    var q := k / p;
    assert k == p * q + k % p;
    assert p * (-1 - q) == -p - p * q;
    DivUnique(-k - 1, p, -1 - q, p - 1 - k % p);
  }

  // ---- The shifts by less than 32 ----

  lemma {:induction false} LslNat(w: word, n: nat)
    requires n < 32
    ensures Nat(Lsl(w, n)) == Nat(w) * Power(n) % M
  {
    hide Nat, Lsl, Twice;
    if n == 0 {
      NoShift(w);
    } else {
      LslNat(w, n - 1);
      LslNext(w, n - 1);
      TwiceNat(Lsl(w, n - 1));
      DoubleMod(Nat(w), Power(n - 1));
    }
  }

  lemma {:induction false} LsrNat(w: word, n: nat)
    requires n < 32
    ensures Nat(Lsr(w, n)) == Nat(w) / Power(n)
  {
    hide Nat, Lsr, Half;
    if n == 0 {
      NoShift(w);
    } else {
      LsrNat(w, n - 1);
      LsrNext(w, n - 1);
      HalfNat(Lsr(w, n - 1));
      DivDiv(Nat(w), Power(n - 1));
    }
  }

  lemma BitNat(w: word, n: nat)
    requires n < 32
    ensures BitOf(w, n) <==> Nat(w) / Power(n) % 2 == 1
  {
    hide Nat, Lsr, BitOf, Odd, Half;
    BitIsOdd(w, n);
    HalfNat(Lsr(w, n));
    LsrNat(w, n);
  }

  lemma SignBit(w: word)
    ensures BitOf(w, 31) <==> Nat(w) >= 0x8000_0000
  {
    hide Nat, BitOf;
    BitNat(w, 31);
    PowerWord();
  }

  lemma AsrIs(w: word, n: nat)
    requires n < 32
    ensures Asr(w, n) == if BitOf(w, 31) then Not(Lsr(Not(w), n)) else Lsr(w, n)
  {
    hide BitOf, Lsr;
  }

  lemma AsrInt(w: word, n: nat)
    requires n < 32
    ensures Int(Asr(w, n)) == Int(w) / Power(n)
  {
    hide Nat, BitOf, Lsr, Asr, Not;
    SignBit(w);
    AsrIs(w, n);
    if Nat(w) >= 0x8000_0000 {
      var k := Nat(Not(w));
      NotNat(w);
      LsrNat(Not(w), n);
      NotNat(Lsr(Not(w), n));
      DivNegative(k, Power(n));
      QuotientLess(k, Power(n));
    } else {
      LsrNat(w, n);
      QuotientLess(Nat(w), Power(n));
    }
  }

  lemma RorNat(w: word, n: nat)
    requires 0 < n < 32
    ensures Nat(Ror(w, n)) == Nat(w) / Power(n) + Nat(w) % Power(n) * Power(32 - n)
  {
    hide Nat, Lsl, Lsr, Ror, Or, Apart;
    RorIs(w, n);
    RorApart(w, n);
    OrNat(Lsl(w, 32 - n), Lsr(w, n));
    LslNat(w, 32 - n);
    LsrNat(w, n);
    HighPart(Nat(w), n);
  }

  lemma RorIs(w: word, n: nat)
    requires 0 < n < 32
    ensures Ror(w, n) == Or(Lsl(w, 32 - n), Lsr(w, n))
  {
    hide Lsl, Lsr;
  }

  function Left(w: word, n: bv5): word {
    w << n
  }

  function Right(w: word, n: bv5): word {
    w >> n
  }

  lemma ByAmount(w: word, n: nat)
    requires n < 32
    ensures Lsl(w, n) == Left(w, Amount(n)) && Lsr(w, n) == Right(w, Amount(n))
  {
    hide Amount;
  }

  lemma RorApart(w: word, n: nat)
    requires 0 < n < 32
    ensures Apart(Lsl(w, 32 - n), Lsr(w, n))
  {
    hide Amount, Apart, Lsl, Lsr, Left, Right;
    AmountIs(n);
    AmountIs(32 - n);
    ByAmount(w, n);
    ByAmount(w, 32 - n);
    Opposed(w, Amount(n), Amount(32 - n));
  }

  lemma Opposed(w: word, a: bv5, b: bv5)
    requires a as nat + b as nat == 32
    ensures Apart(Left(w, b), Right(w, a))
  {
    Opposite(a, b);
    BitsApart(w, a);
  }

  lemma Opposite(a: bv5, b: bv5)
    requires a as nat + b as nat == 32
    ensures b == 0 - a && a != 0
  {}

  lemma BitsApart(w: word, a: bv5)
    requires a != 0
    ensures Apart(Left(w, 0 - a), Right(w, a))
  {}

  /** Shifting left to the top keeps the low part. */
  lemma HighPart(x: nat, n: nat)
    requires n <= 32
    ensures x * Power(32 - n) % M == x % Power(n) * Power(32 - n)
  {
    hide Power;
    var p, r := Power(n), Power(32 - n);
    PowerWord();
    PowerSum(n, 32 - n);
    assert x == p * (x / p) + x % p;
    Scaled(x, p, r, x / p, x % p);
    DivUnique(x * r, M, x / p, x % p * r);
  }

  lemma Scaled(x: int, p: int, r: int, q: int, low: int)
    requires x == p * q + low && 0 <= low < p && r > 0
    ensures x * r == (p * r) * q + low * r && 0 <= low * r < p * r
  {
    assert x * r == p * q * r + low * r;
    assert p * q * r == (p * r) * q;
    Distribute(r, p, low);
    Times(r, p - low);
  }

  lemma RrxNat(w: word, c: bool)
    ensures Nat(Rrx(w, c)) == Nat(w) / 2 + if c then 0x8000_0000 else 0
  {
    hide Nat, Or, Apart, Half, Rrx;
    var top := if c then 0x8000_0000 else 0;
    RrxIs(w, c, top);
    OrNat(Half(w), top);
    HalfNat(w);
    TopWord();
  }

  lemma RrxIs(w: word, c: bool, top: word)
    requires top == if c then 0x8000_0000 else 0
    ensures Rrx(w, c) == Or(Half(w), top) && Apart(Half(w), top)
  {}

  lemma TopWord()
    ensures Nat(0x8000_0000) == 0x8000_0000 && Nat(0) == 0
  {}

  // ---- The shifter ----

  /** A rotation right of a 32-bit value, by any number of places. */
  function Rotated(x: int, n: nat): int {
    x / Power(n % 32) + x % Power(n % 32) * Power(32 - n % 32)
  }

  /** What shifting `w` by `n` places means, for LSL, LSR, ASR and ROR: a product modulo 2^32, a
      quotient of the unsigned or of the signed value, rounded down, or a rotation. */
  ghost predicate Shifts(kind: nat, w: word, n: nat, r: word) {
    if kind == 0 then Nat(r) == Nat(w) * Power(n) % M
    else if kind == 1 then Nat(r) == Nat(w) / Power(n)
    else if kind == 2 then Int(r) == Int(w) / Power(n)
    else Nat(r) == Rotated(Nat(w), n)
  }

  /** A shift by a register is that operation for every amount, 32 and more included. */
  lemma ShiftByRegMeans(kind: nat, w: word, n: nat)
    ensures Shifts(kind, w, n, ShiftByReg(kind, w, n))
  {
    hide Nat, Int, Lsl, Lsr, Asr, Ror;
    if kind == 0 {
      LeftMeans(w, n);
    } else if kind == 1 {
      RightMeans(w, n);
    } else if kind == 2 {
      SignedMeans(w, n);
    } else {
      RotateMeans(w, n);
    }
  }

  lemma LeftMeans(w: word, n: nat)
    ensures Nat(ShiftByReg(0, w, n)) == Nat(w) * Power(n) % M
  {
    hide Nat, Lsl;
    if n == 0 {
    } else if n < 32 {
      LslNat(w, n);
    } else {
      PowerWord();
      PowerSum(32, n - 32);
      Multiple(Nat(w), Power(n - 32));
      TopWord();
    }
  }

  lemma Multiple(x: int, p: int)
    ensures x * (M * p) % M == 0
  {
    assert x * (M * p) == M * (x * p);
    DivUnique(x * (M * p), M, x * p, 0);
  }

  lemma RightMeans(w: word, n: nat)
    ensures Nat(ShiftByReg(1, w, n)) == Nat(w) / Power(n)
  {
    hide Nat, Lsr;
    if n == 0 {
    } else if n < 32 {
      LsrNat(w, n);
    } else {
      BigPower(n);
      TopWord();
      DivUnique(Nat(w), Power(n), 0, Nat(w));
    }
  }

  lemma BigPower(n: nat)
    requires n >= 32
    ensures Power(n) >= M
  {
    PowerWord();
    PowerSum(32, n - 32);
    Times(M, Power(n - 32));
  }

  lemma SignedMeans(w: word, n: nat)
    ensures Int(ShiftByReg(2, w, n)) == Int(w) / Power(n)
  {
    hide Nat, Asr;
    if n == 0 {
    } else if n < 32 {
      AsrInt(w, n);
    } else {
      AsrInt(w, 31);
      PowerWord();
      BigPower(n);
      SmallQuotient(Int(w), Power(31));
      SmallQuotient(Int(w), Power(n));
    }
  }

  lemma SmallQuotient(x: int, p: int)
    requires p > 0 && -p <= x < p
    ensures x / p == if x < 0 then -1 else 0
  {
    if x < 0 {
      DivUnique(x, p, -1, x + p);
    } else {
      DivUnique(x, p, 0, x);
    }
  }

  lemma RotateMeans(w: word, n: nat)
    ensures Nat(ShiftByReg(3, w, n)) == Rotated(Nat(w), n)
  {
    hide Nat, Ror;
    if n % 32 > 0 {
      RorNat(w, n % 32);
    }
  }

  // ---- The carry out ----

  /** The last bit a shift by `n > 0` places moves out of the word; for a rotation, which keeps
      it, the top bit of the result. */
  ghost predicate LastOut(kind: nat, w: word, n: nat)
    requires n > 0
  {
    if kind == 0 then Nat(w) * Power(n) / M % 2 == 1
    else if kind == 1 then Nat(w) / Power(n - 1) % 2 == 1
    else if kind == 2 then Int(w) / Power(n - 1) % 2 == 1
    else Rotated(Nat(w), n) >= 0x8000_0000
  }

  /** The carry of a shift by a register is the last bit shifted out, and by nothing the old
      carry. */
  lemma CarryByRegMeans(kind: nat, w: word, n: nat, c: bool)
    ensures CarryByReg(kind, w, n, c) <==> if n == 0 then c else LastOut(kind, w, n)
  {
    hide Nat, Int, BitOf, Rotated;
    if n == 0 {
    } else if kind == 0 {
      LeftOut(w, n);
    } else if kind == 1 {
      RightOut(w, n);
    } else if kind == 2 {
      SignedOut(w, n);
    } else {
      RotatedOut(w, n);
    }
  }

  lemma LeftOut(w: word, n: nat)
    requires n > 0
    ensures Nat(w) * Power(n) / M % 2 == 1 <==> n <= 32 && BitOf(w, 32 - n)
  {
    hide Nat, BitOf, Power;
    if n <= 32 {
      BitNat(w, 32 - n);
      LeftPart(Nat(w), n);
    } else {
      LeftGone(Nat(w), n);
    }
  }

  lemma LeftPart(x: nat, n: nat)
    requires n <= 32
    ensures x * Power(n) / M == x / Power(32 - n)
  {
    hide Power;
    var p, r := Power(32 - n), Power(n);
    PowerWord();
    PowerSum(32 - n, n);
    assert x == p * (x / p) + x % p;
    Scaled(x, p, r, x / p, x % p);
    DivUnique(x * r, M, x / p, x % p * r);
  }

  lemma LeftGone(x: nat, n: nat)
    requires n > 32
    ensures x * Power(n) / M % 2 == 0
  {
    hide Power;
    var p := Power(n - 33);
    PowerWord();
    PowerNext(32);
    PowerSum(33, n - 33);
    Regroup(x, p);
    DivUnique(x * Power(n), M, 2 * (x * p), 0);
  }

  lemma PowerNext(k: nat)
    ensures Power(k + 1) == 2 * Power(k)
  {}

  lemma Regroup(x: int, p: int)
    ensures x * (2 * M * p) == M * (2 * (x * p))
  {}

  lemma RightOut(w: word, n: nat)
    requires n > 0
    ensures Nat(w) / Power(n - 1) % 2 == 1 <==> n <= 32 && BitOf(w, n - 1)
  {
    hide Nat, BitOf, Power;
    if n <= 32 {
      BitNat(w, n - 1);
    } else {
      BigPower(n - 1);
      SmallQuotient(Nat(w), Power(n - 1));
    }
  }

  lemma SignedOut(w: word, n: nat)
    requires n > 0
    ensures Int(w) / Power(n - 1) % 2 == 1 <==> BitOf(w, if n >= 32 then 31 else n - 1)
  {
    hide Nat, BitOf, Power;
    if n <= 32 {
      BitNat(w, n - 1);
      Wrapped(Nat(w), n - 1);
    } else {
      SignBit(w);
      BigPower(n - 1);
      SmallQuotient(Int(w), Power(n - 1));
    }
  }

  /** Taking 2^32 away changes no bit below the 32nd. */
  lemma Wrapped(x: nat, k: nat)
    requires k < 32
    ensures (x - M) / Power(k) % 2 == x / Power(k) % 2
  {
    hide Power;
    var p, r := Power(k), Power(31 - k);
    PowerWord();
    PowerSum(k, 31 - k);
    Divided(x, p);
    Lowered(x, p, r, x / p, x % p);
  }

  lemma Lowered(x: int, p: int, r: int, q: int, low: int)
    requires p > 0 && p * r == M / 2 && x == p * q + low && 0 <= low < p
    ensures (x - M) / p == q - 2 * r && (q - 2 * r) % 2 == q % 2
  {
    Distribute(p, q, 2 * r);
    assert p * (2 * r) == 2 * (p * r);
    DivUnique(x - M, p, q - 2 * r, low);
  }

  lemma RotatedOut(w: word, n: nat)
    requires n > 0
    ensures Rotated(Nat(w), n) >= 0x8000_0000 <==> BitOf(w, if n % 32 == 0 then 31 else n % 32 - 1)
  {
    hide Nat, BitOf;
    var k := n % 32;
    if k == 0 {
      SignBit(w);
    } else {
      BitNat(w, k - 1);
      TopHalf(Nat(w), k);
    }
  }

  lemma TopHalf(x: nat, k: nat)
    requires 0 < k < 32 && x < M
    ensures x / Power(k) + x % Power(k) * Power(32 - k) >= 0x8000_0000 <==> x / Power(k - 1) % 2 == 1
  {
    hide Power;
    var h, r := Power(k - 1), Power(32 - k);
    PowerWord();
    PowerNext(k - 1);
    PowerSum(k - 1, 32 - k);
    Divided(x, 2 * h);
    Halves(x, h, r, x / (2 * h), x % (2 * h));
  }

  lemma Halves(x: int, h: int, r: int, q: int, low: int)
    requires h > 0 && 0 <= x < M && h * r == M / 2
    requires x == 2 * h * q + low && 0 <= low < 2 * h
    ensures q + low * r >= M / 2 <==> x / h % 2 == 1
  {
    assert 2 * h * r == 2 * (h * r);
    assert h * (2 * q) == 2 * h * q;
    DivUnique(x, 2 * h, q, low);
    QuotientBelow(x, 2 * h, r);
    HalfUp(x, h, r, q, low);
  }

  lemma QuotientBelow(x: int, p: int, r: int)
    requires p > 0 && 0 <= x < p * r
    ensures 0 <= x / p < r
  {
    var q := x / p;
    assert x == p * q + x % p;
    Distribute(p, q, r);
    Times(p, q - r);
    Times(p, q);
  }

  lemma HalfUp(x: int, h: int, r: int, q: int, low: int)
    requires 0 <= q < r && 0 <= low < 2 * h && h * r == M / 2 && x == h * (2 * q) + low
    ensures q + low * r >= M / 2 <==> x / h % 2 == 1
  {
    if low >= h {
      AtLeast(r, low, h);
      assert h * (2 * q + 1) == h * (2 * q) + h;
      DivUnique(x, h, 2 * q + 1, low - h);
    } else {
      AtLeast(r, h, low + 1);
      assert (low + 1) * r == low * r + r;
      DivUnique(x, h, 2 * q, low);
    }
  }

  lemma AtLeast(r: int, a: int, b: int)
    requires r > 0 && a >= b
    ensures a * r >= b * r
  {
    assert (a - b) * r == a * r - b * r;
  }

  // ---- Shifts by a constant ----

  /** Places a shift by a constant shifts by: right shifts have zero stand for 32. */
  function Places(kind: nat, n: nat): nat {
    if n == 0 && (kind == 1 || kind == 2) then 32 else n
  }

  /** ROR by zero is rotation by one place through the carry. */
  predicate IsRrx(kind: nat, n: nat) {
    kind > 2 && n == 0
  }

  lemma ShiftByConstMeans(kind: nat, w: word, n: nat, c: bool)
    requires n < 32
    ensures var r := ShiftByConst(kind, w, n, c);
            if IsRrx(kind, n) then Nat(r) == Nat(w) / 2 + if c then 0x8000_0000 else 0
            else Shifts(kind, w, Places(kind, n), r)
  {
    hide Nat, Int, Rrx, Shifts;
    if IsRrx(kind, n) {
      RrxNat(w, c);
    } else {
      ShiftByRegMeans(kind, w, Places(kind, n));
      SameShift(kind, w, n, c);
    }
  }

  lemma SameShift(kind: nat, w: word, n: nat, c: bool)
    requires n < 32 && !IsRrx(kind, n)
    ensures ShiftByConst(kind, w, n, c) == ShiftByReg(kind, w, Places(kind, n))
  {
    hide Lsl, Lsr, Asr, Ror;
    NoShift(w);
  }

  lemma CarryByConstMeans(kind: nat, w: word, n: nat)
    requires n < 32 && (kind == 0 ==> n > 0)
    ensures CarryByConst(kind, w, n) <==>
              if IsRrx(kind, n) then Nat(w) % 2 == 1 else LastOut(kind, w, Places(kind, n))
  {
    hide Nat, Int, BitOf, LastOut;
    if IsRrx(kind, n) {
      BitNat(w, 0);
      assert Power(0) == 1;
    } else {
      CarryByRegMeans(kind, w, Places(kind, n), false);
    }
  }

  /** An immediate operand is an octet rotated right by an even number of places. */
  lemma ImmediateMeans(instr: word)
    ensures Nat(Immediate(instr)) == Rotated(Nat(Low8(instr)), 2 * Field(instr, 8))
  {
    hide Nat, Ror, Low8;
    var n := 2 * Field(instr, 8);
    RotateMeans(Low8(instr), n);
  }
}
