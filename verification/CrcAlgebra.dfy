/** The arithmetic behind the CRC-16/ARC library: one bit step is multiplication by x
    in GF(2)[x] modulo p = x^16 + x^15 + x^2 + 1, with coefficients stored reflected, so
    that bit 15 holds the constant term and bit 0 the coefficient of x^15.

    The proofs hide the bit-level bodies of `Xor` and `Step` and work from the laws
    proved about them first. */
module CrcAlgebra {

  /** The polynomial 1. */
  const ONE: bv16 := 0x8000

  /** Addition of polynomials. */
  function Xor(a: bv16, b: bv16): bv16 {
    a ^ b
  }

  /** One bit step: multiplication by x. */
  function Step(c: bv16): bv16 {
    if c & 1 != 0 then (c >> 1) ^ 0xa001 else c >> 1
  }

  /** `n` bit steps: multiplication by x^n. */
  function Steps(c: bv16, n: nat): bv16
    decreases n
  {
    if n == 0 then c else Steps(Step(c), n - 1)
  }

  /** x^n modulo p. */
  function X(n: nat): bv16 {
    Steps(ONE, n)
  }

  /** `b` when the leading bit of `a` is set, and zero otherwise. */
  function Lead(a: bv16, b: bv16): bv16 {
    if a & 0x8000 != 0 then b else 0
  }

  function Shl(a: bv16): bv16 {
    a << 1
  }

  /** The first `n` rounds of shift-and-add multiplication, leading bit of `a` first. */
  function MulSteps(a: bv16, b: bv16, n: nat): bv16
    decreases n
  {
    if n == 0 then 0 else Xor(Lead(a, b), MulSteps(Shl(a), Step(b), n - 1))
  }

  /** The product of two polynomials modulo p. */
  function Mul(a: bv16, b: bv16): bv16 {
    MulSteps(a, b, 16)
  }

  // ---- Laws of Xor, and linearity of the primitive operations ----

  lemma XorAssoc(a: bv16, b: bv16, c: bv16)
    ensures Xor(Xor(a, b), c) == Xor(a, Xor(b, c))
  {}

  lemma XorComm(a: bv16, b: bv16)
    ensures Xor(a, b) == Xor(b, a)
  {}

  lemma XorZero(a: bv16)
    ensures Xor(a, 0) == a && Xor(0, a) == a
  {}

  /** (a + b) + (c + d) == (a + c) + (b + d) */
  lemma XorSwap(a: bv16, b: bv16, c: bv16, d: bv16)
    ensures Xor(Xor(a, b), Xor(c, d)) == Xor(Xor(a, c), Xor(b, d))
  {
    hide Xor;
    XorAssoc(a, b, Xor(c, d));
    XorAssoc(b, c, d);
    XorComm(b, c);
    XorAssoc(c, b, d);
    XorAssoc(a, c, Xor(b, d));
  }

  lemma XorSelf(a: bv16)
    ensures Xor(a, a) == 0
  {}

  /** What a bit step adds after the shift. */
  function Tail(c: bv16): bv16 {
    if c & 1 != 0 then 0xa001 else 0
  }

  lemma StepSplit(c: bv16)
    ensures Step(c) == Xor(c >> 1, Tail(c))
  {
    if c & 1 != 0 {} else {}
  }

  lemma TailLinear(c: bv16, d: bv16)
    ensures Tail(Xor(c, d)) == Xor(Tail(c), Tail(d))
  {
    if c & 1 == 0 {
      if d & 1 == 0 {} else {}
    } else {
      if d & 1 == 0 {} else {}
    }
  }

  lemma ShrLinear(c: bv16, d: bv16)
    ensures Xor(c, d) >> 1 == Xor(c >> 1, d >> 1)
  {}

  lemma StepLinear(c: bv16, d: bv16)
    ensures Step(Xor(c, d)) == Xor(Step(c), Step(d))
  {
    hide Step, Xor, Tail;
    StepSplit(c);
    StepSplit(d);
    StepSplit(Xor(c, d));
    TailLinear(c, d);
    ShrLinear(c, d);
    XorSwap(c >> 1, Tail(c), d >> 1, Tail(d));
  }

  lemma LeadLinear(a: bv16, b: bv16, c: bv16)
    ensures Lead(a, Xor(b, c)) == Xor(Lead(a, b), Lead(a, c))
  {}

  lemma LeadLinearLeft(a: bv16, b: bv16, c: bv16)
    ensures Lead(Xor(a, b), c) == Xor(Lead(a, c), Lead(b, c))
  {
    if a & 0x8000 != 0 {
      if b & 0x8000 != 0 {} else {}
    } else {
      if b & 0x8000 != 0 {} else {}
    }
  }

  lemma LeadStep(a: bv16, b: bv16)
    ensures Lead(a, Step(b)) == Step(Lead(a, b))
  {
    if a & 0x8000 != 0 {} else {}
  }

  lemma ShlLinear(a: bv16, b: bv16)
    ensures Shl(Xor(a, b)) == Xor(Shl(a), Shl(b))
  {}

  // ---- Steps is linear, additive in its count, and never loses information ----

  lemma {:induction false} StepsLinear(c: bv16, d: bv16, n: nat)
    ensures Steps(Xor(c, d), n) == Xor(Steps(c, n), Steps(d, n))
    decreases n
  {
    hide Step, Xor;
    if n > 0 {
      StepLinear(c, d);
      StepsLinear(Step(c), Step(d), n - 1);
    }
  }

  lemma {:induction false} StepsAdd(c: bv16, m: nat, n: nat)
    ensures Steps(c, m + n) == Steps(Steps(c, m), n)
    decreases m
  {
    hide Step;
    if m > 0 {
      StepsAdd(Step(c), m - 1, n);
    }
  }

  lemma StepNonzero(c: bv16)
    ensures Step(c) == 0 <==> c == 0
  {}

  lemma {:induction false} StepsNonzero(c: bv16, n: nat)
    ensures Steps(c, n) == 0 <==> c == 0
    decreases n
  {
    hide Step;
    if n > 0 {
      StepNonzero(c);
      StepsNonzero(Step(c), n - 1);
    }
  }

  /** x is a unit modulo p: no power of x is zero. */
  lemma XNonzero(n: nat)
    ensures X(n) != 0
  {
    hide Step;
    StepsNonzero(ONE, n);
  }

  // ---- The product is bilinear, and Step is multiplication by x on either side ----

  lemma {:induction false} MulStepsLinear(a: bv16, b: bv16, c: bv16, n: nat)
    ensures MulSteps(a, Xor(b, c), n) == Xor(MulSteps(a, b, n), MulSteps(a, c, n))
    decreases n
  {
    hide Step, Xor, Lead, Shl;
    if n == 0 {
      XorZero(0);
    } else {
      StepLinear(b, c);
      MulStepsLinear(Shl(a), Step(b), Step(c), n - 1);
      LeadLinear(a, b, c);
      XorSwap(Lead(a, b), Lead(a, c), MulSteps(Shl(a), Step(b), n - 1), MulSteps(Shl(a), Step(c), n - 1));
    }
  }

  lemma {:induction false} MulStepsLinearLeft(a: bv16, b: bv16, c: bv16, n: nat)
    ensures MulSteps(Xor(a, b), c, n) == Xor(MulSteps(a, c, n), MulSteps(b, c, n))
    decreases n
  {
    hide Step, Xor, Lead, Shl;
    if n == 0 {
      XorZero(0);
    } else {
      ShlLinear(a, b);
      MulStepsLinearLeft(Shl(a), Shl(b), Step(c), n - 1);
      LeadLinearLeft(a, b, c);
      XorSwap(Lead(a, c), Lead(b, c), MulSteps(Shl(a), Step(c), n - 1), MulSteps(Shl(b), Step(c), n - 1));
    }
  }

  lemma MulBilinear(a: bv16, b: bv16, c: bv16)
    ensures Mul(a, Xor(b, c)) == Xor(Mul(a, b), Mul(a, c))
    ensures Mul(Xor(a, b), c) == Xor(Mul(a, c), Mul(b, c))
  {
    hide Xor, MulSteps;
    MulStepsLinear(a, b, c, 16);
    MulStepsLinearLeft(a, b, c, 16);
  }

  lemma {:induction false} MulStepsStep(a: bv16, b: bv16, n: nat)
    ensures MulSteps(a, Step(b), n) == Step(MulSteps(a, b, n))
    decreases n
  {
    hide Step, Xor, Lead, Shl;
    if n == 0 {
      StepNonzero(0);
    } else {
      MulStepsStep(Shl(a), Step(b), n - 1);
      LeadStep(a, b);
      StepLinear(Lead(a, b), MulSteps(Shl(a), Step(b), n - 1));
    }
  }

  lemma {:induction false} MulStepsZero(b: bv16, n: nat)
    ensures MulSteps(0, b, n) == 0
    decreases n
  {
    hide Step, Xor;
    if n > 0 {
      MulStepsZero(Step(b), n - 1);
      XorZero(0);
    }
  }

  /** `a` has no set bits left after `n` rounds of the product. */
  predicate Fits(a: bv16, n: nat)
    decreases n
  {
    if n == 0 then a == 0 else Fits(Shl(a), n - 1)
  }

  lemma FitsAll(a: bv16)
    ensures Fits(a, 16)
    ensures a & 1 == 0 ==> Fits(a, 15)
  {
    hide Shl;
    Fits4(a, 12);
    Fits4(a << 4, 8);
    Fits4(a << 8, 4);
    Fits4(a << 12, 0);
    Fits4(a, 11);
    Fits4(a << 4, 7);
    Fits4(a << 8, 3);
    FitsLast3(a << 12);
  }

  lemma Fits4(a: bv16, n: nat)
    ensures Fits(a, n + 4) == Fits(a << 4, n)
  {
    hide Shl;
    Shl4(a);
    assert Fits(a, n + 4) == Fits(Shl(Shl(a)), n + 2) == Fits(Shl(Shl(Shl(Shl(a)))), n);
  }

  lemma FitsLast3(a: bv16)
    ensures Fits(a, 3) == (Shl(Shl(Shl(a))) == 0)
    ensures a & 0x1fff == 0 ==> Fits(a, 3)
  {
    assert Fits(a, 3) == Fits(Shl(Shl(a)), 1);
  }

  lemma Shl4(a: bv16)
    ensures Shl(Shl(Shl(Shl(a)))) == a << 4
  {}

  /** Rounds after the last set bit contribute nothing. */
  lemma {:induction false} MulStepsFits(a: bv16, b: bv16, n: nat, m: nat)
    requires Fits(a, n) && n <= m
    ensures MulSteps(a, b, m) == MulSteps(a, b, n)
    decreases n
  {
    hide Step, Xor, Lead, Shl;
    if n == 0 {
      MulStepsZero(b, m);
    } else {
      MulStepsFits(Shl(a), Step(b), n - 1, m - 1);
    }
  }

  /** Multiplying by 1 on the left. */
  lemma MulStepsOne(b: bv16, n: nat)
    requires n > 0
    ensures MulSteps(ONE, b, n) == b
  {
    hide Step, Xor;
    assert Shl(ONE) == 0 && Lead(ONE, b) == b;
    MulStepsZero(Step(b), n - 1);
    XorZero(b);
  }

}
