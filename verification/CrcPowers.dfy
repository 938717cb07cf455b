/** Powers of x modulo p: multiplying by X(n) is taking n bit steps, and the repeated
    squares of x come back to x after fifteen squarings. */
module CrcPowers {
  import opened CrcAlgebra

  // ---- Four steps, and four rounds of the product, at a time ----

  lemma Steps2(c: bv16)
    ensures Steps(c, 2) == Step(Step(c))
  {
    hide Step;
  }

  lemma Steps4(c: bv16)
    ensures Steps(c, 4) == Step(Step(Step(Step(c))))
  {
    hide Step;
    Steps2(c);
    Steps2(Step(Step(c)));
    StepsAdd(c, 2, 2);
  }

  /** The first powers of x are single bits; x^16 is the polynomial's tail. */
  lemma SmallPowers()
    ensures X(4) == 0x0800 && X(8) == 0x0080 && X(12) == 0x0008 && X(15) == 1 && X(16) == 0xa001
  {
    hide Step;
    assert Steps(ONE, 4) == 0x0800 by { Steps4(ONE); Literal4(); }
    assert Steps(0x0800, 4) == 0x0080 by { Steps4(0x0800); Literal4(); }
    assert Steps(0x0080, 4) == 0x0008 by { Steps4(0x0080); Literal4(); }
    StepsAdd(ONE, 4, 4);
    StepsAdd(ONE, 8, 4);
    StepsAdd(ONE, 12, 3);
    StepsAdd(ONE, 15, 1);
    assert Steps(8, 3) == 1 by { Literal3(); StepsAdd(8, 1, 2); Steps2(Step(8)); }
    assert Steps(1, 1) == 0xa001 by { Literal3(); }
  }

  lemma Literal4()
    ensures Step(Step(Step(Step(ONE)))) == 0x0800
    ensures Step(Step(Step(Step(0x0800)))) == 0x0080
    ensures Step(Step(Step(Step(0x0080)))) == 0x0008
  {}

  lemma Literal3()
    ensures Step(Step(Step(8))) == 1 && Step(1) == 0xa001
  {}

  // ---- p(x) == 0: sixteen steps are fifteen steps plus two steps plus none ----

  /** p evaluated at the step operator. */
  function P(b: bv16): bv16 {
    Xor(Steps(b, 16), Xor(Steps(b, 15), Xor(Steps(b, 2), b)))
  }

  lemma PLinear(a: bv16, b: bv16)
    ensures P(Xor(a, b)) == Xor(P(a), P(b))
  {
    hide Step, Xor;
    StepsLinear(a, b, 16);
    StepsLinear(a, b, 15);
    StepsLinear(a, b, 2);
    XorSwap(Steps(a, 2), Steps(b, 2), a, b);
    XorSwap(Steps(a, 15), Steps(b, 15), Xor(Steps(a, 2), a), Xor(Steps(b, 2), b));
    XorSwap(Steps(a, 16), Steps(b, 16),
            Xor(Steps(a, 15), Xor(Steps(a, 2), a)), Xor(Steps(b, 15), Xor(Steps(b, 2), b)));
  }

  lemma StepsCommute(b: bv16, n: nat)
    ensures Steps(Step(b), n) == Step(Steps(b, n))
  {
    hide Step;
    StepsAdd(b, n, 1);
    assert Steps(Steps(b, n), 1) == Step(Steps(b, n));
  }

  lemma PStep(b: bv16)
    ensures P(Step(b)) == Step(P(b))
  {
    hide Step, Xor;
    StepsCommute(b, 16);
    StepsCommute(b, 15);
    StepsCommute(b, 2);
    StepLinear(Steps(b, 2), b);
    StepLinear(Steps(b, 15), Xor(Steps(b, 2), b));
    StepLinear(Steps(b, 16), Xor(Steps(b, 15), Xor(Steps(b, 2), b)));
  }

  lemma POne()
    ensures P(ONE) == 0
  {
    hide Step;
    SmallPowers();
    assert Steps(ONE, 2) == 0x2000 by { Steps2(ONE); assert Step(ONE) == 0x4000 && Step(0x4000) == 0x2000 by { LiteralX2(); } }
  }

  lemma LiteralX2()
    ensures Step(ONE) == 0x4000 && Step(0x4000) == 0x2000
  {}

  /** Every polynomial is its constant term plus x times a lower one. */
  lemma Peel(b: bv16)
    ensures b == Xor(Lead(b, ONE), Step(Shl(b)))
  {
    hide Step, Xor;
    assert Step(Shl(b)) == b & 0x7fff by { StepShl(b); }
    PeelBits(b);
  }

  lemma StepShl(b: bv16)
    ensures Step(Shl(b)) == b & 0x7fff
  {
    assert Shl(b) & 1 == 0;
  }

  lemma PeelBits(b: bv16)
    ensures b == Xor(Lead(b, ONE), b & 0x7fff)
  {
    assert b == (b & 0x8000) ^ (b & 0x7fff);
    assert Lead(b, ONE) == b & 0x8000 by {
      assert b & 0x8000 == 0 || b & 0x8000 == 0x8000;
    }
  }

  lemma {:induction false} PZero(b: bv16, n: nat)
    requires Fits(b, n)
    ensures P(b) == 0
    decreases n
  {
    hide Step, Xor, Lead, Shl, P;
    if n == 0 {
      PAtZero();
    } else {
      PZero(Shl(b), n - 1);
      PStep(Shl(b));
      StepNonzero(0);
      Peel(b);
      PLinear(Lead(b, ONE), Step(Shl(b)));
      assert P(Lead(b, ONE)) == 0 by {
        assert Lead(b, ONE) == ONE || Lead(b, ONE) == 0 by { LeadCases(b, ONE); }
        POne();
        PAtZero();
      }
      XorZero(0);
    }
  }

  lemma PAtZero()
    ensures P(0) == 0
  {
    hide Step, Xor;
    StepsNonzero(0, 16);
    StepsNonzero(0, 15);
    StepsNonzero(0, 2);
    XorZero(0);
  }

  lemma LeadCases(a: bv16, b: bv16)
    ensures Lead(a, b) == b || Lead(a, b) == 0
  {}

  // ---- Multiplying by x on the left ----

  lemma MulMonomials(b: bv16)
    ensures Mul(ONE, b) == b
    ensures MulSteps(0x2000, b, 16) == Steps(b, 2)
    ensures MulSteps(0x0001, b, 16) == Steps(b, 15)
  {
    hide Step, Xor;
    MulStepsOne(b, 16);
    MulMonomial2(b);
    MulMonomial15(b);
  }

  lemma MulMonomial2(b: bv16)
    ensures MulSteps(0x2000, b, 16) == Steps(b, 2)
  {
    hide Step, Xor;
    MulStepsSkip(0x2000, b, 15);
    MulStepsSkip(0x4000, Step(b), 14);
    MulStepsOne(Step(Step(b)), 14);
    Steps2(b);
  }

  lemma MulMonomial15(b: bv16)
    ensures MulSteps(1, b, 16) == Steps(b, 15)
  {
    hide Step, Xor;
    MulStepsSkip4(0x0001, b, 12);
    MulStepsSkip4(0x0010, Steps(b, 4), 8);
    MulStepsSkip4(0x0100, Steps(b, 8), 4);
    StepsAdd(b, 4, 4);
    StepsAdd(b, 8, 4);
    StepsAdd(b, 12, 2);
    StepsAdd(b, 14, 1);
    MulStepsSkip(0x1000, Steps(b, 12), 3);
    MulStepsSkip(0x2000, Step(Steps(b, 12)), 2);
    MulStepsSkip(0x4000, Step(Step(Steps(b, 12))), 1);
    MulStepsOne(Step(Step(Step(Steps(b, 12)))), 1);
    Steps2(Steps(b, 12));
    assert Steps(Steps(b, 14), 1) == Step(Steps(b, 14));
  }

  lemma MulStepsSkip(a: bv16, b: bv16, n: nat)
    requires a & 0x8000 == 0
    ensures MulSteps(a, b, n + 1) == MulSteps(a << 1, Step(b), n)
  {
    hide Step, Xor;
    XorZero(MulSteps(Shl(a), Step(b), n));
  }

  lemma MulStepsSkip4(a: bv16, b: bv16, n: nat)
    requires a & 0xf000 == 0
    ensures MulSteps(a, b, n + 4) == MulSteps(a << 4, Steps(b, 4), n)
  {
    hide Step, Xor;
    MulStepsSkip(a, b, n + 3);
    MulStepsSkip(a << 1, Step(b), n + 2);
    MulStepsSkip(a << 2, Step(Step(b)), n + 1);
    MulStepsSkip(a << 3, Step(Step(Step(b))), n);
    Steps4(b);
  }

  /** p(x) == 0 seen through the product. */
  lemma MulPoly(b: bv16)
    ensures Mul(0xa001, b) == Steps(b, 16)
  {
    hide Step, Xor, Lead, Shl;
    assert 0xa001 == Xor(ONE, Xor(0x2000, 0x0001)) by { PolyTerms(); }
    MulStepsLinearLeft(ONE, Xor(0x2000, 0x0001), b, 16);
    MulStepsLinearLeft(0x2000, 0x0001, b, 16);
    MulMonomials(b);
    FitsAll(b);
    PZero(b, 16);
    XorCancel(Steps(b, 16), Steps(b, 15), Steps(b, 2), b);
  }

  lemma PolyTerms()
    ensures 0xa001 == Xor(ONE, Xor(0x2000, 0x0001))
  {}

  lemma XorCancel(s: bv16, t: bv16, u: bv16, v: bv16)
    requires Xor(s, Xor(t, Xor(u, v))) == 0
    ensures s == Xor(v, Xor(u, t))
  {
    hide Xor;
    var r := Xor(t, Xor(u, v));
    XorAssoc(s, r, r);
    XorSelf(r);
    XorZero(s);
    XorZero(r);
    XorComm(t, Xor(u, v));
    XorComm(u, v);
    XorAssoc(v, u, t);
  }

  lemma MulByX(a: bv16, b: bv16)
    ensures Mul(Step(a), b) == Step(Mul(a, b))
  {
    hide Step, Xor, Lead, Shl;
    var e, o := a & 0xfffe, a & 1;
    assert a == Xor(e, o) by { Parity(a); }
    StepLinear(e, o);
    MulStepsLinearLeft(e, o, b, 16);
    MulStepsLinearLeft(Step(e), Step(o), b, 16);
    StepLinear(Mul(e, b), Mul(o, b));
    MulByXEven(e, b);
    MulByXUnit(o, b);
  }

  lemma Parity(a: bv16)
    ensures a == Xor(a & 0xfffe, a & 1)
    ensures (a & 0xfffe) & 1 == 0
  {}

  lemma MulByXEven(e: bv16, b: bv16)
    requires e & 1 == 0
    ensures Mul(Step(e), b) == Step(Mul(e, b))
  {
    hide Step, Xor, Lead, Shl;
    assert Shl(Step(e)) == e && Step(e) & 0x8000 == 0 by { StepEven(e); }
    MulStepsSkip(Step(e), b, 15);
    assert Step(e) << 1 == e by { StepEven(e); }
    FitsAll(e);
    MulStepsFits(e, Step(b), 15, 16);
    MulStepsStep(e, b, 16);
  }

  lemma StepEven(e: bv16)
    requires e & 1 == 0
    ensures Shl(Step(e)) == e && Step(e) << 1 == e && Step(e) & 0x8000 == 0
  {}

  lemma MulByXUnit(o: bv16, b: bv16)
    requires o <= 1
    ensures Mul(Step(o), b) == Step(Mul(o, b))
  {
    hide Step, Xor, Lead, Shl;
    if o == 0 {
      StepNonzero(0);
      MulStepsZero(b, 16);
    } else {
      assert o == 1;
      assert Step(1) == 0xa001 by { Literal3(); }
      MulPoly(b);
      MulMonomials(b);
      StepsAdd(b, 15, 1);
      assert Steps(Steps(b, 15), 1) == Step(Steps(b, 15));
    }
  }

  /** Multiplication by x^n is n bit steps. */
  lemma {:induction false} MulX(n: nat, c: bv16)
    ensures Mul(X(n), c) == Steps(c, n)
  {
    hide Step, Xor, Lead, Shl;
    if n == 0 {
      MulMonomials(c);
    } else {
      MulX(n - 1, c);
      MulByX(X(n - 1), c);
      StepsAdd(ONE, n - 1, 1);
      StepsAdd(c, n - 1, 1);
      assert Steps(X(n - 1), 1) == Step(X(n - 1));
      assert Steps(Steps(c, n - 1), 1) == Step(Steps(c, n - 1));
    }
  }

  lemma XAdd(m: nat, n: nat)
    ensures Mul(X(m), X(n)) == X(m + n)
  {
    hide Step, Xor, Lead, Shl;
    MulX(m, X(n));
    StepsAdd(ONE, n, m);
  }
}
