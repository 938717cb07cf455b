/** Bitwise AND on natural numbers, and masks of the form 2^k - 1. */
module BitMask {

  function And(a: nat, b: nat): nat {
    if a == 0 || b == 0 then 0 else (a % 2) * (b % 2) + 2 * And(a / 2, b / 2)
  }

  predicate Pow2(n: nat) {
    n == 1 || (n > 1 && n % 2 == 0 && Pow2(n / 2))
  }

  /** A mask of one bit more than m's. */
  lemma MaskStep(h: nat, m: nat)
    requires m > 0
    ensures And(h, 2 * m - 1) == h % 2 + 2 * And(h / 2, m - 1)
  {
    assert (2 * m - 1) % 2 == 1 && (2 * m - 1) / 2 == m - 1;
    assert (h % 2) * 1 == h % 2;
    if h == 0 {
      assert And(0, m - 1) == 0;
    }
  }

  /** Doubling the number of buckets either keeps an element's bucket or moves it up by
      the old number of buckets. */
  lemma {:induction false} MaskDouble(h: nat, n: nat)
    requires Pow2(n)
    ensures And(h, n - 1) < n
    ensures And(h, 2 * n - 1) == And(h, n - 1) || And(h, 2 * n - 1) == And(h, n - 1) + n
    decreases n
  {
    MaskStep(h, n);
    if n == 1 {
      assert And(h, 0) == 0 && And(h / 2, 0) == 0;
    } else {
      MaskDouble(h / 2, n / 2);
      MaskStep(h, n / 2);
    }
  }
}
