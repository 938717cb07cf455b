/** Words bit by bit, and what shifting, complementing and joining them does to the integers they
    stand for. */
module ArmBits {
  import opened ArmState
  import opened ArmWords
  import opened ArmOperands

  // ---- One place at a time ----

  lemma AmountNext(n: nat)
    requires n < 31
    ensures Amount(n) < 31 && Amount(n + 1) == Amount(n) + 1
  {
    AmountIs(n);
    AmountIs(n + 1);
  }

  lemma AmountIs(n: nat)
    requires n < 32
    ensures Amount(n) as nat == n
  {}

  lemma NoShift(w: word)
    ensures Lsl(w, 0) == w && Lsr(w, 0) == w
  {}

  lemma LslNext(w: word, n: nat)
    requires n < 31
    ensures Lsl(w, n + 1) == Twice(Lsl(w, n))
  {
    hide Amount;
    AmountNext(n);
    LeftNext(w, Amount(n));
  }

  lemma LeftNext(w: word, n: bv5)
    requires n < 31
    ensures w << (n + 1) == (w << n) << 1
  {
    if n & 1 == 0 {} else if n & 2 == 0 {} else if n & 4 == 0 {} else if n & 8 == 0 {} else {}
  }

  lemma LsrNext(w: word, n: nat)
    requires n < 31
    ensures Lsr(w, n + 1) == Half(Lsr(w, n))
  {
    hide Amount;
    AmountNext(n);
    RightNext(w, Amount(n));
  }

  lemma RightNext(w: word, n: bv5)
    requires n < 31
    ensures w >> (n + 1) == (w >> n) >> 1
  {
    if n & 1 == 0 {} else if n & 2 == 0 {} else if n & 4 == 0 {} else if n & 8 == 0 {} else {}
  }

  // ---- Bits of a word ----

  lemma HalfAnd(a: word, b: word)
    ensures Half(And(a, b)) == And(Half(a), Half(b))
  {}

  lemma HalfOr(a: word, b: word)
    ensures Half(Or(a, b)) == Or(Half(a), Half(b))
  {}

  lemma OddAnd(a: word, b: word)
    ensures Odd(And(a, b)) <==> Odd(a) && Odd(b)
  {}

  lemma OddOr(a: word, b: word)
    ensures Odd(Or(a, b)) <==> Odd(a) || Odd(b)
  {}

  lemma {:induction false} LsrAndOr(a: word, b: word, n: nat)
    requires n < 32
    ensures Lsr(And(a, b), n) == And(Lsr(a, n), Lsr(b, n)) && Lsr(Or(a, b), n) == Or(Lsr(a, n), Lsr(b, n))
  {
    hide Lsr, And, Or, Half;
    if n == 0 {
      NoShift(a);
      NoShift(b);
      NoShift(And(a, b));
      NoShift(Or(a, b));
    } else {
      LsrAndOr(a, b, n - 1);
      LsrNext(a, n - 1);
      LsrNext(b, n - 1);
      LsrNext(And(a, b), n - 1);
      LsrNext(Or(a, b), n - 1);
      HalfAnd(Lsr(a, n - 1), Lsr(b, n - 1));
      HalfOr(Lsr(a, n - 1), Lsr(b, n - 1));
    }
  }

  lemma BitIsOdd(w: word, n: nat)
    requires n < 32
    ensures BitOf(w, n) <==> Odd(Lsr(w, n))
  {
    hide Amount;
  }

  lemma AndOrBit(a: word, b: word, n: nat)
    requires n < 32
    ensures BitOf(And(a, b), n) <==> BitOf(a, n) && BitOf(b, n)
    ensures BitOf(Or(a, b), n) <==> BitOf(a, n) || BitOf(b, n)
  {
    hide BitOf, Odd, Lsr, And, Or;
    LsrAndOr(a, b, n);
    OddAnd(Lsr(a, n), Lsr(b, n));
    OddOr(Lsr(a, n), Lsr(b, n));
    BitIsOdd(a, n);
    BitIsOdd(b, n);
    BitIsOdd(And(a, b), n);
    BitIsOdd(Or(a, b), n);
  }

  lemma NotBit(a: word, n: nat)
    requires n < 32
    ensures BitOf(Not(a), n) <==> !BitOf(a, n)
  {
    hide BitOf, And, Or, Not;
    Complement(a);
    AndOrBit(a, Not(a), n);
    AllBits(n);
  }

  lemma Complement(a: word)
    ensures And(a, Not(a)) == 0 && Or(a, Not(a)) == 0xffff_ffff
  {}

  lemma AllBits(n: nat)
    requires n < 32
    ensures BitOf(0xffff_ffff, n) && !BitOf(0, n)
  {}

  lemma XorBit(a: word, b: word, n: nat)
    requires n < 32
    ensures BitOf(Xor(a, b), n) <==> BitOf(a, n) != BitOf(b, n)
  {
    hide BitOf, And, Or, Not, Xor;
    XorParts(a, b);
    AndOrBit(And(a, Not(b)), And(Not(a), b), n);
    AndOrBit(a, Not(b), n);
    AndOrBit(Not(a), b, n);
    NotBit(a, n);
    NotBit(b, n);
  }

  lemma XorParts(a: word, b: word)
    ensures Xor(a, b) == Or(And(a, Not(b)), And(Not(a), b))
  {}

  // ---- Words shifted by one place, as integers ----

  function NibbleLeft(h: nibble, l: nibble): nibble {
    (h << 1) | (l >> 3)
  }

  function OctetLeft(b: octet, c: octet): octet {
    (b << 1) | (c >> 7)
  }

  // The top bit of a nibble and of an octet, which moves to the one before.

  function NibbleHigh(h: nibble): nat {
    (h as nat) / 8
  }

  function High(b: octet): nat {
    NibbleHigh(HighNibble(b))
  }

  lemma NibbleLeftNat(h: nibble, l: nibble)
    ensures NibbleLeft(h, l) as nat + 0x10 * NibbleHigh(h) == 2 * (h as nat) + NibbleHigh(l)
  {}

  lemma OctetLeftNibbles(b: octet, c: octet)
    ensures HighNibble(OctetLeft(b, c)) == NibbleLeft(HighNibble(b), LowNibble(b))
    ensures LowNibble(OctetLeft(b, c)) == NibbleLeft(LowNibble(b), HighNibble(c))
  {}

  lemma OctetLeftValue(b: octet, c: octet)
    ensures Value(OctetLeft(b, c)) + 0x100 * High(b) == 2 * Value(b) + High(c)
  {
    hide HighNibble, LowNibble, OctetLeft, NibbleLeft, NibbleHigh;
    OctetLeftNibbles(b, c);
    NibbleLeftNat(HighNibble(b), LowNibble(b));
    NibbleLeftNat(LowNibble(b), HighNibble(c));
  }

  lemma TwiceOctets(w: word)
    ensures O3(Twice(w)) == OctetLeft(O3(w), O2(w)) && O2(Twice(w)) == OctetLeft(O2(w), O1(w))
    ensures O1(Twice(w)) == OctetLeft(O1(w), O0(w)) && O0(Twice(w)) == OctetLeft(O0(w), 0)
  {}

  lemma HighBit(b: octet)
    ensures High(b) <= 1 && High(0) == 0
  {}

  lemma TwiceNat(w: word)
    ensures Nat(Twice(w)) == 2 * Nat(w) % 0x1_0000_0000
  {
    hide Nat, Twice, High;
    TwiceSum(w);
  }

  lemma TwiceSum(w: word)
    ensures Nat(Twice(w)) + 0x1_0000_0000 * High(O3(w)) == 2 * Nat(w) && High(O3(w)) <= 1
  {
    hide Value, O3, O2, O1, O0, Twice, OctetLeft, High;
    TwiceOctets(w);
    OctetLeftValue(O3(w), O2(w));
    OctetLeftValue(O2(w), O1(w));
    OctetLeftValue(O1(w), O0(w));
    OctetLeftValue(O0(w), 0);
    HighBit(O3(w));
  }

  function NibbleRight(h: nibble, l: nibble): nibble {
    (h << 3) | (l >> 1)
  }

  function OctetRight(b: octet, c: octet): octet {
    (b << 7) | (c >> 1)
  }

  // The low bit of a nibble and of an octet, which moves to the next one.

  function NibbleOut(h: nibble): nat {
    (h as nat) % 2
  }

  function Out(b: octet): nat {
    NibbleOut(LowNibble(b))
  }

  lemma NibbleRightNat(h: nibble, l: nibble)
    ensures 2 * (NibbleRight(h, l) as nat) + NibbleOut(l) == 0x10 * NibbleOut(h) + l as nat
  {}

  lemma OctetRightNibbles(b: octet, c: octet)
    ensures HighNibble(OctetRight(b, c)) == NibbleRight(LowNibble(b), HighNibble(c))
    ensures LowNibble(OctetRight(b, c)) == NibbleRight(HighNibble(c), LowNibble(c))
  {}

  lemma OctetRightValue(b: octet, c: octet)
    ensures 2 * Value(OctetRight(b, c)) + Out(c) == 0x100 * Out(b) + Value(c)
  {
    hide HighNibble, LowNibble, OctetRight, NibbleRight, NibbleOut;
    OctetRightNibbles(b, c);
    NibbleRightNat(LowNibble(b), HighNibble(c));
    NibbleRightNat(HighNibble(c), LowNibble(c));
  }

  lemma HalfOctets(w: word)
    ensures O3(Half(w)) == OctetRight(0, O3(w)) && O2(Half(w)) == OctetRight(O3(w), O2(w))
    ensures O1(Half(w)) == OctetRight(O2(w), O1(w)) && O0(Half(w)) == OctetRight(O1(w), O0(w))
  {}

  lemma OutBit(b: octet)
    ensures Out(b) <= 1 && Out(0) == 0
  {}

  lemma HalfNat(w: word)
    ensures Nat(Half(w)) == Nat(w) / 2 && (Odd(w) <==> Nat(w) % 2 == 1)
  {
    hide Value, O3, O2, O1, O0, Half, OctetRight, Out, Odd;
    HalfOctets(w);
    OctetRightValue(0, O3(w));
    OctetRightValue(O3(w), O2(w));
    OctetRightValue(O2(w), O1(w));
    OctetRightValue(O1(w), O0(w));
    OutBit(O0(w));
    OddOut(w);
  }

  lemma OddOut(w: word)
    ensures Odd(w) <==> Out(O0(w)) == 1
  {
    hide LowNibble, O0, NibbleOut, Odd;
    OddNibble(w);
    NibbleOdd(LowNibble(O0(w)));
  }

  lemma OddNibble(w: word)
    ensures Odd(w) <==> LowNibble(O0(w)) & 1 == 1
  {}

  lemma NibbleOdd(h: nibble)
    ensures h & 1 == 1 <==> NibbleOut(h) == 1
  {}

  // ---- Complements and disjoint words ----

  function NotOctet(b: octet): octet {
    !b
  }

  lemma NotNat(w: word)
    ensures Nat(Not(w)) == 0xffff_ffff - Nat(w)
  {
    hide Value, O3, O2, O1, O0, Not, NotOctet;
    NotOctets(w);
    NotValue(O3(w));
    NotValue(O2(w));
    NotValue(O1(w));
    NotValue(O0(w));
  }

  lemma NotOctets(w: word)
    ensures O3(Not(w)) == NotOctet(O3(w)) && O2(Not(w)) == NotOctet(O2(w))
    ensures O1(Not(w)) == NotOctet(O1(w)) && O0(Not(w)) == NotOctet(O0(w))
  {}

  lemma NotValue(b: octet)
    ensures Value(NotOctet(b)) == 0xff - Value(b)
  {
    hide HighNibble, LowNibble, NotOctet;
    NotNibbles(b);
    NotNibble(HighNibble(b));
    NotNibble(LowNibble(b));
  }

  lemma NotNibbles(b: octet)
    ensures HighNibble(NotOctet(b)) == !HighNibble(b) && LowNibble(NotOctet(b)) == !LowNibble(b)
  {}

  lemma NotNibble(h: nibble)
    ensures (!h) as nat == 0xf - h as nat
  {}

  function OrOctet(a: octet, b: octet): octet {
    a | b
  }

  predicate ApartOctets(a: octet, b: octet) {
    a & b == 0
  }

  predicate Apart(a: word, b: word) {
    a & b == 0
  }

  lemma OrNat(a: word, b: word)
    requires Apart(a, b)
    ensures Nat(Or(a, b)) == Nat(a) + Nat(b)
  {
    hide Value, O3, O2, O1, O0, Or, OrOctet, Apart, ApartOctets;
    OrOctets(a, b);
    OrValue(O3(a), O3(b));
    OrValue(O2(a), O2(b));
    OrValue(O1(a), O1(b));
    OrValue(O0(a), O0(b));
  }

  lemma OrOctets(a: word, b: word)
    requires Apart(a, b)
    ensures O3(Or(a, b)) == OrOctet(O3(a), O3(b)) && O2(Or(a, b)) == OrOctet(O2(a), O2(b))
    ensures O1(Or(a, b)) == OrOctet(O1(a), O1(b)) && O0(Or(a, b)) == OrOctet(O0(a), O0(b))
    ensures ApartOctets(O3(a), O3(b)) && ApartOctets(O2(a), O2(b)) && ApartOctets(O1(a), O1(b)) && ApartOctets(O0(a), O0(b))
  {
    hide Or, OrOctet, Apart, ApartOctets, O3, O2, O1, O0;
    OrUpper(a, b);
    OrLower(a, b);
    ApartUpper(a, b);
    ApartLower(a, b);
  }

  lemma OrUpper(a: word, b: word)
    ensures O3(Or(a, b)) == OrOctet(O3(a), O3(b)) && O2(Or(a, b)) == OrOctet(O2(a), O2(b))
  {}

  lemma OrLower(a: word, b: word)
    ensures O1(Or(a, b)) == OrOctet(O1(a), O1(b)) && O0(Or(a, b)) == OrOctet(O0(a), O0(b))
  {}

  lemma ApartUpper(a: word, b: word)
    requires Apart(a, b)
    ensures ApartOctets(O3(a), O3(b)) && ApartOctets(O2(a), O2(b))
  {}

  lemma ApartLower(a: word, b: word)
    requires Apart(a, b)
    ensures ApartOctets(O1(a), O1(b)) && ApartOctets(O0(a), O0(b))
  {}

  function OrNibble(h: nibble, l: nibble): nibble {
    h | l
  }

  predicate ApartNibbles(h: nibble, l: nibble) {
    h & l == 0
  }

  lemma OrValue(a: octet, b: octet)
    requires ApartOctets(a, b)
    ensures Value(OrOctet(a, b)) == Value(a) + Value(b)
  {
    hide HighNibble, LowNibble, OrOctet, ApartOctets, OrNibble, ApartNibbles;
    OrNibbles(a, b);
    OrNibbleNat(HighNibble(a), HighNibble(b));
    OrNibbleNat(LowNibble(a), LowNibble(b));
  }

  lemma OrNibbles(a: octet, b: octet)
    requires ApartOctets(a, b)
    ensures HighNibble(OrOctet(a, b)) == OrNibble(HighNibble(a), HighNibble(b)) && ApartNibbles(HighNibble(a), HighNibble(b))
    ensures LowNibble(OrOctet(a, b)) == OrNibble(LowNibble(a), LowNibble(b)) && ApartNibbles(LowNibble(a), LowNibble(b))
  {}

  lemma OrNibbleNat(h: nibble, l: nibble)
    requires ApartNibbles(h, l)
    ensures OrNibble(h, l) as nat == h as nat + l as nat
  {}
}
