/** Machine words as integers, octet by octet: arithmetic wraps modulo 2^32, and the top bit
    is the sign. */
module ArmWords {
  import opened ArmState

  type octet = bv8
  type nibble = bv4

  function HighNibble(b: octet): nibble {
    (b >> 4) as nibble
  }

  function LowNibble(b: octet): nibble {
    (b & 0xf) as nibble
  }

  function Value(b: octet): (n: nat)
    ensures n < 0x100
  {
    (HighNibble(b) as nat) * 0x10 + (LowNibble(b) as nat)
  }

  function Pair(high: nibble, low: nibble): octet {
    ((high as octet) << 4) | (low as octet)
  }

  function Octet(n: nat): (b: octet)
    requires n < 0x100
  {
    Pair((n / 0x10) as nibble, (n % 0x10) as nibble)
  }

  // The octets of a word, most significant first, and the word they make.

  function O3(w: word): octet {
    (w >> 24) as octet
  }

  function O2(w: word): octet {
    ((w >> 16) & 0xff) as octet
  }

  function O1(w: word): octet {
    ((w >> 8) & 0xff) as octet
  }

  function O0(w: word): octet {
    (w & 0xff) as octet
  }

  function Glue(b3: octet, b2: octet, b1: octet, b0: octet): word {
    ((b3 as word) << 24) | ((b2 as word) << 16) | ((b1 as word) << 8) | (b0 as word)
  }

  function Nat(w: word): (n: nat)
    ensures n < 0x1_0000_0000
  {
    Value(O3(w)) * 0x100_0000 + Value(O2(w)) * 0x1_0000 + Value(O1(w)) * 0x100 + Value(O0(w))
  }

  function Word(n: int): word {
    var m := n % 0x1_0000_0000;
    Glue(Octet(m / 0x100_0000), Octet(m / 0x1_0000 % 0x100), Octet(m / 0x100 % 0x100), Octet(m % 0x100))
  }

  /** The two's complement value of a word. */
  function Int(w: word): int {
    if Nat(w) >= 0x8000_0000 then Nat(w) - 0x1_0000_0000 else Nat(w)
  }

  function In(b: bool): nat {
    if b then 1 else 0
  }

  function Plus(a: word, b: word, carry: nat): word {
    Word(Nat(a) + Nat(b) + carry)
  }

  function Minus(a: word, b: word, borrow: nat): word {
    Word(Nat(a) - Nat(b) - borrow)
  }

  // ---- Operations on words ----

  predicate Odd(w: word) {
    w & 1 == 1
  }

  function And(a: word, b: word): word {
    a & b
  }

  function Or(a: word, b: word): word {
    a | b
  }

  function Half(w: word): word {
    w >> 1
  }

  function Twice(w: word): word {
    w << 1
  }

  function Not(a: word): word {
    !a
  }

  function Xor(a: word, b: word): word {
    a ^ b
  }

  // ---- Octets and words as integers ----

  /** 2^k */
  function Power(k: nat): (p: nat)
    ensures p > 0
  {
    if k == 0 then 1 else 2 * Power(k - 1)
  }

  lemma ValueOctet(n: nat)
    requires n < 0x100
    ensures Value(Octet(n)) == n
  {
    hide Pair, HighNibble, LowNibble;
    ThereAndBack(n / 0x10);
    ThereAndBack(n % 0x10);
    PairNibbles((n / 0x10) as nibble, (n % 0x10) as nibble);
  }

  lemma ThereAndBack(n: nat)
    requires n < 0x10
    ensures (n as nibble) as nat == n
  {}

  lemma PairNibbles(high: nibble, low: nibble)
    ensures HighNibble(Pair(high, low)) == high && LowNibble(Pair(high, low)) == low
  {}

  lemma OctetValue(b: octet)
    ensures Octet(Value(b)) == b
  {
    hide Pair, HighNibble, LowNibble;
    var high, low := HighNibble(b), LowNibble(b);
    assert Value(b) / 0x10 == high as nat && Value(b) % 0x10 == low as nat;
    BackAndThere(high);
    BackAndThere(low);
    NibblesPair(b);
  }

  lemma BackAndThere(h: nibble)
    ensures (h as nat) as nibble == h
  {}

  lemma NibblesPair(b: octet)
    ensures Pair(HighNibble(b), LowNibble(b)) == b
  {}

  lemma GlueOctets(b3: octet, b2: octet, b1: octet, b0: octet)
    ensures var w := Glue(b3, b2, b1, b0);
            O3(w) == b3 && O2(w) == b2 && O1(w) == b1 && O0(w) == b0
  {}

  lemma OctetsGlue(w: word)
    ensures Glue(O3(w), O2(w), O1(w), O0(w)) == w
  {}

  /** A word holds an integer modulo 2^32. */
  lemma NatWord(n: int)
    ensures Nat(Word(n)) == n % 0x1_0000_0000
  {
    hide Value, Octet, Glue, O3, O2, O1, O0;
    var m := n % 0x1_0000_0000;
    ValueOctet(m / 0x100_0000);
    ValueOctet(m / 0x1_0000 % 0x100);
    ValueOctet(m / 0x100 % 0x100);
    ValueOctet(m % 0x100);
    GlueOctets(Octet(m / 0x100_0000), Octet(m / 0x1_0000 % 0x100), Octet(m / 0x100 % 0x100), Octet(m % 0x100));
    FromDigits(m);
  }

  lemma FromDigits(m: nat)
    requires m < 0x1_0000_0000
    ensures m == m / 0x100_0000 * 0x100_0000 + m / 0x1_0000 % 0x100 * 0x1_0000 + m / 0x100 % 0x100 * 0x100 + m % 0x100
  {}

  lemma WordNat(w: word)
    ensures Word(Nat(w)) == w
  {
    hide Value, Octet, Glue, O3, O2, O1, O0;
    OctetValue(O3(w));
    OctetValue(O2(w));
    OctetValue(O1(w));
    OctetValue(O0(w));
    OctetsGlue(w);
    Digits(Value(O3(w)), Value(O2(w)), Value(O1(w)), Value(O0(w)));
  }

  lemma Digits(a: nat, b: nat, c: nat, d: nat)
    requires a < 0x100 && b < 0x100 && c < 0x100 && d < 0x100
    ensures var m := a * 0x100_0000 + b * 0x1_0000 + c * 0x100 + d;
            && m / 0x100_0000 == a && m / 0x1_0000 % 0x100 == b && m / 0x100 % 0x100 == c && m % 0x100 == d
            && m % 0x1_0000_0000 == m
  {
    var m := a * 0x100_0000 + b * 0x1_0000 + c * 0x100 + d;
    assert m / 0x100 == a * 0x1_0000 + b * 0x100 + c;
    assert m / 0x1_0000 == a * 0x100 + b;
  }

  lemma PlusNat(a: word, b: word, carry: nat)
    requires carry <= 1
    ensures var s := Nat(a) + Nat(b) + carry;
            Nat(Plus(a, b, carry)) == if s < 0x1_0000_0000 then s else s - 0x1_0000_0000
  {
    hide Nat, Word;
    NatWord(Nat(a) + Nat(b) + carry);
  }

  lemma MinusNat(a: word, b: word, borrow: nat)
    requires borrow <= 1
    ensures var d := Nat(a) - Nat(b) - borrow;
            Nat(Minus(a, b, borrow)) == if d >= 0 then d else d + 0x1_0000_0000
  {
    hide Nat, Word;
    NatWord(Nat(a) - Nat(b) - borrow);
  }

  /** The top two bits of a word, tested by shifting. */
  lemma NatTop(w: word)
    ensures w >> 31 != 0 <==> Nat(w) >= 0x8000_0000
    ensures w >> 30 != 0 <==> Nat(w) >= 0x4000_0000
  {
    hide Value, O3, O2, O1, O0;
    TopOctet(w);
    OctetTop(O3(w));
  }

  lemma TopOctet(w: word)
    ensures w >> 31 != 0 <==> O3(w) >> 7 != 0
    ensures w >> 30 != 0 <==> O3(w) >> 6 != 0
  {}

  lemma OctetTop(b: octet)
    ensures b >> 7 != 0 <==> Value(b) >= 0x80
    ensures b >> 6 != 0 <==> Value(b) >= 0x40
  {
    hide HighNibble, LowNibble;
    TopNibble(b);
    NibbleTop(HighNibble(b));
  }

  lemma TopNibble(b: octet)
    ensures b >> 7 != 0 <==> HighNibble(b) >> 3 != 0
    ensures b >> 6 != 0 <==> HighNibble(b) >> 2 != 0
  {}

  lemma NibbleTop(h: nibble)
    ensures h >> 3 != 0 <==> h as nat >= 8
    ensures h >> 2 != 0 <==> h as nat >= 4
  {}
}
