/** The framing against the protocol's own description: which bytes are escaped and how, checksums
    as sums, digits as characters, and sample packets. */
module RspProtocol {
  import opened RspFraming

  function Bytes(s: string): (b: seq<byte>)
    requires forall i :: 0 <= i < |s| ==> s[i] as nat < 0x80
    ensures |b| == |s| && forall i :: 0 <= i < |s| ==> b[i] == s[i] as nat as byte
  {
    seq(|s|, i requires 0 <= i < |s| => s[i] as nat as byte)
  }

  // ---- Escapes ----

  /** `$`, `#`, `*` and `}` are sent as two bytes each, every other byte as itself. */
  lemma SentAs(b: byte)
    ensures Code(0x24) == [0x7d, 0x04] && Code(0x23) == [0x7d, 0x03]
    ensures Code(0x2a) == [0x7d, 0x0a] && Code(0x7d) == [0x7d, 0x5d]
    ensures b != 0x24 && b != 0x23 && b != 0x2a && b != 0x7d ==> Code(b) == [b]
  {}

  function FlippedNat(b: byte): nat {
    if b as nat / 32 % 2 == 0 then b as nat + 32 else b as nat - 32
  }

  /** An escaped byte is 32 more or less, as bit 5 was clear or set. */
  lemma EscapedNat(b: byte)
    ensures Flip(b) as nat == FlippedNat(b)
  {}

  /** Behind the escape any byte stands for the one 32 more or less, even one past the end of the
      body; and any other byte stands for itself. */
  lemma ReadAs(c: byte, rest: seq<byte>, after: byte)
    ensures var u := Unescape([0x7d, c] + rest, after);
            |u| > 0 && u[0] as nat == FlippedNat(c) && u[1..] == Unescape(rest, after)
    ensures var u := Unescape([0x7d], c); |u| == 1 && u[0] as nat == FlippedNat(c)
    ensures c != 0x7d ==> Unescape([c] + rest, after) == [c] + Unescape(rest, after)
  {
    hide FlippedNat;
    EscapedNat(c);
    assert ([0x7d, c] + rest)[2..] == rest && ([c] + rest)[1..] == rest;
  }

  // ---- Checksums ----

  function ByteNat(b: byte): nat {
    b as nat
  }

  function Sum(body: seq<byte>): nat {
    if body == [] then 0 else ByteNat(body[0]) + Sum(body[1..])
  }

  lemma {:induction false} SumLast(body: seq<byte>, b: byte)
    ensures Sum(body + [b]) == Sum(body) + ByteNat(b)
  {
    hide ByteNat;
    if body == [] {
      assert Sum([b]) == ByteNat(b) + Sum([b][1..]);
    } else {
      assert (body + [b])[1..] == body[1..] + [b];
      SumLast(body[1..], b);
    }
  }

  /** The checksum is the sum of the bytes modulo 256. */
  lemma {:induction false} ChecksumIsSum(body: seq<byte>)
    ensures ByteNat(Checksum(body)) == Sum(body) % 0x100
    decreases |body|
  {
    hide Sum, ByteNat, Add;
    if body == [] {
      NoSum();
    } else {
      var front, b := body[..|body| - 1], body[|body| - 1];
      ChecksumIsSum(front);
      assert body == front + [b];
      SumLast(front, b);
      AddIs(Checksum(front), b);
      AddedNat(Checksum(front), b);
      Reduced(Sum(front), ByteNat(b));
    }
  }

  lemma NoSum()
    ensures Sum([]) == 0 && ByteNat(0) == 0
  {}

  lemma AddIs(a: byte, b: byte)
    ensures Add(a, b) == a + b
  {}

  lemma Reduced(s: nat, b: nat)
    ensures (s % 0x100 + b) % 0x100 == (s + b) % 0x100
  {}

  function High(b: byte): bv4 {
    (b >> 4) as bv4
  }

  function Low(b: byte): bv4 {
    (b & 0xf) as bv4
  }

  function Add(a: byte, b: byte): byte {
    a + b
  }

  function Add4(a: bv4, b: bv4, carry: bool): bv4 {
    a + b + if carry then 1 else 0
  }

  predicate Carries(a: bv4, b: bv4) {
    a + b < a
  }

  function NibbleNat(h: bv4): nat {
    h as nat
  }

  lemma Halves(b: byte)
    ensures ByteNat(b) == 0x10 * NibbleNat(High(b)) + NibbleNat(Low(b))
    ensures NibbleNat(High(b)) < 0x10 && NibbleNat(Low(b)) < 0x10
  {}

  lemma AddHalves(a: byte, b: byte)
    ensures Low(Add(a, b)) == Add4(Low(a), Low(b), false)
    ensures High(Add(a, b)) == Add4(High(a), High(b), Carries(Low(a), Low(b)))
  {}

  function Wrap16(s: int): int {
    if s >= 0x10 then s - 0x10 else s
  }

  lemma Add4Nat(a: bv4, b: bv4, carry: bool)
    ensures NibbleNat(Add4(a, b, carry)) == Wrap16(NibbleNat(a) + NibbleNat(b) + if carry then 1 else 0)
    ensures Carries(a, b) <==> NibbleNat(a) + NibbleNat(b) >= 0x10
  {}

  lemma Columns(ah: int, al: int, bh: int, bl: int)
    requires 0 <= ah < 0x10 && 0 <= al < 0x10 && 0 <= bh < 0x10 && 0 <= bl < 0x10
    ensures 0x10 * Wrap16(ah + bh + if al + bl >= 0x10 then 1 else 0) + Wrap16(al + bl)
            == (0x10 * ah + al + (0x10 * bh + bl)) % 0x100
  {}

  lemma AddedNat(a: byte, b: byte)
    ensures ByteNat(Add(a, b)) == (ByteNat(a) + ByteNat(b)) % 0x100
  {
    hide High, Low, Add, Add4, Carries, ByteNat, NibbleNat, Wrap16;
    Halves(a);
    Halves(b);
    Halves(Add(a, b));
    AddHalves(a, b);
    Add4Nat(Low(a), Low(b), false);
    Add4Nat(High(a), High(b), Carries(Low(a), Low(b)));
    Columns(NibbleNat(High(a)), NibbleNat(Low(a)), NibbleNat(High(b)), NibbleNat(Low(b)));
  }

  // ---- Digits ----

  lemma DigitsAre(n: nat)
    requires n < 16
    ensures HexChar(n as byte) as nat == "0123456789abcdef"[n] as nat
  {
    if n < 10 {} else {}
  }

  /** Digits of either case are read, and nothing else stands for a digit. */
  lemma DigitsRead(c: byte)
    ensures Hex(c) as nat == if 48 <= c as nat <= 57 then c as nat - 48
                             else if 97 <= c as nat <= 102 then c as nat - 87
                             else if 65 <= c as nat <= 70 then c as nat - 55 else 255
  {}

  // ---- Packets ----

  const OK: seq<byte> := [0x4f, 0x4b]

  lemma OkBody()
    ensures Bytes("OK") == OK && Escape(OK) == OK
  {
    assert OK[..1] == [0x4f] && [0x4f as byte][..0] == [];
    assert Escape([]) == [] && Escape([0x4f]) == [0x4f];
  }

  lemma OkSum()
    ensures Checksum(OK) == 0x9a
  {
    assert OK[..1] == [0x4f] && [0x4f as byte][..0] == [];
    assert Checksum([]) == 0 && Checksum([0x4f]) == 0x4f;
  }

  lemma OkDigits()
    ensures Digits(0x9a) == Bytes("9a")
  {}

  /** The packet `OK` goes out as `$OK#9a`. */
  lemma SendsOk()
    ensures Frame(Bytes("OK")) == Bytes("$OK#9a")
  {
    hide Escape, Checksum, Digits;
    OkBody();
    OkSum();
    OkDigits();
  }

  /** `+$x$OK#9a` */
  const NOISY: seq<byte> := [0x2b, 0x24, 0x78, 0x24, 0x4f, 0x4b, 0x23, 0x39, 0x61]
  /** `$OK#9b` */
  const WRONG: seq<byte> := [0x24, 0x4f, 0x4b, 0x23, 0x39, 0x62]

  /** And comes in from that, through a stray acknowledgement and an interrupted start, and is
      acknowledged. */
  lemma ReadsOk()
    ensures Hunt(NOISY) == Packet(OK, [0x2b], [])
  {
    var good: seq<byte> := [0x24, 0x4f, 0x4b, 0x23, 0x39, 0x61];
    assert NOISY[1..] == [0x24, 0x78] + good && NOISY[1..][1..] == [0x78] + good;
    assert ([0x78] + good)[1..] == good;
    assert Hunt(NOISY) == Hunt([0x24, 0x78] + good) == Collect([0x78] + good, []);
    assert [] + [0x78] == [0x78 as byte];
    assert Collect([0x78] + good, []) == Collect(good, [0x78]) == Collect(good[1..], []);
    CollectsOk(good);
    assert good[4..] == [0x39, 0x61] && good[4..][2..] == [];
    OkSum();
    OkReceived();
  }

  lemma CollectsOk(w: seq<byte>)
    requires |w| == 6 && w[..4] == [0x24, 0x4f, 0x4b, 0x23]
    ensures Hunt(w) == Collect(w[1..], []) == Validate(w[4..], OK)
  {
    hide Validate;
    assert w[0] == 0x24 && w[1] == 0x4f && w[2] == 0x4b && w[3] == 0x23;
    assert w[1..][1..] == w[2..] && w[2..][1..] == w[3..] && w[3..][1..] == w[4..];
    assert [] + [0x4f] == [0x4f as byte] && [0x4f] + [0x4b] == OK;
    assert Collect(w[1..], []) == Collect(w[2..], [0x4f]);
    assert Collect(w[2..], [0x4f]) == Collect(w[3..], OK);
  }

  lemma OkReceived()
    ensures Received(0x39, 0x61) == 0x9a && Received(0x39, 0x62) == 0x9b
  {}

  /** With one digit wrong it is refused. */
  lemma RefusesWrong()
    ensures Hunt(WRONG) == Closed([0x2d])
  {
    CollectsOk(WRONG);
    assert WRONG[4..] == [0x39, 0x62] && WRONG[4..][2..] == [];
    assert Hunt([]) == Closed([]);
    OkSum();
    OkReceived();
  }
}
