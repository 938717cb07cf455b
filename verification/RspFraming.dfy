/** The packets of the GDB remote serial protocol, as byte streams: escaping, framing and
    checksums on one side, and the reader that finds its way back to a frame on the other. */
module RspFraming {

  type byte = bv8

  const DOLLAR: byte := 0x24
  const HASH: byte := 0x23
  const STAR: byte := 0x2a
  const BRACE: byte := 0x7d
  const PLUS: byte := 0x2b
  const MINUS: byte := 0x2d

  const GDB_BUF_MAX := 2048

  // ---- Writing ----

  predicate Special(b: byte) {
    b == DOLLAR || b == HASH || b == STAR || b == BRACE
  }

  function Flip(b: byte): byte {
    b ^ 0x20
  }

  /** How one data byte is sent. */
  function Code(b: byte): (s: seq<byte>)
    ensures 1 <= |s| <= 2
  {
    if Special(b) then [BRACE, Flip(b)] else [b]
  }

  function Escape(data: seq<byte>): (s: seq<byte>)
    ensures |data| <= |s| <= 2 * |data|
    decreases |data|
  {
    if data == [] then [] else Escape(data[..|data| - 1]) + Code(data[|data| - 1])
  }

  /** The sum of the bytes modulo 256. */
  function Checksum(body: seq<byte>): byte
    decreases |body|
  {
    if body == [] then 0 else Checksum(body[..|body| - 1]) + body[|body| - 1]
  }

  /** The lower-case digit for a value below 16. */
  function HexChar(n: byte): byte {
    if n < 10 then 0x30 + n else 0x57 + n
  }

  /** The two digits of a checksum. */
  function Digits(sum: byte): seq<byte> {
    [HexChar(sum >> 4), HexChar(sum & 0xf)]
  }

  /** A body between its start and end marks, with two checksum digits. */
  function Framed(body: seq<byte>, digits: seq<byte>): seq<byte> {
    [DOLLAR] + body + [HASH] + digits
  }

  /** What is sent for one packet. */
  function Frame(data: seq<byte>): seq<byte> {
    Framed(Escape(data), Digits(Checksum(Escape(data))))
  }

  // ---- Reading ----

  /** The value of a hexadecimal digit of either case; -1, as a byte, for anything else. */
  function Hex(c: byte): byte {
    if 0x61 <= c <= 0x66 then c - 0x61 + 10
    else if 0x30 <= c <= 0x39 then c - 0x30
    else if 0x41 <= c <= 0x46 then c - 0x41 + 10
    else 0xff
  }

  /** The checksum two received characters stand for. */
  function Received(high: byte, low: byte): byte {
    (Hex(high) << 4) + Hex(low)
  }

  /** What reading leads to: a packet, or a closed connection; what was answered meanwhile; and
      what is left to read. */
  datatype Reading = Packet(body: seq<byte>, answers: seq<byte>, rest: seq<byte>) | Closed(answers: seq<byte>)

  function Answering(answer: byte, r: Reading): Reading {
    match r
    case Packet(body, answers, rest) => Packet(body, [answer] + answers, rest)
    case Closed(answers) => Closed([answer] + answers)
  }

  /** Skips to a start mark. */
  function Hunt(input: seq<byte>): (r: Reading)
    decreases |input|, 0
  {
    if input == [] then Closed([])
    else if input[0] == DOLLAR then Collect(input[1..], [])
    else Hunt(input[1..])
  }

  /** Collects a body; a start mark begins it again, and a body that fills the buffer is dropped. */
  function Collect(input: seq<byte>, body: seq<byte>): (r: Reading)
    decreases |input|, 1
  {
    if |body| >= GDB_BUF_MAX - 1 then Hunt(input)
    else if input == [] then Closed([])
    else if input[0] == DOLLAR then Collect(input[1..], [])
    else if input[0] == HASH then Validate(input[1..], body)
    else Collect(input[1..], body + [input[0]])
  }

  /** Compares checksums; a bad packet is refused and the hunt goes on. */
  function Validate(input: seq<byte>, body: seq<byte>): (r: Reading)
    decreases |input|, 1
  {
    if |input| < 2 then Closed([])
    else if Received(input[0], input[1]) == Checksum(body) then Packet(body, [PLUS], input[2..])
    else Answering(MINUS, Hunt(input[2..]))
  }

  // ---- Unescaping ----

  /** The data an escaped body stands for; an escape at the very end takes in the byte after. */
  function Unescape(body: seq<byte>, after: byte): (data: seq<byte>)
    ensures |data| <= |body|
    decreases |body|
  {
    if body == [] then []
    else if body[0] == BRACE then
      if |body| == 1 then [Flip(after)] else [Flip(body[1])] + Unescape(body[2..], after)
    else [body[0]] + Unescape(body[1..], after)
  }

  // ---- Laws of the parts ----

  lemma Flips(b: byte)
    ensures Flip(Flip(b)) == b
    ensures Special(b) ==> Flip(b) != DOLLAR && Flip(b) != HASH
  {}

  /** Neither mark appears in an escaped body. */
  predicate Clean(s: seq<byte>) {
    forall i :: 0 <= i < |s| ==> s[i] != DOLLAR && s[i] != HASH
  }

  lemma {:induction false} EscapeClean(data: seq<byte>)
    ensures Clean(Escape(data))
    decreases |data|
  {
    hide Special, Flip;
    if data != [] {
      EscapeClean(data[..|data| - 1]);
      CodeClean(data[|data| - 1]);
    }
  }

  lemma CodeClean(b: byte)
    ensures Clean(Code(b))
  {
    Flips(b);
  }

  lemma EscapeOneMore(s: seq<byte>, b: byte)
    ensures Escape(s + [b]) == Escape(s) + Code(b)
  {
    hide Code;
    assert (s + [b])[..|s|] == s;
  }

  lemma {:induction false} EscapeConcat(a: seq<byte>, b: seq<byte>)
    ensures Escape(a + b) == Escape(a) + Escape(b)
    decreases |b|
  {
    hide Code, Escape;
    if b == [] {
      assert a + b == a;
      EscapeNothing();
    } else {
      var early, last := b[..|b| - 1], b[|b| - 1];
      assert b == early + [last] && a + b == a + early + [last];
      EscapeConcat(a, early);
      EscapeOneMore(a + early, last);
      EscapeOneMore(early, last);
    }
  }

  lemma EscapeNothing()
    ensures Escape([]) == []
  {}

  /** Unescaping an escaped body gives the data back, whatever follows it. */
  lemma {:induction false} UnescapeEscape(data: seq<byte>, after: byte)
    ensures Unescape(Escape(data), after) == data
    decreases |data|
  {
    hide Special, Flip, BRACE;
    if data != [] {
      var b, rest := data[0], data[1..];
      EscapeConcat([b], rest);
      assert [b] + rest == data;
      assert Escape([b]) == Code(b) by { SingleCode(b); }
      UnescapeEscape(rest, after);
      UnescapeCode(b, Escape(rest), after);
    }
  }

  lemma SingleCode(b: byte)
    ensures Escape([b]) == Code(b)
  {
    assert [b][..0] == [];
  }

  lemma UnescapeCode(b: byte, rest: seq<byte>, after: byte)
    ensures Unescape(Code(b) + rest, after) == [b] + Unescape(rest, after)
  {
    Flips(b);
    var s := Code(b) + rest;
    if Special(b) {
      assert s[2..] == rest;
    } else {
      assert s[1..] == rest;
    }
  }

  /** A checksum's own digits are received as that checksum. */
  lemma DigitsReceived(sum: byte)
    ensures Received(Digits(sum)[0], Digits(sum)[1]) == sum
  {
    HexDigit(sum >> 4);
    HexDigit(sum & 0xf);
  }

  lemma HexDigit(n: byte)
    requires n < 16
    ensures Hex(HexChar(n)) == n
  {}

  // ---- The reader on a stream ----

  lemma {:induction false} HuntSkips(junk: seq<byte>, rest: seq<byte>)
    requires DOLLAR !in junk
    ensures Hunt(junk + rest) == Hunt(rest)
    decreases |junk|
  {
    if junk == [] {
      assert junk + rest == rest;
    } else {
      assert (junk + rest)[1..] == junk[1..] + rest;
      HuntSkips(junk[1..], rest);
    }
  }

  /** A clean body short enough for the buffer is collected whole. */
  lemma {:induction false} Collects(body: seq<byte>, more: seq<byte>, rest: seq<byte>)
    requires Clean(more) && |body| + |more| <= GDB_BUF_MAX - 2
    ensures Collect(more + [HASH] + rest, body) == Validate(rest, body + more)
    decreases |more|
  {
    var input := more + [HASH] + rest;
    if more == [] {
      assert input[1..] == rest;
      assert body + more == body;
    } else {
      assert input[1..] == more[1..] + [HASH] + rest;
      Collects(body + [more[0]], more[1..], rest);
      assert body + [more[0]] + more[1..] == body + more;
    }
  }

  /** A frame whose body fits goes to the comparison of its checksums. */
  lemma HuntFrame(body: seq<byte>, digits: seq<byte>, rest: seq<byte>)
    requires Clean(body) && |body| <= GDB_BUF_MAX - 2
    ensures Hunt(Framed(body, digits) + rest) == Validate(digits + rest, body)
  {
    var input := Framed(body, digits) + rest;
    assert input[1..] == body + [HASH] + (digits + rest);
    Collects([], body, digits + rest);
    assert [] + body == body;
  }

  /** A frame one byte or more too long is read past without an answer. */
  lemma {:induction false} Overruns(body: seq<byte>, more: seq<byte>, rest: seq<byte>)
    requires Clean(more) && |body| <= GDB_BUF_MAX - 1 <= |body| + |more|
    ensures Collect(more + rest, body) == Hunt(rest)
    decreases |more|
  {
    if |body| == GDB_BUF_MAX - 1 {
      HuntSkips(more, rest);
    } else {
      assert (more + rest)[1..] == more[1..] + rest;
      Overruns(body + [more[0]], more[1..], rest);
    }
  }

  // ---- The protocol ----

  /** Line noise, then a complete frame in size with the wrong checksum. */
  datatype Bad = Bad(junk: seq<byte>, body: seq<byte>, high: byte, low: byte)

  predicate IsBad(b: Bad) {
    && DOLLAR !in b.junk && Clean(b.body) && |b.body| <= GDB_BUF_MAX - 2
    && Received(b.high, b.low) != Checksum(b.body)
  }

  function Wire(bads: seq<Bad>): seq<byte>
    decreases |bads|
  {
    if bads == [] then []
    else bads[0].junk + Framed(bads[0].body, [bads[0].high, bads[0].low]) + Wire(bads[1..])
  }

  function Refusals(n: nat): seq<byte> {
    if n == 0 then [] else [MINUS] + Refusals(n - 1)
  }

  function AfterRefusals(n: nat, r: Reading): Reading {
    if n == 0 then r else Answering(MINUS, AfterRefusals(n - 1, r))
  }

  /** Each bad frame is refused once, and the reader is then where it would have been without it. */
  lemma {:induction false} RefusesBad(bads: seq<Bad>, rest: seq<byte>)
    requires forall i :: 0 <= i < |bads| ==> IsBad(bads[i])
    ensures Hunt(Wire(bads) + rest) == AfterRefusals(|bads|, Hunt(rest))
    decreases |bads|
  {
    hide Received, Checksum, Hunt;
    if bads == [] {
      assert Wire(bads) + rest == rest;
    } else {
      var b := bads[0];
      var digits := [b.high, b.low];
      var later := Wire(bads[1..]) + rest;
      assert Wire(bads) + rest == b.junk + (Framed(b.body, digits) + later);
      HuntSkips(b.junk, Framed(b.body, digits) + later);
      HuntFrame(b.body, digits, later);
      assert (digits + later)[2..] == later;
      RefusesBad(bads[1..], rest);
    }
  }

  lemma {:induction false} RefusalsFirst(n: nat, body: seq<byte>, answers: seq<byte>, rest: seq<byte>)
    ensures AfterRefusals(n, Packet(body, answers, rest)) == Packet(body, Refusals(n) + answers, rest)
    decreases n
  {
    if n > 0 {
      RefusalsFirst(n - 1, body, answers, rest);
      assert Refusals(n) + answers == [MINUS] + (Refusals(n - 1) + answers);
    } else {
      assert Refusals(0) + answers == answers;
    }
  }

  /** A sent frame is delivered exactly when its escaped body fits the buffer. When it fits, it
      is acknowledged and its body handed over; when it does not, it is passed over in silence. */
  lemma FrameDelivered(data: seq<byte>, rest: seq<byte>)
    ensures Hunt(Frame(data) + rest) ==
      if |Escape(data)| <= GDB_BUF_MAX - 2 then Packet(Escape(data), [PLUS], rest) else Hunt(rest)
  {
    hide Hunt, Received, Checksum, HexChar, Digits;
    var body := Escape(data);
    var digits := Digits(Checksum(body));
    EscapeClean(data);
    if |body| <= GDB_BUF_MAX - 2 {
      HuntFrame(body, digits, rest);
      DigitsReceived(Checksum(body));
      TwoDigits(Checksum(body), rest);
    } else {
      DropsFrame(body, Checksum(body), rest);
    }
  }

  lemma TwoDigits(sum: byte, rest: seq<byte>)
    ensures |Digits(sum)| == 2 && (Digits(sum) + rest)[2..] == rest
    ensures (Digits(sum) + rest)[0] == Digits(sum)[0] && (Digits(sum) + rest)[1] == Digits(sum)[1]
    ensures DOLLAR !in Digits(sum)
  {
    NotMarks(sum >> 4);
    NotMarks(sum & 0xf);
  }

  lemma NotMarks(n: byte)
    requires n < 16
    ensures HexChar(n) != DOLLAR
  {}

  lemma DropsFrame(body: seq<byte>, sum: byte, rest: seq<byte>)
    requires Clean(body) && |body| > GDB_BUF_MAX - 2
    ensures Hunt(Framed(body, Digits(sum)) + rest) == Hunt(rest)
  {
    hide Digits;
    var input := Framed(body, Digits(sum)) + rest;
    var tail := [HASH] + Digits(sum);
    assert input[1..] == body + (tail + rest);
    Overruns([], body, tail + rest);
    TwoDigits(sum, rest);
    HuntSkips(tail, rest);
  }

  /** Through any noise and any number of corrupted frames, the reader refuses each corrupted
      frame, acknowledges the good one, and hands over a body that unescapes to what was sent. */
  lemma PacketRoundTrip(bads: seq<Bad>, junk: seq<byte>, data: seq<byte>, rest: seq<byte>, after: byte)
    requires forall i :: 0 <= i < |bads| ==> IsBad(bads[i])
    requires DOLLAR !in junk && |Escape(data)| <= GDB_BUF_MAX - 2
    ensures var r := Hunt(Wire(bads) + (junk + (Frame(data) + rest)));
            r == Packet(Escape(data), Refusals(|bads|) + [PLUS], rest) && Unescape(r.body, after) == data
  {
    hide Hunt, Frame;
    RefusesBad(bads, junk + (Frame(data) + rest));
    HuntSkips(junk, Frame(data) + rest);
    FrameDelivered(data, rest);
    RefusalsFirst(|bads|, Escape(data), [PLUS], rest);
    UnescapeEscape(data, after);
  }
}
