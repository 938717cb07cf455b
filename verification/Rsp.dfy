/** The remote serial connection: reading and sending packets a character at a time, and undoing
    escapes in place. */
module Rsp {
  import opened RspFraming

  /** A reading whose answers come after some already given. */
  function Given(answers: seq<byte>, r: Reading): Reading {
    match r
    case Packet(body, later, rest) => Packet(body, answers + later, rest)
    case Closed(later) => Closed(answers + later)
  }

  lemma GivenMore(answers: seq<byte>, answer: byte, r: Reading)
    ensures Given(answers, Answering(answer, r)) == Given(answers + [answer], r)
    ensures Given([], r) == r
  {
    match r
    case Packet(body, later, rest) =>
      assert answers + ([answer] + later) == answers + [answer] + later;
      assert [] + later == later;
    case Closed(later) =>
      assert answers + ([answer] + later) == answers + [answer] + later;
      assert [] + later == later;
  }

  /** How often a packet is sent: until an acknowledgement, or until there is nothing to read. */
  function Sendings(replies: seq<byte>): (n: nat)
    ensures 1 <= n <= |replies| + 1
  {
    if replies == [] || replies[0] == PLUS then 1 else 1 + Sendings(replies[1..])
  }

  function Repeated(s: seq<byte>, n: nat): seq<byte> {
    if n == 0 then [] else Repeated(s, n - 1) + s
  }

  /** What has been told once `s` is sent, which a closed connection does not do. */
  function Told(output: seq<byte>, s: seq<byte>, open: bool): seq<byte> {
    if open then output + s else output
  }

  lemma ToldTwice(output: seq<byte>, s: seq<byte>, t: seq<byte>, open: bool)
    ensures Told(Told(output, s, open), t, open) == Told(output, s + t, open)
  {
    assert output + s + t == output + (s + t);
  }

  class Connection {
    var open: bool
    /** What the peer has yet to say before closing its end, and what it has been told. */
    var input: seq<byte>
    var output: seq<byte>

    function Incoming(): seq<byte>
      reads this
    {
      if open then input else []
    }

    /** `get_rsp_char`: false at the end, after which the connection is closed. */
    method GetChar() returns (got: bool, c: byte)
      modifies this
      ensures output == old(output)
      ensures got == (old(Incoming()) != [])
      ensures got ==> open && c == old(input)[0] && input == old(input)[1..]
      ensures !got ==> !open && Incoming() == []
    {
      c := 0;
      if !open || input == [] {
        open := false;
        return false, 0;
      }
      c := input[0];
      input := input[1..];
      return true, c;
    }

    /** `put_rsp_char`: ignored once the connection is closed. */
    method PutChar(c: byte)
      modifies this`output
      ensures output == Told(old(output), [c], open)
    {
      if open {
        output := output + [c];
      }
    }

    // ---- Reading a packet ----

    /** Waits for a start mark. */
    method SkipToStart() returns (found: bool)
      modifies this
      ensures output == old(output)
      ensures found ==> open && |Incoming()| < |old(Incoming())| && Hunt(old(Incoming())) == Collect(Incoming(), [])
      ensures !found ==> !open && Hunt(old(Incoming())) == Closed([])
    {
      hide Collect;
      var got, ch := GetChar();
      while !got || ch != DOLLAR
        invariant output == old(output)
        invariant got ==> open && |Incoming()| < |old(Incoming())|
        invariant !got ==> !open && Incoming() == []
        invariant Hunt(old(Incoming())) == if got && ch == DOLLAR then Collect(Incoming(), []) else Hunt(Incoming())
        decreases |Incoming()|, got
      {
        if !got {
          return false;
        }
        got, ch := GetChar();
      }
      found := true;
    }

    /** Reads a body into the buffer, up to an end mark or until the buffer is full. */
    method CollectBody(buf: array<byte>) returns (got: bool, ended: bool, count: nat, checksum: byte)
      requires buf.Length == GDB_BUF_MAX
      modifies this, buf
      ensures output == old(output) && |Incoming()| <= |old(Incoming())|
      ensures !got ==> !open && Collect(old(Incoming()), []) == Closed([])
      ensures got ==> count < GDB_BUF_MAX && checksum == Checksum(buf[..count])
      ensures got ==> Collect(old(Incoming()), []) == if ended then Validate(Incoming(), buf[..count]) else Hunt(Incoming())
    {
      hide Hunt, Validate, Collect, Checksum;
      got, ended, count, checksum := true, false, 0, 0;
      assert buf[..0] == [];
      Nothing();
      while count < GDB_BUF_MAX - 1
        invariant count < GDB_BUF_MAX && output == old(output) && |Incoming()| <= |old(Incoming())|
        invariant got && !ended && checksum == Checksum(buf[..count])
        invariant Collect(old(Incoming()), []) == Collect(Incoming(), buf[..count])
        decreases |Incoming()|
      {
        var ch;
        CollectStep(Incoming(), buf[..count]);
        ghost var body := buf[..count];
        got, ch := GetChar();
        if !got {
          return;
        }
        if ch == DOLLAR {
          checksum, count := 0, 0;
          assert buf[..0] == [];
          continue;
        }
        if ch == HASH {
          ended := true;
          return;
        }
        checksum := checksum + ch;
        buf[count] := ch;
        count := count + 1;
        ChecksumAppends(body, ch);
        assert buf[..count] == body + [ch];
      }
      CollectFull(Incoming(), buf[..count]);
    }

    /** What one more character does to a body that is being collected. */
    static lemma CollectStep(input: seq<byte>, body: seq<byte>)
      requires |body| < GDB_BUF_MAX - 1
      ensures Collect(input, body) ==
        if input == [] then Closed([])
        else if input[0] == DOLLAR then Collect(input[1..], [])
        else if input[0] == HASH then Validate(input[1..], body)
        else Collect(input[1..], body + [input[0]])
    {}

    static lemma CollectFull(input: seq<byte>, body: seq<byte>)
      requires |body| == GDB_BUF_MAX - 1
      ensures Collect(input, body) == Hunt(input)
    {}

    static lemma ValidateCases(input: seq<byte>, body: seq<byte>)
      ensures |input| < 2 ==> Validate(input, body) == Closed([])
      ensures |input| >= 2 && Received(input[0], input[1]) == Checksum(body) ==>
        Validate(input, body) == Packet(body, [PLUS], input[2..])
      ensures |input| >= 2 && Received(input[0], input[1]) != Checksum(body) ==>
        Validate(input, body) == Answering(MINUS, Hunt(input[2..]))
    {}

    /** Reads the two checksum digits, compares, and answers. */
    method Verify(checksum: byte, ghost body: seq<byte>) returns (got: bool, good: bool)
      requires checksum == Checksum(body)
      modifies this
      ensures |Incoming()| <= |old(Incoming())|
      ensures !got ==> !open && output == old(output) && Validate(old(Incoming()), body) == Closed([])
      ensures got ==> open && output == old(output) + [if good then PLUS else MINUS]
      ensures got && good ==> Validate(old(Incoming()), body) == Packet(body, [PLUS], input)
      ensures got && !good ==> Validate(old(Incoming()), body) == Answering(MINUS, Hunt(Incoming()))
    {
      hide Hunt, Checksum, Received, Validate;
      ValidateCases(Incoming(), body);
      var high, low;
      good := false;
      got, high := GetChar();
      if !got {
        return;
      }
      got, low := GetChar();
      if !got {
        return;
      }
      good := checksum == Received(high, low);
      if good {
        PutChar(PLUS);
      } else {
        PutChar(MINUS);
      }
    }

    /** Whether the buffer, the answers and the stream are what a reading calls for. */
    twostate predicate Delivered(r: Reading, buf: array<byte>, ok: bool, len: nat)
      reads this, buf
    {
      match r
      case Packet(body, answers, rest) =>
        && ok && open && len < buf.Length && buf[..len] == body && buf[len] == 0
        && output == old(output) + answers && input == rest
      case Closed(answers) => !ok && !open && output == old(output) + answers
    }

    /** One pass of the loop in `get_packet`: finds a start, reads a body and checks it. */
    method TryPacket(buf: array<byte>) returns (got: bool, good: bool, refused: bool, len: nat)
      requires buf.Length == GDB_BUF_MAX
      modifies this, buf
      ensures !got ==> !open && output == old(output) && Hunt(old(Incoming())) == Closed([])
      ensures got ==> |Incoming()| < |old(Incoming())|
      ensures got && good ==> open && len < GDB_BUF_MAX && buf[len] == 0 && output == old(output) + [PLUS]
                              && Hunt(old(Incoming())) == Packet(buf[..len], [PLUS], input)
      ensures got && !good && refused ==> output == old(output) + [MINUS]
                                          && Hunt(old(Incoming())) == Answering(MINUS, Hunt(Incoming()))
      ensures got && !good && !refused ==> output == old(output) && Hunt(old(Incoming())) == Hunt(Incoming())
    {
      hide Hunt, Collect, Checksum, Received, Validate;
      good, refused, len := false, false, 0;
      got := SkipToStart();
      if !got {
        return;
      }
      var ended, checksum;
      got, ended, len, checksum := CollectBody(buf);
      if !got {
        return;
      }
      ghost var body := buf[..len];
      buf[len] := 0;
      assert buf[..len] == body;
      if ended {
        got, good := Verify(checksum, body);
        refused := !good;
      }
    }

    /** `get_packet`: keeps reading until a packet has a valid checksum. */
    method GetPacket(buf: array<byte>) returns (ok: bool, len: nat)
      requires buf.Length == GDB_BUF_MAX
      modifies this, buf
      ensures Delivered(Hunt(old(Incoming())), buf, ok, len)
    {
      hide Hunt;
      ghost var r := Hunt(Incoming());
      ghost var answers: seq<byte> := [];
      GivenMore([], 0, r);
      while true
        invariant output == old(output) + answers
        invariant r == Given(answers, Hunt(Incoming()))
        decreases |Incoming()|
      {
        var got, good, refused;
        got, good, refused, len := TryPacket(buf);
        if !got || good {
          return got, len;
        }
        if refused {
          GivenMore(answers, MINUS, Hunt(Incoming()));
          answers := answers + [MINUS];
        }
      }
    }

    // ---- Sending a packet ----

    /** Sends one data byte, escaped if need be, and adds what it sent to the checksum. */
    method SendByte(b: byte, before: byte) returns (checksum: byte)
      modifies this`output
      ensures output == Told(old(output), Code(b), open)
      ensures checksum == if Special(b) then before + BRACE + Flip(b) else before + b
    {
      hide Special, Flip;
      var ch := b;
      checksum := before;
      if Special(ch) {
        ch := Flip(ch);
        checksum := checksum + BRACE;
        PutChar(BRACE);
        ToldTwice(old(output), [BRACE], [ch], open);
      }
      checksum := checksum + ch;
      PutChar(ch);
    }

    static lemma CodeSum(s: seq<byte>, b: byte)
      ensures Checksum(s + Code(b)) == if Special(b) then Checksum(s) + BRACE + Flip(b) else Checksum(s) + b
    {
      hide Checksum, Special, Flip;
      ChecksumAppends(s, b);
      ChecksumAppends(s, BRACE);
      ChecksumAppends(s + [BRACE], Flip(b));
      assert s + [BRACE, Flip(b)] == s + [BRACE] + [Flip(b)];
    }

    /** What is sent of a packet before its end mark, when `k` bytes of data have gone. */
    static function Begun(data: seq<byte>, k: nat): seq<byte>
      requires k <= |data|
    {
      [DOLLAR] + Escape(data[..k])
    }

    /** The checksum at that point. */
    static function SumTo(data: seq<byte>, k: nat): byte
      requires k <= |data|
    {
      Checksum(Escape(data[..k]))
    }

    static lemma Begins(data: seq<byte>)
      ensures Begun(data, 0) == [DOLLAR] && SumTo(data, 0) == 0
    {}

    static lemma BegunMore(data: seq<byte>, k: nat)
      requires k < |data|
      ensures Begun(data, k + 1) == Begun(data, k) + Code(data[k])
      ensures SumTo(data, k + 1) == if Special(data[k]) then SumTo(data, k) + BRACE + Flip(data[k]) else SumTo(data, k) + data[k]
    {
      hide Code, Special, Checksum, Flip;
      assert data[..k + 1][..k] == data[..k];
      CodeSum(Escape(data[..k]), data[k]);
    }

    static lemma Ends(data: seq<byte>)
      ensures Begun(data, |data|) + ([HASH] + Digits(SumTo(data, |data|))) == Frame(data)
    {
      hide Escape, Digits, Checksum;
      assert data[..|data|] == data;
    }

    /** Sends one copy of a packet. */
    method SendFrame(data: array<byte>, len: nat)
      requires len <= data.Length
      modifies this`output
      ensures output == Told(old(output), Frame(data[..len]), open)
    {
      hide Special, Flip, Code, Begun, SumTo, Frame, Told, Digits;
      ghost var bytes := data[..len];
      var checksum: byte := 0;
      Begins(bytes);
      PutChar(DOLLAR);
      var count := 0;
      while count < len
        invariant count <= len && checksum == SumTo(bytes, count)
        invariant output == Told(old(output), Begun(bytes, count), open)
      {
        assert data[count] == bytes[count];
        BegunMore(bytes, count);
        ToldTwice(old(output), Begun(bytes, count), Code(bytes[count]), open);
        checksum := SendByte(data[count], checksum);
        count := count + 1;
      }
      SendTrailer(checksum);
      ToldTwice(old(output), Begun(bytes, len), [HASH] + Digits(checksum), open);
      Ends(bytes);
    }

    /** The end mark and the checksum. */
    method SendTrailer(checksum: byte)
      modifies this`output
      ensures output == Told(old(output), [HASH] + Digits(checksum), open)
    {
      hide HexChar, Told;
      var high, low := HexChar(checksum >> 4), HexChar(checksum & 0xf);
      PutChar(HASH);
      PutChar(high);
      ToldTwice(old(output), [HASH], [high], open);
      PutChar(low);
      ToldTwice(old(output), [HASH] + [high], [low], open);
      assert [HASH] + [high] + [low] == [HASH] + Digits(checksum);
    }

    static lemma Nothing()
      ensures Escape([]) == [] && Checksum([]) == 0
    {}

    static lemma ChecksumAppends(s: seq<byte>, b: byte)
      ensures Checksum(s + [b]) == Checksum(s) + b
    {
      assert (s + [b])[..|s|] == s;
    }

    /** `put_packet`: sends the packet, again and again, until it is acknowledged or the
        connection closes. */
    method PutPacket(data: array<byte>, len: nat)
      requires len <= data.Length
      modifies this
      ensures old(open) ==> output == old(output) + Repeated(Frame(data[..len]), Sendings(old(input)))
      ensures old(open) ==> if Sendings(old(input)) <= |old(input)| then open && input == old(input)[Sendings(old(input))..] else !open
      ensures !old(open) ==> output == old(output) && !open
    {
      hide Frame, Repeated, Sendings, Told;
      ghost var frame, start, total := Frame(data[..len]), input, Sendings(input);
      ghost var n := 0;
      NoneRepeated(frame);
      ToldAll(output, []);
      while true
        invariant open == old(open)
        invariant open ==> n <= |start| && input == start[n..] && n + Sendings(input) == total
        invariant output == Told(old(output), Repeated(frame, n), open)
        decreases |Incoming()|
      {
        SendFrame(data, len);
        OnceMore(old(output), frame, n, open);
        NextSending(input);
        var got, ch := GetChar();
        Dropped(start, n);
        n := n + 1;
        if !got || ch == PLUS {
          assert old(open) ==> n == total;
          ToldAll(old(output), Repeated(frame, n));
          return;
        }
      }
    }
  }

  lemma ToldAll(output: seq<byte>, s: seq<byte>)
    ensures Told(output, s, true) == output + s && Told(output, s, false) == output
    ensures s == [] ==> output + s == output
  {}

  lemma Dropped(s: seq<byte>, n: nat)
    ensures n < |s| ==> s[n..] != [] && s[n..][0] == s[n] && s[n..][1..] == s[n + 1..]
    ensures n == |s| ==> s[n..] == []
  {}

  lemma NoneRepeated(s: seq<byte>)
    ensures Repeated(s, 0) == []
  {}

  lemma OnceMore(output: seq<byte>, s: seq<byte>, n: nat, open: bool)
    ensures Told(Told(output, Repeated(s, n), open), s, open) == Told(output, Repeated(s, n + 1), open)
  {
    ToldTwice(output, Repeated(s, n), s, open);
  }

  lemma NextSending(replies: seq<byte>)
    ensures Sendings(replies) == if replies == [] || replies[0] == PLUS then 1 else 1 + Sendings(replies[1..])
  {}

  // ---- Undoing escapes ----

  /** `rsp_unescape`: replaces an escaped body by the data it stands for, in place. */
  method RspUnescape(data: array<byte>, len: nat) returns (toOff: nat)
    requires len < data.Length
    modifies data
    ensures toOff <= len && data[..toOff] == Unescape(old(data[..len]), old(data[len]))
    ensures data[toOff..] == old(data[toOff..])
  {
    hide Flip, Unescape, From;
    ghost var body, after := data[..len], data[len];
    ghost var was := data[..];
    var fromOff := 0;
    toOff := 0;
    FromEnds(body, after);
    while fromOff < len
      invariant toOff <= fromOff <= len + 1 && toOff <= len
      invariant forall i :: toOff <= i < data.Length ==> data[i] == was[i]
      invariant Unescape(body, after) == data[..toOff] + Unescape(From(body, fromOff), after)
    {
      ghost var done := data[..toOff];
      UnescapeStep(body, fromOff, after);
      if data[fromOff] == BRACE {
        fromOff := fromOff + 1;
        data[toOff] := Flip(data[fromOff]);
      } else {
        data[toOff] := data[fromOff];
      }
      fromOff := fromOff + 1;
      toOff := toOff + 1;
      Regroup(done, data[toOff - 1], Unescape(From(body, fromOff), after));
      assert data[..toOff] == done + [data[toOff - 1]];
    }
    Whole(body, fromOff, after, data[..toOff]);
  }

  /** What is left of a body from `k` on. */
  function From(body: seq<byte>, k: nat): seq<byte> {
    if k <= |body| then body[k..] else []
  }

  lemma Regroup(done: seq<byte>, b: byte, rest: seq<byte>)
    ensures done + ([b] + rest) == done + [b] + rest
  {}

  lemma FromEnds(body: seq<byte>, after: byte)
    ensures Unescape(body, after) == [] + Unescape(From(body, 0), after)
  {}

  lemma Whole(body: seq<byte>, k: nat, after: byte, done: seq<byte>)
    requires k >= |body|
    ensures done + Unescape(From(body, k), after) == done
  {}

  /** One step from the front of what is left. */
  lemma UnescapeStep(body: seq<byte>, k: nat, after: byte)
    requires k < |body|
    ensures Unescape(From(body, k), after) ==
      if body[k] == BRACE then
        [Flip(if k + 1 < |body| then body[k + 1] else after)] + Unescape(From(body, k + 2), after)
      else [body[k]] + Unescape(From(body, k + 1), after)
  {
    hide Flip;
    var s := body[k..];
    if body[k] == BRACE {
      if k + 1 < |body| {
        assert s[2..] == body[k + 2..];
      }
    } else {
      assert s[1..] == body[k + 1..];
    }
  }
}
