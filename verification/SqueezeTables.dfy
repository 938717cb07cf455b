/** The delta-coded word tables of a squeezed module: the format as a list of steps, its bytes,
    and the decoder that inverts it. */
module SqueezeTables {
  import opened Bytes

  /** One past the largest word. */
  const WRAP := 0x1_0000_0000

  /** What one step of a table's code says: a run of successive entries, or the distance of the
      next entry from the last, in one of four sizes. */
  datatype Token = Ones(count: nat) | Near(gap: nat) | Middle(gap: nat) | Far(gap: nat) | Literal(gap: nat)

  /** Bytes of a literal distance in the table of short codes, and in that of long ones. */
  function LiteralSize(shorts: bool): (n: nat)
    ensures n == 3 || n == 4
  {
    if shorts then 4 else 3
  }

  predicate Legal(t: Token, shorts: bool) {
    match t
    case Ones(count) => 1 <= count <= 9
    case Near(gap) => gap < 82
    case Middle(gap) => gap < 82 * 0x100
    case Far(gap) => gap < 82 * 0x1_0000
    case Literal(gap) => gap < Pow256(LiteralSize(shorts))
  }

  function TokenBytes(t: Token, shorts: bool): (s: seq<byte>)
    requires Legal(t, shorts)
    ensures |s| >= 1
  {
    match t
    case Ones(count) => [count as byte]
    case Near(gap) => [(10 + gap) as byte]
    case Middle(gap) => [(92 + gap / 0x100) as byte, (gap % 0x100) as byte]
    case Far(gap) => [(174 + gap / 0x1_0000) as byte, (gap % 0x100) as byte, (gap / 0x100 % 0x100) as byte]
    case Literal(gap) => [0] + Enc(gap, LiteralSize(shorts))
  }

  function Run(prev: nat, count: nat): (s: seq<nat>)
    ensures |s| == count
  {
    if count == 0 then [] else Run(prev, count - 1) + [(prev + count) % WRAP]
  }

  /** The entries a token adds after `prev`. */
  function Entries(t: Token, prev: nat): (s: seq<nat>)
    ensures t.Ones? ==> |s| == t.count
    ensures !t.Ones? ==> |s| == 1
  {
    if t.Ones? then Run(prev, t.count) else [(prev + t.gap) % WRAP]
  }

  function Last(t: Token, prev: nat): nat {
    (prev + if t.Ones? then t.count else t.gap) % WRAP
  }

  predicate AllLegal(ts: seq<Token>, shorts: bool) {
    forall i :: 0 <= i < |ts| ==> Legal(ts[i], shorts)
  }

  function TableBytes(ts: seq<Token>, shorts: bool): seq<byte>
    requires AllLegal(ts, shorts)
  {
    if ts == [] then [] else TokenBytes(ts[0], shorts) + TableBytes(ts[1..], shorts)
  }

  function Expand(ts: seq<Token>, prev: nat): seq<nat> {
    if ts == [] then [] else Entries(ts[0], prev) + Expand(ts[1..], Last(ts[0], prev))
  }

  // ---- The decoder ----

  /** A decoded table and the bytes after it, or a table that runs off the end of its bytes. */
  datatype Decoded = Table(entries: seq<nat>, rest: seq<byte>) | RanOut

  function After(entries: seq<nat>, d: Decoded): Decoded {
    if d.RanOut? then RanOut else Table(entries + d.entries, d.rest)
  }

  /** The token at the front of the bytes, and how many bytes it takes. */
  function Front(s: seq<byte>, shorts: bool): (r: (Token, nat))
    requires s != []
    ensures 1 <= r.1 <= 5
  {
    var b := s[0] as nat;
    var at := (k: nat) => if k < |s| then s[k] as nat else 0;
    if 10 <= b < 92 then (Near(b - 10), 1)
    else if b >= 174 then (Far(at(1) + at(2) * 0x100 + (b - 174) * 0x1_0000), 3)
    else if b >= 92 then (Middle((b - 92) * 0x100 + at(1)), 2)
    else if b == 0 then
      var n := LiteralSize(shorts);
      (Literal(if |s| > n then Dec(s[1..1 + n]) else 0), 1 + n)
    else (Ones(b), 1)
  }

  /** Decodes entries until `n` or more have been produced; a run may go beyond. */
  function Decode(s: seq<byte>, n: int, prev: nat, shorts: bool): (d: Decoded)
    decreases |s|
  {
    if n <= 0 then Table([], s)
    else if s == [] then RanOut
    else
      var (t, used) := Front(s, shorts);
      if used > |s| then RanOut
      else
        var entries := Entries(t, prev);
        After(entries, Decode(s[used..], n - |entries|, Last(t, prev), shorts))
  }

  // ---- Decoding inverts the format ----

  lemma FrontOfToken(t: Token, shorts: bool, rest: seq<byte>)
    requires Legal(t, shorts)
    ensures var s := TokenBytes(t, shorts) + rest;
            Front(s, shorts) == (t, |TokenBytes(t, shorts)|) && s[|TokenBytes(t, shorts)|..] == rest
  {
    hide Enc, Dec, Pow256;
    var s := TokenBytes(t, shorts) + rest;
    match t
    case Literal(gap) =>
      var n := LiteralSize(shorts);
      assert s[1..1 + n] == Enc(gap, n);
      DecEnc(gap, n);
    case _ =>
  }

  /** A table coded by any list of legal tokens decodes to exactly the entries the tokens stand
      for, and the decoder stops exactly at its end. */
  lemma {:induction false} TableRoundTrip(ts: seq<Token>, prev: nat, shorts: bool, rest: seq<byte>)
    requires AllLegal(ts, shorts)
    ensures Decode(TableBytes(ts, shorts) + rest, |Expand(ts, prev)|, prev, shorts) == Table(Expand(ts, prev), rest)
    decreases |ts|
  {
    hide Front, TokenBytes, Entries, Last, Legal;
    if ts == [] {
      assert TableBytes(ts, shorts) + rest == rest;
    } else {
      var t, more := ts[0], TableBytes(ts[1..], shorts) + rest;
      var s := TokenBytes(t, shorts) + more;
      assert TableBytes(ts, shorts) + rest == s;
      FrontOfToken(t, shorts, more);
      SomeEntries(t, prev, shorts);
      TableRoundTrip(ts[1..], Last(t, prev), shorts, rest);
    }
  }

  lemma SomeEntries(t: Token, prev: nat, shorts: bool)
    requires Legal(t, shorts)
    ensures |Entries(t, prev)| >= 1
  {}

  // ---- Every table has a code ----

  /** The cheapest token for a distance. */
  function Distance(gap: nat): Token {
    if gap < 82 then Near(gap) else if gap < 82 * 0x100 then Middle(gap)
    else if gap < 82 * 0x1_0000 then Far(gap) else Literal(gap)
  }

  /** Entries of a long table only matter modulo 2^24, which is all its literals can say. */
  function Modulus(shorts: bool): (m: nat)
    ensures m > 0
  {
    if shorts then WRAP else 0x100_0000
  }

  function Code(entries: seq<nat>, prev: nat, shorts: bool): (ts: seq<Token>)
    ensures |ts| == |entries|
  {
    if entries == [] then []
    else
      var t := Distance((entries[0] - prev) % Modulus(shorts));
      [t] + Code(entries[1..], Last(t, prev), shorts)
  }

  lemma {:induction false} CodeStandsFor(entries: seq<nat>, prev: nat, shorts: bool)
    ensures AllLegal(Code(entries, prev, shorts), shorts)
    ensures var e := Expand(Code(entries, prev, shorts), prev);
            |e| == |entries| && forall i :: 0 <= i < |e| ==> e[i] < WRAP && e[i] % Modulus(shorts) == entries[i] % Modulus(shorts)
    decreases |entries|
  {
    hide Distance;
    if entries != [] {
      var gap := (entries[0] - prev) % Modulus(shorts);
      var t := Distance(gap);
      DistanceLegal(gap, shorts);
      CodeStandsFor(entries[1..], Last(t, prev), shorts);
      Congruent(entries[0], prev, shorts);
      var ts := Code(entries, prev, shorts);
      assert ts[1..] == Code(entries[1..], Last(t, prev), shorts);
    }
  }

  lemma DistanceLegal(gap: nat, shorts: bool)
    requires gap < Modulus(shorts)
    ensures Legal(Distance(gap), shorts) && !Distance(gap).Ones? && Distance(gap).gap == gap
  {
    assert Pow256(3) == 0x100_0000 && Pow256(4) == WRAP;
  }

  lemma Congruent(e: nat, prev: nat, shorts: bool)
    ensures var m := Modulus(shorts);
            (prev + (e - prev) % m) % WRAP % m == e % m
  {
    if shorts { CongruentWord(e, prev); } else { CongruentLong(e, prev); }
  }

  lemma CongruentWord(e: nat, prev: nat)
    ensures (prev + (e - prev) % WRAP) % WRAP == e % WRAP
  {
    var q := (e - prev) / WRAP;
    assert prev + (e - prev) % WRAP == e - q * WRAP;
  }

  lemma CongruentLong(e: nat, prev: nat)
    ensures (prev + (e - prev) % 0x100_0000) % WRAP % 0x100_0000 == e % 0x100_0000
  {
    var q := (e - prev) / 0x100_0000;
    var x := prev + (e - prev) % 0x100_0000;
    assert x == e - q * 0x100_0000;
    assert x % WRAP == x - x / WRAP * 0x100 * 0x100_0000;
  }

  /** The bytes 1-9 stand for so many entries one apart, 10-91 for a distance of up to 81; 92-173
      and 174-255 begin distances of two and three bytes, and 0 a literal one of three or four. */
  lemma BytesMean(s: seq<byte>, shorts: bool)
    requires |s| >= 5
    ensures var b, f := s[0] as nat, Front(s, shorts);
            if b == 0 then f == (Literal(Dec(if shorts then s[1..5] else s[1..4])), if shorts then 5 else 4)
            else if b <= 9 then f == (Ones(b), 1)
            else if b <= 91 then f == (Near(b - 10), 1)
            else if b <= 173 then f == (Middle(0x100 * (b - 92) + s[1] as nat), 2)
            else f == (Far(0x1_0000 * (b - 174) + 0x100 * s[2] as nat + s[1] as nat), 3)
  {
    hide Dec;
  }
}
