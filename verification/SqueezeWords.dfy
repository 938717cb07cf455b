/** The nibble-coded words of a squeezed module, laid out to be read from their end: the format
    and the decoder that inverts it. */
module SqueezeWords {
  import opened Bytes
  import opened SqueezeTables

  /** How one word is coded: zero, itself, an entry of the short table, or an entry of the long
      table with a low byte. */
  datatype Coding = Zero | Itself(w: nat) | ShortAt(index: nat) | LongAt(index: nat, low: byte)

  /** The nibbles that stand for the first 256 entries of each table. */
  const MINSHORT := 9
  const MINLONG := 2

  /** The two tables lie one after the other; long codes count from `base`. */
  datatype Tables = Tables(table: seq<nat>, base: nat)

  predicate Fits(c: Coding, t: Tables) {
    match c
    case Zero => true
    case Itself(w) => w < WRAP
    case ShortAt(index) => index < 7 * 0x100 && index < |t.table|
    case LongAt(index, low) => index < 7 * 0x100 && t.base + index < |t.table|
  }

  function LongWord(entry: nat, low: byte): nat {
    entry * 0x100 % WRAP + low as nat
  }

  function Value(c: Coding, t: Tables): nat
    requires Fits(c, t)
  {
    match c
    case Zero => 0
    case Itself(w) => w
    case ShortAt(index) => t.table[index]
    case LongAt(index, low) => LongWord(t.table[t.base + index], low)
  }

  function Nibble(c: Coding): (n: nat)
    requires c.ShortAt? || c.LongAt? ==> c.index < 7 * 0x100
    ensures n < 16
  {
    match c
    case Zero => 0
    case Itself(w) => 1
    case ShortAt(index) => MINSHORT + index / 0x100
    case LongAt(index, low) => MINLONG + index / 0x100
  }

  /** The bytes after the nibble, in the order they lie in memory: the last is read first. */
  function Behind(c: Coding): seq<byte> {
    match c
    case Zero => []
    case Itself(w) => var e := Enc(w, 4); [e[3], e[2], e[1], e[0]]
    case ShortAt(index) => [(index % 0x100) as byte]
    case LongAt(index, low) => [low, (index % 0x100) as byte]
  }

  predicate AllFit(cs: seq<Coding>, t: Tables) {
    forall i :: 0 <= i < |cs| ==> Fits(cs[i], t)
  }

  /** Two words: one byte with both nibbles, and in front of it what each needs. */
  function PairBytes(c0: Coding, c1: Coding, t: Tables): seq<byte>
    requires Fits(c0, t) && Fits(c1, t)
  {
    Behind(c1) + Behind(c0) + [(Nibble(c0) + 16 * Nibble(c1)) as byte]
  }

  function WordBytes(cs: seq<Coding>, t: Tables): seq<byte>
    requires AllFit(cs, t) && |cs| % 2 == 0
    decreases |cs|
  {
    if cs == [] then []
    else WordBytes(cs[..|cs| - 2], t) + PairBytes(cs[|cs| - 2], cs[|cs| - 1], t)
  }

  function Values(cs: seq<Coding>, t: Tables): (ws: seq<nat>)
    requires AllFit(cs, t)
    ensures |ws| == |cs|
  {
    seq(|cs|, i requires 0 <= i < |cs| => Value(cs[i], t))
  }

  // ---- The decoder, from the end backwards ----

  /** A word, and the bytes in front of what it took; or a read outside the module or tables. */
  datatype Read = Word(w: nat, rest: seq<byte>) | Fault

  /** The byte `k` from the end. */
  function Tail(s: seq<byte>, k: nat): nat
    requires k < |s|
  {
    s[|s| - 1 - k] as nat
  }

  /** One word whose nibble has been taken off the end of `s`. */
  function ReadWord(s: seq<byte>, nibble: nat, t: Tables): (r: Read)
    ensures r.Word? ==> |r.rest| <= |s|
  {
    if nibble >= MINSHORT then
      if |s| < 1 then Fault
      else
        var index := (nibble - MINSHORT) * 0x100 + Tail(s, 0);
        if index < |t.table| then Word(t.table[index], s[..|s| - 1]) else Fault
    else if nibble >= MINLONG then
      if |s| < 2 then Fault
      else
        var index := t.base + (nibble - MINLONG) * 0x100 + Tail(s, 0);
        if index < |t.table| then Word(LongWord(t.table[index], s[|s| - 2]), s[..|s| - 2]) else Fault
    else if nibble == 0 then Word(0, s)
    else if |s| < 4 then Fault
    else Word(Dec([s[|s| - 1], s[|s| - 2], s[|s| - 3], s[|s| - 4]]), s[..|s| - 4])
  }

  datatype Words = Words(ws: seq<nat>) | Faulty

  /** The two words at the end of `s`, low nibble first. */
  function ReadPair(s: seq<byte>, t: Tables): (r: (Read, Read))
    requires s != []
    ensures r.1.Word? ==> r.0.Word? && |r.1.rest| < |s|
  {
    var both := Tail(s, 0);
    var r0 := ReadWord(s[..|s| - 1], both % 16, t);
    if r0.Fault? then (Fault, Fault) else (r0, ReadWord(r0.rest, both / 16, t))
  }

  /** Decodes pairs backwards from the end of `s` until no more than `lwm` bytes are left; what a
      pair reads beyond that mark is still the module's. */
  function DecodeWords(s: seq<byte>, lwm: nat, t: Tables): Words
    decreases |s|
  {
    if |s| <= lwm then Words([])
    else
      var (r0, r1) := ReadPair(s, t);
      if r1.Fault? then Faulty
      else
        var d := DecodeWords(r1.rest, lwm, t);
        if d.Faulty? then Faulty else Words(d.ws + [r0.w, r1.w])
  }

  /** The nibbles 0 and 1 stand for zero and for a literal word, 2-8 for entries of the long table
      with their lowest byte to follow, 9-15 for entries of the short one. */
  lemma NibblesMean(s: seq<byte>, nibble: nat, t: Tables)
    requires nibble < 16 && |s| >= 4
    ensures var r, n := ReadWord(s, nibble, t), |s|;
            if nibble == 0 then r == Word(0, s)
            else if nibble == 1 then
              r == Word(s[n - 1] as nat + 0x100 * s[n - 2] as nat + 0x1_0000 * s[n - 3] as nat + 0x100_0000 * s[n - 4] as nat,
                        s[..n - 4])
            else if nibble <= 8 then
              var k := t.base + 0x100 * (nibble - 2) + s[n - 1] as nat;
              r == if k < |t.table| then Word(0x100 * t.table[k] % WRAP + s[n - 2] as nat, s[..n - 2]) else Fault
            else
              var k := 0x100 * (nibble - 9) + s[n - 1] as nat;
              r == if k < |t.table| then Word(t.table[k], s[..n - 1]) else Fault
  {
    FourBytes(s[|s| - 1], s[|s| - 2], s[|s| - 3], s[|s| - 4]);
  }

  lemma FourBytes(a: byte, b: byte, c: byte, d: byte)
    ensures Dec([a, b, c, d]) == a as nat + 0x100 * b as nat + 0x1_0000 * c as nat + 0x100_0000 * d as nat
  {
    assert [a, b, c, d][1..] == [b, c, d] && [b, c, d][1..] == [c, d] && [c, d][1..] == [d] && [d][1..] == [];
    assert Dec([d]) == d as nat;
    assert Dec([c, d]) == c as nat + 0x100 * Dec([d]);
    assert Dec([b, c, d]) == b as nat + 0x100 * Dec([c, d]);
    assert Dec([a, b, c, d]) == a as nat + 0x100 * Dec([b, c, d]);
  }

  // ---- Decoding inverts the format ----

  lemma ReadsBack(front: seq<byte>, c: Coding, t: Tables)
    requires Fits(c, t)
    ensures ReadWord(front + Behind(c), Nibble(c), t) == Word(Value(c, t), front)
  {
    hide Enc, Dec;
    var s := front + Behind(c);
    match c
    case Zero =>
      assert s == front;
    case Itself(w) =>
      LiteralReadsBack(front, w);
    case ShortAt(index) =>
      assert s[..|s| - 1] == front;
    case LongAt(index, low) =>
      assert s[..|s| - 2] == front;
  }

  lemma LiteralReadsBack(front: seq<byte>, w: nat)
    requires w < WRAP
    ensures var s := front + Behind(Itself(w));
            |s| >= 4 && Dec([s[|s| - 1], s[|s| - 2], s[|s| - 3], s[|s| - 4]]) == w && s[..|s| - 4] == front
  {
    hide Enc, Dec;
    var s := front + Behind(Itself(w));
    var e := Enc(w, 4);
    assert [s[|s| - 1], s[|s| - 2], s[|s| - 3], s[|s| - 4]] == e;
    WordBound();
    DecEnc(w, 4);
  }

  lemma WordBound()
    ensures Pow256(4) == WRAP
  {}

  lemma ReadsPairBack(front: seq<byte>, c0: Coding, c1: Coding, t: Tables)
    requires Fits(c0, t) && Fits(c1, t)
    ensures ReadPair(front + PairBytes(c0, c1, t), t) == (Word(Value(c0, t), front + Behind(c1)), Word(Value(c1, t), front))
  {
    hide Behind, Nibble, Value, ReadWord;
    var s := front + PairBytes(c0, c1, t);
    var a := front + Behind(c1);
    assert s[..|s| - 1] == a + Behind(c0);
    assert Tail(s, 0) == Nibble(c0) + 16 * Nibble(c1);
    ReadsBack(a, c0, t);
    ReadsBack(front, c1, t);
  }

  /** Words coded in any way decode to exactly those words, and the decoder stops exactly at the
      start of the code. */
  lemma {:induction false} WordsRoundTrip(front: seq<byte>, cs: seq<Coding>, t: Tables)
    requires AllFit(cs, t) && |cs| % 2 == 0
    ensures DecodeWords(front + WordBytes(cs, t), |front|, t) == Words(Values(cs, t))
    decreases |cs|
  {
    hide Fits, Value, ReadPair, PairBytes;
    var s := front + WordBytes(cs, t);
    if cs == [] {
      assert s == front;
    } else {
      var n := |cs| - 2;
      var early := cs[..n];
      var inner := front + WordBytes(early, t);
      assert s == inner + PairBytes(cs[n], cs[n + 1], t);
      ReadsPairBack(inner, cs[n], cs[n + 1], t);
      PairNotEmpty(cs[n], cs[n + 1], t);
      WordsRoundTrip(front, early, t);
      assert Values(cs, t) == Values(early, t) + [Value(cs[n], t), Value(cs[n + 1], t)];
    }
  }

  lemma PairNotEmpty(c0: Coding, c1: Coding, t: Tables)
    requires Fits(c0, t) && Fits(c1, t)
    ensures |PairBytes(c0, c1, t)| > 0
  {}

  // ---- Every word has a code ----

  function Find(table: seq<nat>, lo: nat, v: nat, m: nat): (i: nat)
    requires lo <= |table| && m > 0
    ensures lo <= i <= |table| && (i < |table| ==> table[i] % m == v % m)
    decreases |table| - lo
  {
    if lo == |table| then lo else if table[lo] % m == v % m then lo else Find(table, lo + 1, v, m)
  }

  /** The cheapest code the tables allow. */
  function Choose(w: nat, t: Tables): (c: Coding)
    requires t.base <= |t.table|
  {
    if w == 0 then Zero
    else
      var i := Find(t.table[..t.base], 0, w, WRAP);
      if i < t.base && i < 7 * 0x100 then ShortAt(i)
      else
        var j := Find(t.table, t.base, w / 0x100, 0x100_0000);
        if j < |t.table| && j - t.base < 7 * 0x100 then LongAt(j - t.base, (w % 0x100) as byte) else Itself(w)
  }

  lemma ChooseStandsFor(w: nat, t: Tables)
    requires w < WRAP && t.base <= |t.table| && forall i :: 0 <= i < |t.table| ==> t.table[i] < WRAP
    ensures Fits(Choose(w, t), t) && Value(Choose(w, t), t) == w
  {
    var c := Choose(w, t);
    if c.LongAt? {
      LongWordOf(t.table[t.base + c.index], w);
    }
  }

  lemma LongWordOf(entry: nat, w: nat)
    requires w < WRAP && entry % 0x100_0000 == w / 0x100 % 0x100_0000
    ensures LongWord(entry, (w % 0x100) as byte) == w
  {
    var q := entry / 0x100_0000;
    assert entry == q * 0x100_0000 + w / 0x100;
    assert entry * 0x100 == q * WRAP + w / 0x100 * 0x100;
  }

  function ChooseAll(ws: seq<nat>, t: Tables): (cs: seq<Coding>)
    requires t.base <= |t.table|
    ensures |cs| == |ws|
  {
    seq(|ws|, i requires 0 <= i < |ws| => Choose(ws[i], t))
  }

  lemma ChooseAllStandFor(ws: seq<nat>, t: Tables)
    requires t.base <= |t.table| && forall i :: 0 <= i < |t.table| ==> t.table[i] < WRAP
    requires forall i :: 0 <= i < |ws| ==> ws[i] < WRAP
    ensures AllFit(ChooseAll(ws, t), t) && Values(ChooseAll(ws, t), t) == ws
  {
    hide Choose, Fits, Value;
    forall i | 0 <= i < |ws| ensures Fits(Choose(ws[i], t), t) && Value(Choose(ws[i], t), t) == ws[i] {
      ChooseStandsFor(ws[i], t);
    }
  }
}
