/** The module unsqueezer: header, tables and words, and the guarantee that it undoes the
    squeezed format. */
module Unsqueeze {
  import opened Bytes
  import opened SqueezeTables
  import opened SqueezeWords

  datatype Error = NotSqueezed | NoMem | BadDecode

  /** The unsqueezed words, an error return, or an access outside the module or its tables, which
      the code does not check for. */
  datatype Outcome = Ok(words: seq<nat>) | Failed(e: Error) | Stray

  const COMPRESSED := 0x8000_0000
  const INFO := 20

  function WordAt(file: seq<byte>, at: nat): (w: nat)
    requires at + 4 <= |file|
    ensures w < WRAP
  {
    WordBound();
    DecBound(file[at..at + 4]);
    Dec(file[at..at + 4])
  }

  /** The five sizes before the initialisation code, and where that code starts. */
  datatype Info = Info(decodedSize: nat, encodedSize: nat, tablesSize: nat, shorts: nat, longs: nat, init: nat)

  /** Sizes are signed words, so one past 2^31 is a negative offset. */
  predicate Sound(file: seq<byte>, i: Info) {
    && i.decodedSize < COMPRESSED && i.encodedSize < COMPRESSED && i.tablesSize < COMPRESSED
    && i.shorts < COMPRESSED && i.longs < COMPRESSED
    && INFO <= i.init <= |file| && i.tablesSize + i.encodedSize <= i.init - INFO
  }

  function ReadInfo(file: seq<byte>, init: nat): Info
    requires INFO <= init <= |file|
  {
    var at := init - INFO;
    Info(WordAt(file, at), WordAt(file, at + 4), WordAt(file, at + 8), WordAt(file, at + 12), WordAt(file, at + 16), init)
  }

  /** End of the coded words, which is the start of the tables. */
  function Hwm(i: Info): int {
    i.init - INFO - i.tablesSize
  }

  function DecodeTables(file: seq<byte>, i: Info): (r: Decoded)
    requires Sound(file, i)
  {
    var d := Decode(file[Hwm(i)..], i.shorts, WRAP - 1, true);
    if d.RanOut? then RanOut else After(d.entries, Decode(d.rest, i.longs, WRAP - 1, false))
  }

  /** Where the long table starts: after the short one, however long that came out. */
  function ShortCount(file: seq<byte>, i: Info): nat
    requires Sound(file, i) && DecodeTables(file, i).Table?
  {
    |Decode(file[Hwm(i)..], i.shorts, WRAP - 1, true).entries|
  }

  function ClearTop(ws: seq<nat>): (r: seq<nat>)
    requires |ws| > 2
    ensures |r| == |ws|
  {
    ws[2 := ws[2] % COMPRESSED]
  }

  /** `out` is `ws` with word 2, the module's finalisation entry, reduced modulo 2^31 and every
      other word as it was. */
  ghost predicate Finalised(ws: seq<nat>, out: Outcome) {
    && out.Ok? && |out.words| == |ws| > 2 && out.words[2] == ws[2] % 0x8000_0000
    && forall k :: 0 <= k < |ws| && k != 2 ==> out.words[k] == ws[k]
  }

  function DecodeBody(file: seq<byte>, i: Info): Outcome
    requires Sound(file, i)
  {
    var d := DecodeTables(file, i);
    if d.RanOut? || |d.entries| > i.shorts + i.longs then Stray
    else
      var w := DecodeWords(file[..Hwm(i)], Hwm(i) - i.encodedSize, Tables(d.entries, ShortCount(file, i)));
      if w.Faulty? || 4 * |w.ws| > i.decodedSize then Stray
      else if 4 * |w.ws| != i.decodedSize then Failed(BadDecode)
      else if |w.ws| <= 2 then Stray
      else Ok(ClearTop(w.ws))
  }

  /** `unsqueeze_module`; the two flags say whether its two allocations succeed. */
  function UnsqueezeModule(file: seq<byte>, haveModule: bool, haveTables: bool): Outcome {
    if |file| < 8 then Stray
    else
      var word := WordAt(file, 4);
      if word < COMPRESSED then Failed(NotSqueezed)
      else
        var init := word - COMPRESSED;
        if init < INFO || init > |file| then Stray
        else
          var i := ReadInfo(file, init);
          if !Sound(file, i) then Stray
          else if !haveModule || !haveTables then Failed(NoMem)
          else DecodeBody(file, i)
  }

  // ---- The squeezed format as a whole ----

  /** Everything a squeezed module is made of. */
  datatype Squeezed = Squeezed(front: seq<byte>, shorts: seq<Token>, longs: seq<Token>, codes: seq<Coding>, init: seq<byte>)

  function TablesOf(q: Squeezed): Tables {
    var s := Expand(q.shorts, WRAP - 1);
    Tables(s + Expand(q.longs, WRAP - 1), |s|)
  }

  predicate Formed(q: Squeezed) {
    && |q.front| >= 8 && |q.codes| % 2 == 0 && |q.codes| > 2
    && AllLegal(q.shorts, true) && AllLegal(q.longs, false) && AllFit(q.codes, TablesOf(q))
    && |Body(q)| + INFO < COMPRESSED && 4 * |q.codes| < COMPRESSED
    && |Expand(q.shorts, WRAP - 1)| < COMPRESSED && |Expand(q.longs, WRAP - 1)| < COMPRESSED
    && WordAt(q.front, 4) == COMPRESSED + |Body(q)| + INFO
  }

  function TableCode(q: Squeezed): seq<byte>
    requires AllLegal(q.shorts, true) && AllLegal(q.longs, false)
  {
    TableBytes(q.shorts, true) + TableBytes(q.longs, false)
  }

  /** Front matter, coded words and coded tables. */
  function Body(q: Squeezed): seq<byte>
    requires |q.codes| % 2 == 0 && AllLegal(q.shorts, true) && AllLegal(q.longs, false) && AllFit(q.codes, TablesOf(q))
  {
    q.front + WordBytes(q.codes, TablesOf(q)) + TableCode(q)
  }

  function InfoOf(q: Squeezed): Info
    requires Formed(q)
  {
    Info(4 * |q.codes|, |WordBytes(q.codes, TablesOf(q))|, |TableCode(q)|,
         |Expand(q.shorts, WRAP - 1)|, |Expand(q.longs, WRAP - 1)|, |Body(q)| + INFO)
  }

  function InfoBytes(i: Info): (s: seq<byte>)
    ensures |s| == INFO
  {
    Enc(i.decodedSize, 4) + Enc(i.encodedSize, 4) + Enc(i.tablesSize, 4) + Enc(i.shorts, 4) + Enc(i.longs, 4)
  }

  function FileOf(q: Squeezed): seq<byte>
    requires Formed(q)
  {
    Body(q) + InfoBytes(InfoOf(q)) + q.init
  }

  lemma InfoReads(before: seq<byte>, i: Info, after: seq<byte>)
    requires i.decodedSize < WRAP && i.encodedSize < WRAP && i.tablesSize < WRAP && i.shorts < WRAP && i.longs < WRAP
    requires i.init == |before| + INFO
    ensures ReadInfo(before + InfoBytes(i) + after, i.init) == i
  {
    hide Enc, Dec;
    WordBound();
    DecEnc(i.decodedSize, 4);
    DecEnc(i.encodedSize, 4);
    DecEnc(i.tablesSize, 4);
    DecEnc(i.shorts, 4);
    DecEnc(i.longs, 4);
    var f := before + InfoBytes(i) + after;
    var at := |before|;
    assert f[at..at + 4] == Enc(i.decodedSize, 4);
    assert f[at + 4..at + 8] == Enc(i.encodedSize, 4);
    assert f[at + 8..at + 12] == Enc(i.tablesSize, 4);
    assert f[at + 12..at + 16] == Enc(i.shorts, 4);
    assert f[at + 16..at + 20] == Enc(i.longs, 4);
  }

  lemma InfoSound(q: Squeezed)
    requires Formed(q)
    ensures Sound(FileOf(q), InfoOf(q))
    ensures Hwm(InfoOf(q)) == |q.front| + |WordBytes(q.codes, TablesOf(q))|
  {
    hide WordBytes, TableBytes, Expand;
  }

  lemma TablesDecode(q: Squeezed)
    requires Formed(q)
    ensures Sound(FileOf(q), InfoOf(q))
    ensures var d := DecodeTables(FileOf(q), InfoOf(q));
            d.Table? && d.entries == TablesOf(q).table && ShortCount(FileOf(q), InfoOf(q)) == TablesOf(q).base
  {
    hide WordBytes, TableBytes, Expand, Decode;
    InfoSound(q);
    var i, f := InfoOf(q), FileOf(q);
    var tail := InfoBytes(i) + q.init;
    var late := TableBytes(q.longs, false) + tail;
    assert f[Hwm(i)..] == TableBytes(q.shorts, true) + late;
    TableRoundTrip(q.shorts, WRAP - 1, true, late);
    TableRoundTrip(q.longs, WRAP - 1, false, tail);
  }

  /** Unsqueezing a module in the squeezed format, however its tables and words were coded, gives
      exactly the words coded, with the top bit of word 2 cleared. */
  lemma UnsqueezeInverts(q: Squeezed)
    requires Formed(q)
    ensures Finalised(Values(q.codes, TablesOf(q)), UnsqueezeModule(FileOf(q), true, true))
  {
    hide WordBytes, TableBytes, Expand, Decode, DecodeWords, DecodeTables, Dec, InfoBytes, AllFit, AllLegal;
    var i, f := InfoOf(q), FileOf(q);
    HeaderKept(q);
    InfoSound(q);
    InfoReads(Body(q), i, q.init);
    TablesDecode(q);
    assert f[..Hwm(i)] == q.front + WordBytes(q.codes, TablesOf(q));
    WordsRoundTrip(q.front, q.codes, TablesOf(q));
  }

  lemma HeaderKept(q: Squeezed)
    requires Formed(q)
    ensures |FileOf(q)| >= 8 && WordAt(FileOf(q), 4) == WordAt(q.front, 4)
  {
    hide WordBytes, TableBytes, Expand, Dec;
    assert FileOf(q)[4..8] == q.front[4..8];
  }

  /** Whatever the words and the tables chosen for them, coding each word as cheaply as the tables
      allow is undone by unsqueezing. */
  lemma SqueezeRoundTrip(ws: seq<nat>, shorts: seq<nat>, longs: seq<nat>, front: seq<byte>, init: seq<byte>)
    requires |ws| % 2 == 0 && |ws| > 2 && forall i :: 0 <= i < |ws| ==> ws[i] < WRAP
    requires Fitting(ws, shorts, longs, front, init)
    ensures Finalised(ws, UnsqueezeModule(FileOf(Squeeze(ws, shorts, longs, front, init)), true, true))
  {
    hide Code, Expand, ChooseAll, AllFit, AllLegal;
    var q := Squeeze(ws, shorts, longs, front, init);
    SqueezeCodes(ws, shorts, longs, front, init);
    UnsqueezeInverts(q);
  }

  /** Codes the tables, and then every word through them. */
  function Squeeze(ws: seq<nat>, shorts: seq<nat>, longs: seq<nat>, front: seq<byte>, init: seq<byte>): Squeezed {
    var s, l := Code(shorts, WRAP - 1, true), Code(longs, WRAP - 1, false);
    var t := TablesOf(Squeezed(front, s, l, [], init));
    Squeezed(front, s, l, ChooseAll(ws, t), init)
  }

  /** The header points past the squeezed body, and no size reaches 2^31. */
  predicate Fitting(ws: seq<nat>, shorts: seq<nat>, longs: seq<nat>, front: seq<byte>, init: seq<byte>): (r: bool)
    requires |ws| % 2 == 0 && |ws| > 2 && forall i :: 0 <= i < |ws| ==> ws[i] < WRAP
    ensures r ==> Formed(Squeeze(ws, shorts, longs, front, init))
  {
    SqueezeCodes(ws, shorts, longs, front, init);
    var q := Squeeze(ws, shorts, longs, front, init);
    && |front| >= 8 && |Body(q)| + INFO < COMPRESSED && 4 * |ws| < COMPRESSED
    && |shorts| < COMPRESSED && |longs| < COMPRESSED && WordAt(front, 4) == COMPRESSED + |Body(q)| + INFO
  }

  lemma SqueezeCodes(ws: seq<nat>, shorts: seq<nat>, longs: seq<nat>, front: seq<byte>, init: seq<byte>)
    requires forall i :: 0 <= i < |ws| ==> ws[i] < WRAP
    ensures var q := Squeeze(ws, shorts, longs, front, init);
            && AllLegal(q.shorts, true) && AllLegal(q.longs, false)
            && |Expand(q.shorts, WRAP - 1)| == |shorts| && |Expand(q.longs, WRAP - 1)| == |longs|
            && |q.codes| == |ws| && AllFit(q.codes, TablesOf(q)) && Values(q.codes, TablesOf(q)) == ws
  {
    hide Code, Expand, ChooseAll, AllFit, AllLegal;
    CodeStandsFor(shorts, WRAP - 1, true);
    CodeStandsFor(longs, WRAP - 1, false);
    var q := Squeeze(ws, shorts, longs, front, init);
    ChooseAllStandFor(ws, TablesOf(q));
  }

  // ---- The code itself ----

  lemma RunMore(prev: nat, k: nat)
    ensures Run(prev, 0) == [] && Run(prev, k + 1) == Run(prev, k) + [(prev + k + 1) % WRAP]
    ensures ((prev + k) % WRAP + 1) % WRAP == (prev + k + 1) % WRAP
  {
    var x := prev + k;
    assert x + 1 == x % WRAP + 1 + x / WRAP * WRAP;
  }

  /** Stores a run of successive entries. */
  method StoreRun(table: array<nat>, at: nat, prev: nat, count: nat) returns (last: nat)
    requires at + count <= table.Length && prev < WRAP
    modifies table
    ensures last == (prev + count) % WRAP
    ensures table[at..at + count] == Run(prev, count) && table[..at] == old(table[..at])
  {
    hide Run;
    last := prev;
    var k := 0;
    RunMore(prev, 0);
    while k < count
      invariant k <= count && last == (prev + k) % WRAP
      invariant table[at..at + k] == Run(prev, k) && table[..at] == old(table[..at])
    {
      RunMore(prev, k);
      ghost var run := table[at..at + k];
      last := (last + 1) % WRAP;
      table[at + k] := last;
      k := k + 1;
      assert table[at..at + k] == run + [last];
    }
  }

  /** Stores the entries one token stands for, and gives the last of them. */
  method StoreEntries(table: array<nat>, at: nat, t: Token, prev: nat) returns (next: nat, last: nat)
    requires at + |Entries(t, prev)| <= table.Length && prev < WRAP
    modifies table
    ensures next == at + |Entries(t, prev)| && last == Last(t, prev) && last < WRAP
    ensures table[at..next] == Entries(t, prev) && table[..at] == old(table[..at])
  {
    hide Run;
    if t.Ones? {
      last := StoreRun(table, at, prev, t.count);
      next := at + t.count;
    } else {
      last := (prev + t.gap) % WRAP;
      table[at] := last;
      next := at + 1;
    }
  }

  /** Decodes one table from byte `from` into the expansion table from entry `to`. */
  method DecodeTable(file: array<byte>, from: nat, table: array<nat>, to: nat, count: nat, shorts: bool)
    returns (lwm: nat, next: nat)
    requires from <= file.Length && to <= table.Length
    requires var d := Decode(file[from..], count, WRAP - 1, shorts); d.Table? && to + |d.entries| <= table.Length
    modifies table
    ensures from <= lwm <= file.Length && to <= next <= table.Length
    ensures Decode(file[from..], count, WRAP - 1, shorts) == Table(table[to..next], file[lwm..])
    ensures table[..to] == old(table[..to])
  {
    hide Front, Entries, Last, Decode, After;
    ghost var d := Decode(file[from..], count, WRAP - 1, shorts);
    var nels: int := count;
    var prev: nat := WRAP - 1;
    lwm, next := from, to;
    assert table[to..next] == [];
    AfterNothing(d);
    while nels > 0
      invariant from <= lwm <= file.Length && to <= next <= table.Length && prev < WRAP
      invariant table[..to] == old(table[..to])
      invariant Decode(file[lwm..], nels, prev, shorts).Table?
      invariant d == After(table[to..next], Decode(file[lwm..], nels, prev, shorts))
      decreases file.Length - lwm
    {
      ghost var s, done := file[lwm..], table[to..next];
      DecodeStep(s, nels, prev, shorts);
      var (t, used) := Front(file[lwm..], shorts);
      ghost var more := Decode(s[used..], nels - |Entries(t, prev)|, Last(t, prev), shorts);
      assert s[used..] == file[lwm + used..];
      ghost var p, to0 := prev, next;
      AfterTwice(done, Entries(t, prev), more);
      AfterSize(done + Entries(t, prev), more);
      assert table[..to0][to..] == done && table[..to0][..to] == table[..to];
      next, prev := StoreEntries(table, next, t, prev);
      lwm := lwm + used;
      nels := nels - if t.Ones? then t.count else 1;
      assert table[..][..to0] == table[..to0];
      Extended(table[..], to, to0, next, done);
      assert table[..][to..next] == table[to..next] && table[..][to0..next] == table[to0..next];
      assert table[..to] == table[..to0][..to];
    }
    AfterDone(file[lwm..], nels, prev, shorts, table[to..next]);
  }

  lemma DecodeStep(s: seq<byte>, n: int, prev: nat, shorts: bool)
    requires n > 0 && Decode(s, n, prev, shorts).Table?
    ensures s != []
    ensures var (t, used) := Front(s, shorts);
            && used <= |s|
            && Decode(s, n, prev, shorts) == After(Entries(t, prev), Decode(s[used..], n - |Entries(t, prev)|, Last(t, prev), shorts))
  {
    hide Front, Entries, Last;
    var (t, used) := Front(s, shorts);
    AfterSize(Entries(t, prev), Decode(s[used..], n - |Entries(t, prev)|, Last(t, prev), shorts));
  }

  lemma AfterTwice(a: seq<nat>, b: seq<nat>, d: Decoded)
    ensures After(a, After(b, d)) == After(a + b, d)
  {
    if d.Table? {
      assert a + (b + d.entries) == a + b + d.entries;
    }
  }

  /** Entries stored behind a stretch that has kept its own. */
  lemma Extended(s: seq<nat>, lo: nat, mid: nat, hi: nat, done: seq<nat>)
    requires lo <= mid <= hi <= |s| && s[..mid][lo..] == done
    ensures s[lo..hi] == done + s[mid..hi]
  {
    assert s[lo..mid] == s[..mid][lo..];
    assert s[lo..hi] == s[lo..mid] + s[mid..hi];
  }

  lemma AfterNothing(d: Decoded)
    ensures After([], d) == d
  {
    if d.Table? {
      assert [] + d.entries == d.entries;
    }
  }

  lemma AfterSize(entries: seq<nat>, d: Decoded)
    ensures After(entries, d).Table? <==> d.Table?
    ensures d.Table? ==> |After(entries, d).entries| == |entries| + |d.entries|
  {}

  lemma AfterDone(s: seq<byte>, n: int, prev: nat, shorts: bool, entries: seq<nat>)
    requires n <= 0
    ensures After(entries, Decode(s, n, prev, shorts)) == Table(entries, s)
  {
    assert entries + [] == entries;
  }

  /** Decodes the words backwards into the module, and gives the slot reached. */
  method DecodeInto(file: array<byte>, hwm: nat, lwm: nat, t: Tables, image: array<nat>) returns (slot: nat)
    requires hwm <= file.Length
    requires var w := DecodeWords(file[..hwm], lwm, t); w.Words? && |w.ws| <= image.Length
    modifies image
    ensures slot <= image.Length && Words(image[slot..]) == DecodeWords(file[..hwm], lwm, t)
  {
    hide ReadWord;
    ghost var all := DecodeWords(file[..hwm], lwm, t);
    var at := hwm;
    slot := image.Length;
    assert image[slot..] == [];
    while at > lwm
      invariant at <= hwm && slot <= image.Length
      invariant DecodeWords(file[..at], lwm, t).Words?
      invariant all.ws == DecodeWords(file[..at], lwm, t).ws + image[slot..]
      decreases at
    {
      ghost var s, done := file[..at], image[slot..];
      DecodeWordsStep(s, lwm, t);
      var both := file[at - 1] as nat;
      assert s[..|s| - 1] == file[..at - 1];
      var r0 := ReadWord(file[..at - 1], both % 16, t);
      var r1 := ReadWord(r0.rest, both / 16, t);
      RestIsPrefix(file[..at - 1], both % 16, t);
      RestIsPrefix(r0.rest, both / 16, t);
      at := |r1.rest|;
      assert r1.rest == file[..at];
      image[slot - 1] := r1.w;
      image[slot - 2] := r0.w;
      slot := slot - 2;
      assert image[slot..] == [r0.w, r1.w] + done;
    }
    assert all.ws == image[slot..];
  }

  lemma DecodeWordsStep(s: seq<byte>, lwm: nat, t: Tables)
    requires |s| > lwm && DecodeWords(s, lwm, t).Words?
    ensures var (r0, r1) := ReadPair(s, t);
            && r0.Word? && r1.Word? && DecodeWords(r1.rest, lwm, t).Words?
            && DecodeWords(s, lwm, t).ws == DecodeWords(r1.rest, lwm, t).ws + [r0.w, r1.w]
  {
    hide ReadWord;
  }

  lemma RestIsPrefix(s: seq<byte>, nibble: nat, t: Tables)
    ensures ReadWord(s, nibble, t).Word? ==> ReadWord(s, nibble, t).rest == s[..|ReadWord(s, nibble, t).rest|]
  {}

  /** `unsqueeze_module` on a module whose code stays within it. */
  method Unsqueeze(file: array<byte>, haveModule: bool, haveTables: bool) returns (e: Outcome, image: array<nat>)
    requires !UnsqueezeModule(file[..], haveModule, haveTables).Stray?
    ensures e == UnsqueezeModule(file[..], haveModule, haveTables)
    ensures e.Ok? ==> image[..] == e.words
  {
    hide Decode, DecodeWords, Dec, ReadWord;
    image := new nat[0];
    var word := WordAt(file[..], 4);
    if word < COMPRESSED {
      return Failed(NotSqueezed), image;
    }
    var i := ReadInfo(file[..], word - COMPRESSED);
    if !haveModule || !haveTables {
      return Failed(NoMem), image;
    }
    var hwm: nat := Hwm(i);
    image := new nat[i.decodedSize / 4];
    var table := new nat[i.shorts + i.longs];
    assert file[..][hwm..] == file[hwm..];
    assert file[..][..hwm] == file[..hwm];
    var lwm, base := DecodeTable(file, hwm, table, 0, i.shorts, true);
    var end, next := DecodeTable(file, lwm, table, base, i.longs, false);
    ghost var t := Tables(DecodeTables(file[..], i).entries, ShortCount(file[..], i));
    assert table[..next] == table[..base] + table[base..next];
    assert t == Tables(table[..next], base);
    var slot := DecodeInto(file, hwm, hwm - i.encodedSize, Tables(table[..next], base), image);
    if 4 * (image.Length - slot) != i.decodedSize {
      return Failed(BadDecode), image;
    }
    assert image[slot..] == image[..];
    image[2] := image[2] % COMPRESSED;
    return Ok(image[..]), image;
  }
}
