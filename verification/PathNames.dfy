/** The translations of paths seen from the two naming schemes: components between dots on one
    side, and what dots and slashes mean on the other. Characters are given by their codes. */
module PathNames {
  import opened Bytes
  import opened Path

  // ---- From RISC OS: components between dots ----

  /** The parts between separators; there is one more of them than of separators. */
  function Split(s: seq<byte>, sep: byte): (parts: seq<seq<byte>>)
    ensures |parts| > 0
  {
    if s == [] then [[]]
    else
      var rest := Split(s[1..], sep);
      if s[0] == sep then [[]] + rest else [[s[0]] + rest[0]] + rest[1..]
  }

  function Join(parts: seq<seq<byte>>, sep: byte): seq<byte>
    requires |parts| > 0
  {
    if |parts| == 1 then parts[0] else parts[0] + [sep] + Join(parts[1..], sep)
  }

  /** Splitting gives parts without separators that join up to the text. */
  lemma {:induction false} JoinSplit(s: seq<byte>, sep: byte)
    ensures Join(Split(s, sep), sep) == s
    ensures forall i :: 0 <= i < |Split(s, sep)| ==> sep !in Split(s, sep)[i]
  {
    if s != [] {
      var rest := Split(s[1..], sep);
      JoinSplit(s[1..], sep);
      assert s == [s[0]] + s[1..];
      if s[0] == sep {
        assert ([[]] + rest)[1..] == rest;
      } else {
        PrefixJoin([s[0]], rest, sep);
      }
    }
  }

  lemma PrefixJoin(front: seq<byte>, rest: seq<seq<byte>>, sep: byte)
    requires |rest| > 0
    ensures Join([front + rest[0]] + rest[1..], sep) == front + Join(rest, sep)
  {
    var whole := [front + rest[0]] + rest[1..];
    assert whole[0] == front + rest[0] && whole[1..] == rest[1..];
    if |rest| > 1 {
      Regroups(front, rest[0], [sep], Join(rest[1..], sep));
    }
  }

  lemma Regroups(a: seq<byte>, b: seq<byte>, c: seq<byte>, d: seq<byte>)
    ensures a + b + c + d == a + (b + c + d)
  {}

  /** `$`, `%`, `&` and `\` vanish, `@` is a dot, `^` two, and a slash inside a name a dot. */
  const HOST_FORM: map<byte, seq<byte>> :=
    map[36 := [], 37 := [], 38 := [], 92 := [], 64 := [46], 94 := [46, 46], 47 := [46]]

  /** The host form of a component. */
  function Name(part: seq<byte>): seq<byte> {
    if part == [] then [] else (if part[0] in HOST_FORM then HOST_FORM[part[0]] else [part[0]]) + Name(part[1..])
  }

  function Names(parts: seq<seq<byte>>): (r: seq<seq<byte>>)
    ensures |r| == |parts| && forall i :: 0 <= i < |r| ==> r[i] == Name(parts[i])
  {
    if parts == [] then [] else [Name(parts[0])] + Names(parts[1..])
  }

  /** A name of ordinary characters keeps its length, its slashes turned into dots. */
  lemma {:induction false} OrdinaryName(part: seq<byte>)
    requires forall i :: 0 <= i < |part| ==> part[i] !in {36, 37, 38, 92, 64, 94}
    ensures |Name(part)| == |part|
    ensures forall i :: 0 <= i < |part| ==> Name(part)[i] == if part[i] == 47 then 46 else part[i]
  {
    if part != [] {
      OrdinaryName(part[1..]);
    }
  }

  /** The translation of a character, by its code. */
  lemma HostCharIs(c: byte)
    ensures HostChar(c) == if c == 46 then [47] else if c in HOST_FORM then HOST_FORM[c] else [c]
  {}

  lemma {:induction false} HostBodyIs(s: seq<byte>)
    ensures HostBody(s) == Join(Names(Split(s, 46)), 47)
  {
    hide HostChar, HOST_FORM;
    if s == [] {
      assert Names([[]]) == [[]];
    } else {
      var rest := Split(s[1..], 46);
      HostBodyIs(s[1..]);
      HostCharIs(s[0]);
      if s[0] == 46 {
        assert Names([[]] + rest) == [[]] + Names(rest);
        assert ([[]] + Names(rest))[1..] == Names(rest);
      } else {
        NamesFirst(s[0], rest);
        PrefixJoin(HostChar(s[0]), Names(rest), 47);
      }
    }
  }

  lemma NamesFirst(c: byte, rest: seq<seq<byte>>)
    requires |rest| > 0 && c != 46
    ensures Names([[c] + rest[0]] + rest[1..]) == [HostChar(c) + Names(rest)[0]] + Names(rest)[1..]
  {
    hide HostChar, HOST_FORM;
    HostCharIs(c);
    assert ([c] + rest[0])[1..] == rest[0];
    assert ([[c] + rest[0]] + rest[1..])[1..] == rest[1..];
    assert Names(rest)[1..] == Names(rest[1..]);
  }

  /** Up to its first control character, a path is copied when it starts with a dot or slash, and
      otherwise the host forms of its components are joined by slashes. */
  lemma HostPathIs(s: seq<byte>, tail: seq<byte>)
    requires forall i :: 0 <= i < |s| ==> 32 <= s[i] <= 127
    requires tail != [] ==> tail[0] < 32 || tail[0] > 127
    ensures HostPath(s + tail) ==
      if s != [] && s[0] in {46, 47} then s else Join(Names(Split(s, 46)), 47)
  {
    hide HostBody, Join, Names, Split;
    var p := s + tail;
    ShownIs(p, |s|);
    assert p[..|s|] == s;
    HostBodyIs(s);
    assert s != [] ==> p[0] == s[0];
    if s == [] && Verbatim(p) {
      assert p == tail;
    }
    if s == [] {
      NoName();
    }
  }

  lemma NoName()
    ensures HostBody([]) == []
  {}

  /** `@.x` is `./x` and `$.^/^` is `/.....`. */
  lemma HostPathSamples()
    ensures HostPath([64, 46, 120]) == [46, 47, 120]
    ensures HostPath([36, 46, 94, 47, 94]) == [47, 46, 46, 46, 46, 46]
  {
    Sample([64, 46, 120]);
    Sample([36, 46, 94, 47, 94]);
  }

  lemma Sample(s: seq<byte>)
    requires |s| <= 5 && !Verbatim(s) && forall i :: 0 <= i < |s| ==> Visible(s[i])
    ensures HostPath(s) == HostFrom(s, 0)
  {
    hide HostChar;
    ShownAll(s);
    SampleBody(s, 0);
    assert s[0..] == s;
  }

  function HostFrom(s: seq<byte>, i: nat): seq<byte>
    requires i <= |s|
    decreases |s| - i
  {
    if i == |s| then [] else HostChar(s[i]) + HostFrom(s, i + 1)
  }

  lemma {:induction false} SampleBody(s: seq<byte>, i: nat)
    requires i <= |s|
    ensures HostBody(s[i..]) == HostFrom(s, i)
    decreases |s| - i
  {
    hide HostChar;
    if i < |s| {
      SampleBody(s, i + 1);
      assert s[i..][1..] == s[i + 1..];
    }
  }

  // ---- To RISC OS: what dots and slashes mean ----

  /** What a host path is read as: a separator, the parent directory, the current directory with
      its separator, a dot inside a name, any other character. */
  datatype Item = Separator | Parent | Current | Dot | Letter(c: byte)

  function HostText(i: Item): seq<byte> {
    match i
    case Separator => [47]
    case Parent => [46, 46]
    case Current => [46, 47]
    case Dot => [46]
    case Letter(c) => [c]
  }

  /** A separator becomes a dot, the parent directory a caret, the current one nothing, and a dot
      inside a name a slash. */
  function RoText(i: Item): seq<byte> {
    match i
    case Separator => [46]
    case Parent => [94]
    case Current => []
    case Dot => [47]
    case Letter(c) => [c]
  }

  function HostTexts(items: seq<Item>): seq<byte> {
    if items == [] then [] else HostText(items[0]) + HostTexts(items[1..])
  }

  function RoTexts(items: seq<Item>): seq<byte> {
    if items == [] then [] else RoText(items[0]) + RoTexts(items[1..])
  }

  /** Letters are neither dots nor slashes, and a dot inside a name is followed by neither. */
  predicate Readable(items: seq<Item>) {
    items == [] ||
    (&& (items[0].Letter? ==> items[0].c != 46 && items[0].c != 47)
     && (items[0].Dot? && |items| > 1 ==> items[1].Letter?)
     && Readable(items[1..]))
  }

  /** Every host path can be read so. */
  function Read(s: seq<byte>): (items: seq<Item>)
    ensures Readable(items) && HostTexts(items) == s
    decreases |s|
  {
    if s == [] then []
    else if s[0] == 47 then [Separator] + Read(s[1..])
    else if s[0] != 46 then [Letter(s[0])] + Read(s[1..])
    else if |s| > 1 && s[1] == 46 then [Parent] + Read(s[2..])
    else if |s| > 1 && s[1] == 47 then [Current] + Read(s[2..])
    else [Dot] + Read(s[1..])
  }

  lemma {:induction false} RoBodyIs(items: seq<Item>)
    requires Readable(items)
    ensures RoBody(HostTexts(items)) == RoTexts(items)
  {
    if items != [] {
      var i, s := items[0], HostTexts(items);
      var rest := HostTexts(items[1..]);
      RoBodyIs(items[1..]);
      assert s == HostText(i) + rest && s[|HostText(i)|..] == rest;
      if i.Dot? && |items| > 1 {
        assert rest == [items[1].c] + HostTexts(items[1..][1..]);
      }
    }
  }

  /** The RISC OS path is the RISC OS form of every item in order, behind a `$` for an absolute
      path. */
  lemma RoPathIs(items: seq<Item>)
    requires Readable(items)
    ensures RoPath(HostTexts(items)) == (if items != [] && items[0].Separator? then [36] else []) + RoTexts(items)
  {
    hide RoBody, RoTexts;
    RoBodyIs(items);
  }
}
