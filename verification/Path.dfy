/** Translation between host paths and RISC OS paths, and exactly when the two directions undo
    each other. Characters are bytes of a C string whose `char` is signed. */
module Path {
  import opened Bytes

  const SLASH: byte := 47
  const DOT: byte := 46
  const DOLLAR: byte := 36
  const PERCENT: byte := 37
  const AMPERSAND: byte := 38
  const AT: byte := 64
  const BACKSLASH: byte := 92
  const CARET: byte := 94

  /** A C string: no terminator inside. */
  predicate Text(s: seq<byte>) {
    0 !in s
  }

  /** A signed character above 31. */
  predicate Visible(c: byte) {
    31 < c < 128
  }

  // ---- The two translations ----

  /** Two dots become a caret, a dot segment is dropped, dots and slashes change places. */
  function RoBody(s: seq<byte>): (r: seq<byte>)
    ensures |r| <= |s|
    decreases |s|
  {
    if s == [] then []
    else if s[0] == SLASH then [DOT] + RoBody(s[1..])
    else if s[0] == DOT then
      if |s| > 1 && s[1] == DOT then [CARET] + RoBody(s[2..])
      else if |s| > 1 && s[1] == SLASH then RoBody(s[2..])
      else [SLASH] + RoBody(s[1..])
    else [s[0]] + RoBody(s[1..])
  }

  /** `ro_path_from_host_path`: an absolute path starts at the root. */
  function RoPath(s: seq<byte>): (r: seq<byte>)
    ensures |r| <= |s| + 1
  {
    (if s != [] && s[0] == SLASH then [DOLLAR] else []) + RoBody(s)
  }

  /** The part before the first control or negative character. */
  function Shown(s: seq<byte>): (r: seq<byte>)
    ensures |r| <= |s| && r == s[..|r|] && (|r| < |s| ==> !Visible(s[|r|]))
    ensures forall i :: 0 <= i < |r| ==> Visible(r[i])
  {
    if s == [] || !Visible(s[0]) then [] else [s[0]] + Shown(s[1..])
  }

  /** The directories that have no host counterpart here are left out. */
  predicate Dropped(c: byte) {
    c == DOLLAR || c == AMPERSAND || c == PERCENT || c == BACKSLASH
  }

  function HostChar(c: byte): seq<byte> {
    if Dropped(c) then []
    else if c == AT then [DOT]
    else if c == CARET then [DOT, DOT]
    else if c == SLASH then [DOT]
    else if c == DOT then [SLASH]
    else [c]
  }

  function HostBody(s: seq<byte>): seq<byte> {
    if s == [] then [] else HostChar(s[0]) + HostBody(s[1..])
  }

  /** A path starting with a dot or slash is taken to be in host form already. */
  predicate Verbatim(s: seq<byte>) {
    s != [] && (s[0] == DOT || s[0] == SLASH)
  }

  /** `host_path_from_ro_path` */
  function HostPath(s: seq<byte>): seq<byte> {
    if Verbatim(s) then Shown(s) else HostBody(Shown(s))
  }

  // ---- Memory ----

  /** What the first pass counts for one character, and for all of them. */
  function Cost(c: byte): (n: nat)
    ensures n == |HostChar(c)|
  {
    if Dropped(c) then 0 else if c == CARET then 2 else 1
  }

  function Length(s: seq<byte>): nat {
    if s == [] then 0 else Cost(s[0]) + Length(s[1..])
  }

  lemma {:induction false} LengthIsBody(s: seq<byte>)
    ensures Length(s) == |HostBody(s)|
  {
    if s != [] {
      LengthIsBody(s[1..]);
    }
  }

  /** Whether the block allocated holds the path and its terminator. The count is exact for a
      translated path; a verbatim one is copied whole, whatever was counted. */
  predicate HoldsHostPath(s: seq<byte>) {
    |HostPath(s)| <= Length(Shown(s))
  }

  function CountIf(s: seq<byte>, p: byte -> bool): nat {
    if s == [] then 0 else (if p(s[0]) then 1 else 0) + CountIf(s[1..], p)
  }

  lemma {:induction false} LengthCounts(s: seq<byte>)
    ensures Length(s) == |s| + CountIf(s, c => c == CARET) - CountIf(s, c => Dropped(c))
  {
    if s != [] {
      LengthCounts(s[1..]);
    }
  }

  /** The host path always fits its block, except that a verbatim path with more dropped
      characters than carets does not. */
  lemma HostPathFits(s: seq<byte>)
    ensures HoldsHostPath(s) <==>
      (Verbatim(s) ==> CountIf(Shown(s), c => Dropped(c)) <= CountIf(Shown(s), c => c == CARET))
  {
    LengthIsBody(Shown(s));
    LengthCounts(Shown(s));
  }

  /** For `/$`, copied whole, one character is counted: the block has two bytes and three are
      written. */
  lemma VerbatimOverruns()
    ensures var s := [SLASH, DOLLAR];
            !HoldsHostPath(s) && |HostPath(s)| + 1 == 3 && Length(Shown(s)) + 1 == 2
  {
    var s := [SLASH, DOLLAR];
    assert s[1..] == [DOLLAR] && [DOLLAR][1..] == [];
    assert Shown([DOLLAR]) == [DOLLAR] && Shown(s) == s;
    assert Length([DOLLAR]) == 0 && Length(s) == 1;
  }

  // ---- When the translations undo each other ----

  predicate Special(c: byte) {
    Dropped(c) || c == AT || c == CARET
  }

  /** Reading dots in pairs, no single dot is followed by a slash. */
  predicate NoDotSegment(s: seq<byte>)
    decreases |s|
  {
    s == [] ||
    if s[0] == DOT then
      if |s| > 1 && s[1] == DOT then NoDotSegment(s[2..])
      else !(|s| > 1 && s[1] == SLASH) && NoDotSegment(s[1..])
    else NoDotSegment(s[1..])
  }

  predicate Plain(s: seq<byte>) {
    forall i :: 0 <= i < |s| ==> Visible(s[i]) && !Special(s[i])
  }

  /** The host paths that survive: visible characters without the six special ones, no dot
      segment, and not a leading dot unless there are two. */
  predicate Survives(s: seq<byte>) {
    && Plain(s) && NoDotSegment(s)
    && (s != [] && s[0] == DOT ==> |s| > 1 && s[1] == DOT)
  }

  lemma {:induction false} RoBodyVisible(s: seq<byte>)
    requires Plain(s)
    ensures forall i :: 0 <= i < |RoBody(s)| ==> Visible(RoBody(s)[i])
    decreases |s|
  {
    if s != [] {
      RoBodyVisible(s[1..]);
      if |s| > 1 {
        RoBodyVisible(s[2..]);
      }
    }
  }

  lemma {:induction false} ShownAll(s: seq<byte>)
    requires forall i :: 0 <= i < |s| ==> Visible(s[i])
    ensures Shown(s) == s
  {}

  lemma HostBodyOne(c: byte, s: seq<byte>)
    ensures HostBody([c] + s) == HostChar(c) + HostBody(s)
  {
    assert ([c] + s)[1..] == s;
  }

  /** The body comes back, shorter by its dot segments. */
  lemma {:induction false} BodyBack(s: seq<byte>)
    requires Plain(s)
    ensures NoDotSegment(s) ==> HostBody(RoBody(s)) == s
    ensures !NoDotSegment(s) ==> |HostBody(RoBody(s))| < |s|
    decreases |s|
  {
    hide HostBody, HostChar, Special;
    Nothing();
    if s != [] {
      HostChars(s[0]);
      if s[0] == DOT && |s| > 1 && (s[1] == DOT || s[1] == SLASH) {
        BodyBack(s[2..]);
        HostBodyOne(CARET, RoBody(s[2..]));
        assert s == [s[0], s[1]] + s[2..];
      } else {
        var c := if s[0] == SLASH then DOT else if s[0] == DOT then SLASH else s[0];
        BodyBack(s[1..]);
        HostBodyOne(c, RoBody(s[1..]));
        assert s == [s[0]] + s[1..];
      }
    }
  }

  lemma HostChars(c: byte)
    ensures HostChar(DOT) == [SLASH] && HostChar(SLASH) == [DOT] && HostChar(CARET) == [DOT, DOT]
    ensures !Special(c) && c != DOT && c != SLASH ==> HostChar(c) == [c]
  {}

  /** A host path consists of visible characters, and a translated one of none of the special
      ones. */
  lemma {:induction false} HostBodyPlain(s: seq<byte>)
    requires forall i :: 0 <= i < |s| ==> Visible(s[i])
    ensures Plain(HostBody(s))
  {
    if s != [] {
      HostBodyPlain(s[1..]);
    }
  }

  lemma SurvivorsReturn(s: seq<byte>)
    requires Survives(s)
    ensures HostPath(RoPath(s)) == s
  {
    BodyBack(s);
    RoBodyVisible(s);
    var r := RoPath(s);
    ShownAll(r);
    if s != [] && s[0] == SLASH {
      HostBodyOne(DOLLAR, RoBody(s));
    } else {
      assert r == RoBody(s);
    }
  }

  lemma RoStart(s: seq<byte>)
    ensures Verbatim(RoPath(s)) ==> s[0] == DOT && RoPath(s) == RoBody(s)
    ensures Verbatim(RoPath(s)) && RoPath(s)[0] == DOT ==> |s| > 1 && s[1] == SLASH && RoBody(s) == RoBody(s[2..])
  {
    assert [] + RoBody(s) == RoBody(s);
  }

  lemma ReturnersSurvive(s: seq<byte>)
    requires HostPath(RoPath(s)) == s
    ensures Survives(s)
  {
    var r := RoPath(s);
    RoStart(s);
    HostBodyPlain(Shown(r));
    BodyBack(s);
    RoBodyVisible(s);
    ShownAll(r);
    if s != [] && s[0] == SLASH {
      HostBodyOne(DOLLAR, RoBody(s));
    } else {
      assert r == RoBody(s);
    }
  }

  /** A host path comes back from its RISC OS form exactly when it survives. */
  lemma PathRoundTrip(s: seq<byte>)
    ensures HostPath(RoPath(s)) == s <==> Survives(s)
  {
    if Survives(s) {
      SurvivorsReturn(s);
    }
    if HostPath(RoPath(s)) == s {
      ReturnersSurvive(s);
    }
  }

  const LETTER: byte := 120

  lemma DotSegmentLost()
    ensures HostPath(RoPath([DOT, SLASH, LETTER])) == [LETTER]
  {
    var s := [DOT, SLASH, LETTER];
    assert s[2..] == [LETTER] && RoBody([LETTER]) == [LETTER];
    assert RoPath(s) == [LETTER];
    assert Shown([LETTER]) == [LETTER] && HostBody([LETTER]) == [LETTER];
  }

  lemma LeadingDotLost()
    ensures HostPath(RoPath([DOT, LETTER])) == [SLASH, LETTER]
  {
    assert [DOT, LETTER][1..] == [LETTER] && RoBody([LETTER]) == [LETTER];
    assert RoPath([DOT, LETTER]) == [SLASH, LETTER];
    assert [SLASH, LETTER][1..] == [LETTER] && Shown([LETTER]) == [LETTER];
  }

  lemma SpecialLost()
    ensures HostPath(RoPath([LETTER, DOLLAR])) == [LETTER]
  {
    var s := [LETTER, DOLLAR];
    assert s[1..] == [DOLLAR] && RoBody([DOLLAR]) == [DOLLAR];
    assert RoPath(s) == s;
    assert Shown([DOLLAR]) == [DOLLAR] && Shown(s) == s;
    assert HostBody([DOLLAR]) == [];
  }

  /** One path lost for each reason: `./x` comes back as `x`, `.x` as `/x`, and `x$` as `x`. */
  lemma LostPaths()
    ensures HostPath(RoPath([DOT, SLASH, LETTER])) == [LETTER]
    ensures HostPath(RoPath([DOT, LETTER])) == [SLASH, LETTER]
    ensures HostPath(RoPath([LETTER, DOLLAR])) == [LETTER]
  {
    hide HostPath, RoPath;
    DotSegmentLost();
    LeadingDotLost();
    SpecialLost();
  }

  // ---- The code itself ----

  /** The character at `i`, or the terminator. */
  function CharAt(s: seq<byte>, i: nat): byte {
    if i < |s| then s[i] else 0
  }

  lemma RoBodyStep(s: seq<byte>, i: nat)
    requires i < |s|
    ensures RoBody(s[i..]) ==
      if s[i] == SLASH then [DOT] + RoBody(s[i + 1..])
      else if s[i] == DOT && CharAt(s, i + 1) == DOT then [CARET] + RoBody(s[i + 2..])
      else if s[i] == DOT && CharAt(s, i + 1) == SLASH then RoBody(s[i + 2..])
      else if s[i] == DOT then [SLASH] + RoBody(s[i + 1..])
      else [s[i]] + RoBody(s[i + 1..])
  {
    var t := s[i..];
    assert t[1..] == s[i + 1..];
    if |t| > 1 {
      assert t[2..] == s[i + 2..];
    }
  }

  /** Writes one character. */
  method Emit(out: array<byte>, at: nat, c: byte) returns (n: nat)
    requires at < out.Length
    modifies out
    ensures n == at + 1 && out[..n] == old(out[..at]) + [c]
  {
    out[at] := c;
    n := at + 1;
  }

  /** `ro_path_from_host_path`; `have` says whether the allocation succeeds. */
  method RoPathFromHostPath(hostPath: seq<byte>, have: bool) returns (out: array<byte>, n: nat, ok: bool)
    requires Text(hostPath)
    ensures ok == have
    ensures ok ==> out.Length == |hostPath| + 2 && n < out.Length && out[..n] == RoPath(hostPath) && out[n] == 0
  {
    hide RoBody, RoPath;
    n, ok := 0, have;
    if !have {
      out := new byte[0];
      return;
    }
    out := new byte[1 + |hostPath| + 1];
    var h := 0;
    RoPathStarts(hostPath);
    if CharAt(hostPath, 0) == SLASH {
      n := Emit(out, n, DOLLAR);
    }
    assert hostPath[0..] == hostPath;
    while h < |hostPath|
      invariant h <= |hostPath| && n <= h + 1
      invariant RoPath(hostPath) == out[..n] + RoBody(hostPath[h..])
    {
      ghost var done, at := out[..n], h;
      RoBodyStep(hostPath, h);
      if hostPath[h] == SLASH {
        n := Emit(out, n, DOT);
        Regroup(done, DOT, RoBody(hostPath[at + 1..]));
      } else if hostPath[h] == DOT {
        if CharAt(hostPath, h + 1) == DOT {
          n := Emit(out, n, CARET);
          Regroup(done, CARET, RoBody(hostPath[at + 2..]));
          h := h + 1;
        } else if CharAt(hostPath, h + 1) == SLASH {
          h := h + 1;
        } else {
          n := Emit(out, n, SLASH);
          Regroup(done, SLASH, RoBody(hostPath[at + 1..]));
        }
      } else {
        n := Emit(out, n, hostPath[h]);
        Regroup(done, hostPath[at], RoBody(hostPath[at + 1..]));
      }
      h := h + 1;
    }
    RoBodyEnd();
    out[n] := 0;
  }

  lemma RoPathStarts(s: seq<byte>)
    ensures RoPath(s) == (if CharAt(s, 0) == SLASH then [DOLLAR] else []) + RoBody(s)
  {}

  lemma Regroup(done: seq<byte>, c: byte, rest: seq<byte>)
    ensures done + ([c] + rest) == done + [c] + rest
  {}

  lemma RoBodyEnd()
    ensures RoBody([]) == []
  {}

  lemma {:induction false} HostBodyAppends(s: seq<byte>, c: byte)
    ensures HostBody(s + [c]) == HostBody(s) + HostChar(c)
    ensures Length(s + [c]) == Length(s) + Cost(c)
    decreases |s|
  {
    hide HostChar, Cost;
    if s == [] {
      assert s + [c] == [c] && [c][1..] == [];
    } else {
      assert (s + [c])[1..] == s[1..] + [c];
      HostBodyAppends(s[1..], c);
    }
  }

  /** The first pass: where the path ends, and what its host form costs. */
  method Measure(roPath: seq<byte>) returns (end: nat, len: nat)
    ensures end == |Shown(roPath)| && len == Length(Shown(roPath))
  {
    hide HostBody, HostChar;
    end, len := 0, 0;
    assert roPath[..0] == [];
    while Visible(CharAt(roPath, end))
      invariant end <= |roPath| && forall i :: 0 <= i < end ==> Visible(roPath[i])
      invariant len == Length(roPath[..end])
      decreases |roPath| - end
    {
      HostBodyAppends(roPath[..end], roPath[end]);
      assert roPath[..end + 1] == roPath[..end] + [roPath[end]];
      len := len + Cost(roPath[end]);
      end := end + 1;
    }
    ShownIs(roPath, end);
  }

  lemma ShownIs(s: seq<byte>, end: nat)
    requires end <= |s| && forall i :: 0 <= i < end ==> Visible(s[i])
    requires end < |s| ==> !Visible(s[end])
    ensures Shown(s) == s[..end]
  {
  }

  /** Writes the host form of one character. */
  method PutChar(out: array<byte>, at: nat, c: byte) returns (n: nat)
    requires at + Cost(c) <= out.Length
    modifies out
    ensures n == at + Cost(c) && out[..n] == old(out[..at]) + HostChar(c)
  {
    n := at;
    if c == AT || c == SLASH {
      out[n] := DOT;
      n := n + 1;
    } else if c == CARET {
      out[n], out[n + 1] := DOT, DOT;
      n := n + 2;
    } else if c == DOT {
      out[n] := SLASH;
      n := n + 1;
    } else if !Dropped(c) {
      out[n] := c;
      n := n + 1;
    }
    assert out[..at] == old(out[..at]);
  }

  /** `host_path_from_ro_path`. What it writes fits the block it allocates. */
  method HostPathFromRoPath(roPath: seq<byte>, have: bool) returns (out: array<byte>, n: nat, ok: bool)
    requires Text(roPath) && HoldsHostPath(roPath)
    ensures ok == have
    ensures ok ==> out.Length == Length(Shown(roPath)) + 1 && n < out.Length
    ensures ok ==> out[..n] == HostPath(roPath) && out[n] == 0
  {
    hide HostBody, HostChar, Length, Cost;
    n, ok := 0, have;
    var end, len := Measure(roPath);
    if !have {
      out := new byte[0];
      return;
    }
    out := new byte[len + 1];
    ghost var s := Shown(roPath);
    if CharAt(roPath, 0) == DOT || CharAt(roPath, 0) == SLASH {
      while n < end
        invariant n <= end && out[..n] == s[..n]
      {
        out[n] := roPath[n];
        n := n + 1;
      }
    } else {
      var k := 0;
      Nothing();
      assert s[..0] == [];
      while k < end
        invariant k <= end && n == Length(s[..k]) <= len && out[..n] == HostBody(s[..k])
      {
        HostBodyAppends(s[..k], s[k]);
        LengthGrows(s, k + 1);
        assert s[..k + 1] == s[..k] + [s[k]];
        n := PutChar(out, n, roPath[k]);
        k := k + 1;
      }
      assert s[..k] == s;
    }
    out[n] := 0;
  }

  lemma Nothing()
    ensures HostBody([]) == [] && Length([]) == 0
  {}

  lemma {:induction false} LengthGrows(s: seq<byte>, k: nat)
    requires k <= |s|
    ensures Length(s[..k]) <= Length(s)
    decreases |s| - k
  {
    if k < |s| {
      assert s[..k + 1] == s[..k] + [s[k]];
      HostBodyAppends(s[..k], s[k]);
      LengthGrows(s, k + 1);
    } else {
      assert s[..k] == s;
    }
  }
}
