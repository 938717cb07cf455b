/** Bytes, and little-endian integers stored in them. */
module Bytes {

  newtype byte = x: int | 0 <= x < 256

  /** The `n` low-order bytes of `v`, least significant first. */
  function Enc(v: nat, n: nat): (s: seq<byte>)
    ensures |s| == n
  {
    if n == 0 then [] else [(v % 256) as byte] + Enc(v / 256, n - 1)
  }

  function Dec(s: seq<byte>): nat {
    if s == [] then 0 else s[0] as nat + 256 * Dec(s[1..])
  }

  function Pow256(n: nat): (r: nat)
    ensures r > 0
  {
    if n == 0 then 1 else 256 * Pow256(n - 1)
  }

  lemma {:induction false} DecEnc(v: nat, n: nat)
    requires v < Pow256(n)
    ensures Dec(Enc(v, n)) == v
  {
    if n > 0 {
      DecEnc(v / 256, n - 1);
      assert Enc(v, n)[1..] == Enc(v / 256, n - 1);
    }
  }

  lemma {:induction false} DecBound(s: seq<byte>)
    ensures Dec(s) < Pow256(|s|)
  {
    if s != [] {
      DecBound(s[1..]);
    }
  }

  /** One past the largest 64-bit value. */
  const TWO64: nat := 0x1_0000_0000_0000_0000

  lemma Pow8()
    ensures Pow256(8) == TWO64
  {
    assert Pow256(4) == 0x1_0000_0000;
  }

  // ---- 64-bit fields of a memory region ----

  function Field(m: seq<byte>, a: nat): nat
    requires a + 8 <= |m|
  {
    Dec(m[a..a + 8])
  }

  function Put(m: seq<byte>, a: nat, v: nat): (r: seq<byte>)
    requires a + 8 <= |m|
    ensures |r| == |m|
    ensures forall x :: 0 <= x < |m| && !(a <= x < a + 8) ==> r[x] == m[x]
  {
    m[..a] + Enc(v, 8) + m[a + 8..]
  }

  lemma FieldOfPut(m: seq<byte>, a: nat, v: nat)
    requires a + 8 <= |m| && v < TWO64
    ensures Field(Put(m, a, v), a) == v
  {
    Pow8();
    DecEnc(v, 8);
    assert Put(m, a, v)[a..a + 8] == Enc(v, 8);
  }

  lemma FieldSame(m: seq<byte>, r: seq<byte>, a: nat)
    requires |r| == |m| && a + 8 <= |m|
    requires forall x :: a <= x < a + 8 ==> r[x] == m[x]
    ensures Field(r, a) == Field(m, a)
  {
    assert r[a..a + 8] == m[a..a + 8];
  }

  lemma SubSlice(m: seq<byte>, g: nat, n: nat, o: nat, l: nat)
    requires g + n <= |m| && o + l <= n
    ensures m[g..g + n][o..o + l] == m[g + o..g + o + l]
  {
    var s := m[g..g + n];
    var a, b := m[g + o..g + o + l], s[o..o + l];
    forall x | 0 <= x < l ensures a[x] == b[x] {
      assert b[x] == s[o + x];
    }
    assert a == b;
  }
}
