/** What the heap's operations do to the region as a whole: reading a header, moving a
    block, raising the limit, and an owner's own writes. */
module HeapEdits {
  import opened Bytes
  import opened HeapLayout
  import opened HeapImage

  /** Every live block of `ls0` but `b` is still a block of `ls1`, with the same bytes. */
  ghost predicate OthersKept(m0: seq<byte>, ls0: seq<Block>, m1: seq<byte>, ls1: seq<Block>, b: Block) {
    forall o :: o in Live(ls0) && o != b ==>
      && o in ls1 && o.at + HEADER + o.size <= |m0| && o.at + HEADER + o.size <= |m1|
      && Data(m1, o) == Data(m0, o)
  }

  /** The headers before index `n` carry the new limit, the rest still the old one. */
  ghost predicate LimitsSet(m: seq<byte>, ls: seq<Block>, base: nat, limit: nat, size: nat, n: nat) {
    && WellFormed(ls, limit) && limit <= |m| && 0 < base && base + |m| < TWO64 && base + size < TWO64
    && forall j :: 0 <= j < |ls| ==> HeaderLimit(m, ls, base, limit, size, n, j)
  }

  ghost predicate HeaderLimit(m: seq<byte>, ls: seq<Block>, base: nat, limit: nat, size: nat, n: nat, j: nat)
    requires j < |ls|
  {
    HeaderOk(m, ls, base, if j < n then size else limit, j)
  }

  /** Every header carries the new limit and is otherwise as before. */
  ghost predicate Relimited(m: seq<byte>, ls: seq<Block>, base: nat, size: nat) {
    forall i :: 0 <= i < |ls| ==> HeaderOk(m, ls, base, size, i)
  }

  lemma LimitsStart(m: seq<byte>, ls: seq<Block>, base: nat, limit: nat, size: nat)
    requires Encodes(m, ls, base, limit) && base + size < TWO64
    ensures LimitsSet(m, ls, base, limit, size, 0) && InRegion(m, ls) && SameData(m, m, ls)
  {
    hide HeaderAt;
    BlocksInRegion(m, ls, limit);
    forall j | 0 <= j < |ls| ensures HeaderLimit(m, ls, base, limit, size, 0, j) {
      assert HeaderOk(m, ls, base, limit, j);
    }
  }

  lemma LimitFacts(m: seq<byte>, ls: seq<Block>, base: nat, limit: nat, size: nat, k: nat, n: nat)
    requires LimitsSet(m, ls, base, limit, size, k) && n < |ls|
    ensures ls[n].at + HEADER <= |m| && base + size < TWO64 && base > 0
    ensures Field(m, ls[n].at + NEXT) == NextPtr(ls, base, n)
  {
    assert HeaderLimit(m, ls, base, limit, size, k, n);
  }

  lemma SetOneLimit(m0: seq<byte>, m: seq<byte>, ls: seq<Block>, base: nat, limit: nat, size: nat, i: nat)
    requires LimitsSet(m, ls, base, limit, size, i) && i < |ls| && ls[i].at + HEADER <= |m|
    requires InRegion(m0, ls) && |m0| == |m| && SameData(m0, m, ls)
    ensures var r := Put(m, ls[i].at + LIMIT, base + size);
            LimitsSet(r, ls, base, limit, size, i + 1) && SameData(m0, r, ls)
  {
    hide HeaderAt, Put, WellFormed;
    var r := Put(m, ls[i].at + LIMIT, base + size);
    PutLimit(m, ls[i].at, base + size);
    OtherHeaders(m, r, ls, limit, i);
    var n := i + 1;
    forall j | 0 <= j < |ls| ensures HeaderLimit(r, ls, base, limit, size, n, j) {
      assert HeaderLimit(m, ls, base, limit, size, i, j);
    }
    HeaderWriteKeepsData(m, r, ls, limit, ls[i]);
  }

  lemma LimitsDone(m: seq<byte>, ls: seq<Block>, base: nat, limit: nat, size: nat)
    requires LimitsSet(m, ls, base, limit, size, |ls|)
    ensures Relimited(m, ls, base, size)
    ensures Encodes(m, ls, base, size) <==> WellFormed(ls, size) && size <= |m|
    ensures limit <= size && size % 4 == 0 ==> WellFormed(ls, size)
  {
    hide HeaderAt;
    if limit <= size && size % 4 == 0 {
      GrowKeeps(ls, limit, size);
    }
    forall j | 0 <= j < |ls| ensures HeaderOk(m, ls, base, size, j) {
      assert HeaderLimit(m, ls, base, limit, size, |ls|, j);
    }
  }

  lemma WriteInside(m: seq<byte>, r: seq<byte>, ls: seq<Block>, base: nat, limit: nat, i: nat, k: nat, v: byte)
    requires Encodes(m, ls, base, limit) && i < |ls| && k < ls[i].size
    requires ls[i].at + HEADER + k < |m|
    requires r == m[ls[i].at + HEADER + k := v]
    ensures Encodes(r, ls, base, limit) && InRegion(m, ls)
    ensures Data(r, ls[i]) == Data(m, ls[i])[k := v]
    ensures OthersKept(m, ls, r, ls, ls[i])
  {
    hide HeaderAt, WellFormed;
    Facts(m, ls, base, limit, i);
    forall j | 0 <= j < |ls| ensures HeaderOk(r, ls, base, limit, j) {
      Facts(m, ls, base, limit, j);
      if j < i {
        Ordered(ls, limit, j, i);
      } else if i < j {
        Ordered(ls, limit, i, j);
      }
      HeaderSame(m, r, ls[j].at);
    }
    forall o | o in Live(ls) && o != ls[i] ensures Data(r, o) == Data(m, o) {
      Disjoint(ls, limit, o, ls[i]);
    }
  }

  lemma LiveAt(ls: seq<Block>, k: nat)
    requires k < |ls| && ls[k].size != 0
    ensures ls[k] in Live(ls)
  {}

  lemma FreeFits(ls: seq<Block>, limit: nat, i: nat)
    requires WellFormed(ls, limit) && i < |ls|
    ensures ls[i].at + HEADER + Align(0) <= GapEnd(ls, limit, i)
  {
    assert GapAddr(ls[i]) <= GapEnd(ls, limit, i);
  }

  lemma ResizedLive(m: seq<byte>, ls: seq<Block>, m1: seq<byte>, ls1: seq<Block>, b: Block, c: Block)
    requires Live(ls1) == Live(ls) - {b} + {c}
    requires InRegion(m, ls) && |m1| == |m|
    requires forall o :: o in ls ==> Data(m1, o) == Data(m, o)
    ensures c in ls1 && OthersKept(m, ls, m1, ls1, b)
  {
    assert c in Live(ls1);
    forall o | o in Live(ls) && o != b ensures o in ls1 {
      assert o in Live(ls1);
    }
  }

  lemma MovedLive(m: seq<byte>, ls: seq<Block>, m1: seq<byte>, ls1: seq<Block>, m2: seq<byte>, ls2: seq<Block>,
                  b: Block, c: Block)
    requires InRegion(m, ls) && InRegion(m1, ls1) && |m| == |m1| == |m2| && SameData(m, m1, ls)
    requires forall o :: o in ls1 ==> Data(m2, o) == Data(m1, o)
    requires Live(ls1) == Live(ls) + {c} && c !in Live(ls) && b in Live(ls) && c in ls1
    requires Live(ls2) == Live(ls1) - {b}
    ensures Live(ls2) == Live(ls) - {b} + {c}
    ensures b in ls && c in ls2 && OthersKept(m, ls, m2, ls2, b)
  {
    assert c in Live(ls2);
    forall o | o in Live(ls) && o != b ensures o in ls1 && o in ls2 {
      assert o in Live(ls2);
      assert o in Live(ls1);
    }
  }

  /** Changing only the size of a block keeps the bytes both sizes cover. */
  lemma PrefixKept(m: seq<byte>, r: seq<byte>, b: Block, size: nat)
    requires |r| == |m| && b.at + HEADER + b.size <= |m| && b.at + HEADER + size <= |m|
    requires Data(r, b) == Data(m, b)
    ensures var n := if size < b.size then size else b.size;
            Data(r, Block(b.at, size))[..n] == Data(m, b)[..n]
  {
    var n := if size < b.size then size else b.size;
    assert Data(r, Block(b.at, size))[..n] == r[b.at + HEADER..b.at + HEADER + n] == Data(r, b)[..n];
  }

  /** The copied block, with its header corrected, is linked in and keeps its bytes. */
  ghost predicate Copied(m: seq<byte>, r: seq<byte>, ls: seq<Block>, base: nat, limit: nat, i: nat, k: nat, size: nat)
    requires i < |ls| && k < |ls|
  {
    var g := GapAddr(ls[i]);
    && Linked(m, r, ls, base, limit, i, size)
    && g + HEADER + size <= |m| && ls[k].at + HEADER + ls[k].size <= |m| && ls[k].size <= size
    && r[g + HEADER..g + HEADER + ls[k].size] == m[ls[k].at + HEADER..ls[k].at + HEADER + ls[k].size]
  }

  lemma CopyDone(m: seq<byte>, r: seq<byte>, ls: seq<Block>, base: nat, limit: nat, i: nat, k: nat, size: nat)
    requires Encodes(m, ls, base, limit) && i < |ls| && k < |ls| && size > 0
    requires Gap(ls, limit, i) >= Total(size) && Copied(m, r, ls, base, limit, i, k, size)
    ensures Encodes(r, Insert(ls, i, size), base, limit)
    ensures InRegion(m, ls) && InRegion(r, Insert(ls, i, size)) && SameData(m, r, ls)
    ensures var b, c := ls[k], Insert(ls, i, size)[i + 1];
            b in ls && c in Insert(ls, i, size) && b.size <= c.size && Data(r, c)[..b.size] == Data(m, b)
  {
    hide HeaderAt, Encodes, Align, Total, Linked, WellFormed;
    Inserted(m, r, ls, base, limit, i, size);
    Facts(r, Insert(ls, i, size), base, limit, 0);
    var c := Insert(ls, i, size)[i + 1];
    assert c == Block(GapAddr(ls[i]), size);
    assert c in Insert(ls, i, size) && c.at + HEADER + c.size <= |r|;
    assert r[c.at + HEADER..c.at + HEADER + size][..ls[k].size] == r[c.at + HEADER..c.at + HEADER + ls[k].size];
    assert Data(r, c)[..ls[k].size] == r[c.at + HEADER..c.at + HEADER + ls[k].size];
  }

  /** The five header writes after the copy, as one region. */
  function Moved(m1: seq<byte>, g: nat, a: nat, base: nat, next: nat, size: nat): (r: seq<byte>)
    requires g + HEADER <= |m1| && a + HEADER <= |m1|
    ensures |r| == |m1|
  {
    Put(Put(Put(Put(m1, g + ADDR, base + g), g + NEXT, next), a + NEXT, base + g), g + SIZE, size)
  }

  /** `n` bytes at `a` were copied to `g`, and nothing else changed. */
  ghost predicate RangeCopied(m: seq<byte>, r: seq<byte>, g: int, a: int, n: nat) {
    && |r| == |m| && 0 <= g && 0 <= a && g + n <= |m| && a + n <= |m|
    && r[g..g + n] == m[a..a + n]
    && forall x :: 0 <= x < |m| && !(g <= x < g + n) ==> r[x] == m[x]
  }

  lemma CopyLinked(m: seq<byte>, m1: seq<byte>, ls: seq<Block>, base: nat, limit: nat, i: nat, k: nat, size: nat)
    requires Encodes(m, ls, base, limit) && i < |ls| && k < |ls| && i != k
    requires 0 < ls[k].size < size && Gap(ls, limit, i) >= Total(size) && |m1| == |m|
    requires RangeCopied(m, m1, GapAddr(ls[i]), ls[k].at, Total(ls[k].size))
    ensures GapAddr(ls[i]) + HEADER <= |m| && ls[i].at + HEADER <= |m|
    ensures Copied(m, Moved(m1, GapAddr(ls[i]), ls[i].at, base, NextPtr(ls, base, i), size), ls, base, limit, i, k, size)
  {
    hide HeaderAt, Encodes, WellFormed, Align, Total, Field, Put, Moved, GapEnd, Data, InRegion;
    Facts(m, ls, base, limit, i);
    Facts(m, ls, base, limit, k);
    MoveBounds(m, ls, base, limit, i, k, size);
    var g, n, a := GapAddr(ls[i]), Total(ls[k].size), ls[i].at;
    HeaderMoved(m, m1, ls[k].at, g, n);
    HeaderSame(m, m1, a);
    MovedHeaders(m1, g, a, base, NextPtr(ls, base, i), size);
    MovedData(m, m1, g, a, base, NextPtr(ls, base, i), size, ls[k].at, ls[k].size, n);
  }

  lemma MovedData(m: seq<byte>, m1: seq<byte>, g: nat, a: nat, base: nat, next: nat, size: nat, b: nat, len: nat, n: nat)
    requires |m1| == |m| && g + n <= |m| && b + n <= |m| && HEADER + len <= n
    requires g + HEADER <= |m1| && a + HEADER <= g && base + g < TWO64 && next < TWO64 && size < TWO64
    requires m1[g..g + n] == m[b..b + n]
    ensures Moved(m1, g, a, base, next, size)[g + HEADER..g + HEADER + len] == m[b + HEADER..b + HEADER + len]
  {
    hide HeaderAt, Moved;
    MovedHeaders(m1, g, a, base, next, size);
    assert Moved(m1, g, a, base, next, size)[g + HEADER..g + HEADER + len] == m1[g + HEADER..g + HEADER + len];
    SubSlice(m1, g, n, HEADER, len);
    SubSlice(m, b, n, HEADER, len);
  }

  lemma MovedHeaders(m1: seq<byte>, g: nat, a: nat, base: nat, next: nat, size: nat)
    requires g + HEADER <= |m1| && a + HEADER <= g && base + g < TWO64 && next < TWO64 && size < TWO64
    ensures var r := Moved(m1, g, a, base, next, size);
            && HeaderAt(r, g) == HeaderAt(m1, g).(addr := base + g, next := next, size := size)
            && HeaderAt(r, a) == HeaderAt(m1, a).(next := base + g)
            && forall x :: 0 <= x < |m1| && !(g <= x < g + HEADER) && !(a <= x < a + HEADER) ==> r[x] == m1[x]
  {
    hide HeaderAt, Put;
    var m2 := Put(m1, g + ADDR, base + g);
    var m3 := Put(m2, g + NEXT, next);
    var m4 := Put(m3, a + NEXT, base + g);
    PutAddr(m1, g, base + g);
    PutNext(m2, g, next);
    PutNext(m3, a, base + g);
    PutSize(m4, g, size);
    HeaderSame(m1, m2, a);
    HeaderSame(m2, m3, a);
    HeaderSame(m3, m4, g);
    HeaderSame(m4, Put(m4, g + SIZE, size), a);
    forall x | 0 <= x < |m1| && !(g <= x < g + HEADER) && !(a <= x < a + HEADER)
      ensures Moved(m1, g, a, base, next, size)[x] == m1[x]
    {
      assert m4[x] == m3[x] == m2[x] == m1[x];
    }
    HeaderIs(m1, g);
  }

  lemma ResizeFits(ls: seq<Block>, limit: nat, i: nat, size: nat)
    requires WellFormed(ls, limit) && 0 < i < |ls|
    requires ls[i].at + HEADER + Align(size) <= GapEnd(ls, limit, i)
    ensures size <= limit
  {
    ResizeKeeps(ls, limit, i, size);
  }

  /** A header copied elsewhere reads the same. */
  lemma HeaderMoved(m: seq<byte>, r: seq<byte>, a: nat, g: nat, n: nat)
    requires |r| == |m| && HEADER <= n && a + n <= |m| && g + n <= |m|
    requires r[g..g + n] == m[a..a + n]
    ensures HeaderAt(r, g) == HeaderAt(m, a)
  {
    SubSlice(m, a, n, 0, 8);
    SubSlice(r, g, n, 0, 8);
    SubSlice(m, a, n, ADDR, 8);
    SubSlice(r, g, n, ADDR, 8);
    SubSlice(m, a, n, SIZE, 8);
    SubSlice(r, g, n, SIZE, 8);
    SubSlice(m, a, n, LIMIT, 8);
    SubSlice(r, g, n, LIMIT, 8);
    SubSlice(m, a, n, NEXT, 8);
    SubSlice(r, g, n, NEXT, 8);
  }

  lemma MoveBounds(m: seq<byte>, ls: seq<Block>, base: nat, limit: nat, i: nat, k: nat, size: nat)
    requires Encodes(m, ls, base, limit) && i < |ls| && k < |ls| && i != k
    requires ls[k].size < size && Gap(ls, limit, i) >= Total(size)
    ensures GapAddr(ls[i]) + HEADER <= GapAddr(ls[i]) + Total(size) <= |m|
    ensures 0 < base && base + |m| < TWO64 && size <= |m|
    ensures NextPtr(ls, base, i) < TWO64 && ls[i].at + HEADER <= |m|
    ensures HEADER + ls[k].size <= Total(ls[k].size) <= Total(size) && HEADER + size <= Total(size)
    ensures ls[k].at + Total(ls[k].size) <= GapAddr(ls[i]) || GapAddr(ls[i]) + Total(size) <= ls[k].at
    ensures ls[k].at + Total(ls[k].size) <= |m|
    ensures ls[i].at + HEADER <= GapAddr(ls[i])
    ensures ls[i].at + HEADER <= ls[k].at || ls[k].at + Total(ls[k].size) <= ls[i].at
  {
    InsertBounds(m, ls, base, limit, i, size);
    BelowLimit(ls, limit, i);
    BelowLimit(ls, limit, k);
    if i + 1 < |ls| {
      BelowLimit(ls, limit, i + 1);
    }
    TotalIsHeaderPlusData(ls[k].size);
    if k < i {
      Ordered(ls, limit, k, i);
    } else {
      Ordered(ls, limit, i, k);
      if i + 1 < k {
        Ordered(ls, limit, i + 1, k);
      }
    }
  }

  /** Where a live block is in the chain; never at the root. */
  ghost function IndexOf(ls: seq<Block>, base: nat, limit: nat, m: seq<byte>, b: Block): (i: nat)
    requires Encodes(m, ls, base, limit) && b in Live(ls)
    ensures 0 < i < |ls| && ls[i] == b && b.size != 0
    ensures b.at + HEADER <= GapEnd(ls, limit, i)
  {
    var i :| 0 <= i < |ls| && ls[i] == b;
    assert GapAddr(ls[i]) <= GapEnd(ls, limit, i);
    i
  }

  lemma WholeData(m: seq<byte>, b: Block)
    requires b.at + HEADER + b.size <= |m|
    ensures Data(m, b)[..b.size] == Data(m, b)
  {}

  lemma Chain(m: seq<byte>, ls: seq<Block>, base: nat, limit: nat)
    requires Encodes(m, ls, base, limit)
    ensures WellFormed(ls, limit) && base > 0
  {}

  lemma KeptTwice(m0: seq<byte>, m1: seq<byte>, m2: seq<byte>, ls0: seq<Block>, ls1: seq<Block>)
    requires InRegion(m0, ls0) && |m0| == |m1| == |m2| && SameData(m0, m1, ls0)
    requires InRegion(m1, ls1) && SameData(m1, m2, ls1) && Live(ls0) == Live(ls1)
    ensures SameData(m0, m2, ls0)
  {
    forall b | b in Live(ls0) ensures Data(m2, b) == Data(m0, b) {
      assert b in Live(ls1);
    }
  }

  /** What the header of block `i` says. */
  lemma Facts(m: seq<byte>, ls: seq<Block>, base: nat, limit: nat, i: nat)
    requires Encodes(m, ls, base, limit) && i < |ls|
    ensures 0 < base && base + |m| < TWO64 && limit <= |m| && WellFormed(ls, limit)
    ensures ls[i].at + HEADER + ls[i].size <= |m| && GapAddr(ls[i]) <= GapEnd(ls, limit, i) <= limit
    ensures HeaderAt(m, ls[i].at) == Header(MAGIC, base + ls[i].at, ls[i].size, base + limit, NextPtr(ls, base, i))
    ensures Field(m, ls[i].at + SIZE) == ls[i].size
    ensures Field(m, ls[i].at + LIMIT) == base + limit
    ensures Field(m, ls[i].at + NEXT) == NextPtr(ls, base, i)
    ensures InRegion(m, ls) && SameData(m, m, ls)
  {
    hide Align;
    assert HeaderOk(m, ls, base, limit, i);
    BelowLimit(ls, limit, i);
    if i + 1 < |ls| {
      BelowLimit(ls, limit, i + 1);
    }
    BlocksInRegion(m, ls, limit);
  }

  lemma Root(m: seq<byte>, ls: seq<Block>, base: nat, limit: nat)
    requires Encodes(m, ls, base, limit)
    ensures 0 < base && |ls| > 0 && ls[0].at == 0 && WellFormed(ls, limit)
  {}

  lemma HeaderIs(m: seq<byte>, a: nat)
    requires a + HEADER <= |m|
    ensures HeaderAt(m, a) == Header(Field(m, a), Field(m, a + ADDR), Field(m, a + SIZE), Field(m, a + LIMIT), Field(m, a + NEXT))
  {}

  lemma InsertBounds(m: seq<byte>, ls: seq<Block>, base: nat, limit: nat, i: nat, size: nat)
    requires Encodes(m, ls, base, limit) && i < |ls|
    requires Gap(ls, limit, i) >= Total(size)
    ensures GapAddr(ls[i]) + Total(size) <= |m| && Total(size) >= HEADER + size
    ensures base > 0 && base + |m| < TWO64
  {
    if i + 1 < |ls| {
      BelowLimit(ls, limit, i + 1);
    }
  }
}
