/** How a heap layout is stored in its own region: a 40-byte header in front of every data
    area, linked by host pointers. */
module HeapImage {
  import opened Bytes
  import opened HeapLayout

  const MAGIC: nat := 0x27111979

  // Offsets of the header's fields.
  const ADDR := 8
  const SIZE := 16
  const LIMIT := 24
  const NEXT := 32

  datatype Header = Header(magic: nat, addr: nat, size: nat, limit: nat, next: nat)

  function HeaderAt(m: seq<byte>, a: nat): Header
    requires a + HEADER <= |m|
  {
    Header(Field(m, a), Field(m, a + ADDR), Field(m, a + SIZE), Field(m, a + LIMIT), Field(m, a + NEXT))
  }

  /** `TOTAL` in 64-bit arithmetic. */
  function WrappedTotal(size: nat): nat {
    Align((size + HEADER) % TWO64) % TWO64
  }

  /** Wrap-around changes it exactly for the last 43 sizes, for which it asks for no more than a
      header's worth of gap. */
  lemma TotalWraps(size: nat)
    requires size < TWO64
    ensures WrappedTotal(size) == Total(size) <==> size + HEADER + 3 < TWO64
    ensures size + HEADER + 3 >= TWO64 ==> WrappedTotal(size) <= HEADER
  {
    hide Align;
    var n := size + HEADER;
    if n >= TWO64 {
      assert n % TWO64 == n - TWO64;
    } else {
      assert n % TWO64 == n;
      if n + 3 >= TWO64 {
        assert Align(n) == TWO64;
      }
    }
  }

  /** The pointer that links block `i` to its successor; 0 is NULL. */
  function NextPtr(ls: seq<Block>, base: nat, i: nat): nat
    requires i < |ls|
  {
    if i + 1 < |ls| then base + ls[i + 1].at else 0
  }

  ghost predicate HeaderOk(m: seq<byte>, ls: seq<Block>, base: nat, limit: nat, i: nat)
    requires i < |ls|
  {
    && ls[i].at + HEADER <= |m|
    && HeaderAt(m, ls[i].at) == Header(MAGIC, base + ls[i].at, ls[i].size, base + limit, NextPtr(ls, base, i))
  }

  /** The region `m`, loaded at host address `base`, holds the heap `ls`. */
  ghost predicate Encodes(m: seq<byte>, ls: seq<Block>, base: nat, limit: nat) {
    && WellFormed(ls, limit) && limit <= |m|
    && 0 < base && base + |m| < TWO64
    && forall i :: 0 <= i < |ls| ==> HeaderOk(m, ls, base, limit, i)
  }

  /** The bytes of a block's data area. */
  function Data(m: seq<byte>, b: Block): seq<byte>
    requires b.at + HEADER + b.size <= |m|
  {
    m[b.at + HEADER..b.at + HEADER + b.size]
  }

  ghost predicate InRegion(m: seq<byte>, ls: seq<Block>) {
    forall b :: b in ls ==> b.at + HEADER + b.size <= |m|
  }

  lemma BlocksInRegion(m: seq<byte>, ls: seq<Block>, limit: nat)
    requires WellFormed(ls, limit) && limit <= |m|
    ensures InRegion(m, ls)
  {
    forall b | b in ls ensures b.at + HEADER + b.size <= |m| {
      var i :| 0 <= i < |ls| && ls[i] == b;
      BelowLimit(ls, limit, i);
    }
  }

  /** Every live block of `ls` holds the same bytes in both regions. */
  ghost predicate SameData(m: seq<byte>, r: seq<byte>, ls: seq<Block>)
    requires InRegion(m, ls) && |r| == |m|
  {
    forall b :: b in Live(ls) ==> Data(r, b) == Data(m, b)
  }

  /** Writing inside a header of the heap disturbs no data area. */
  lemma HeaderWriteKeepsData(m: seq<byte>, r: seq<byte>, ls: seq<Block>, limit: nat, c: Block)
    requires WellFormed(ls, limit) && limit <= |m| == |r| && c in ls
    requires forall x :: 0 <= x < |m| && !(c.at <= x < c.at + HEADER) ==> r[x] == m[x]
    ensures InRegion(m, ls)
    ensures forall b :: b in ls ==> Data(r, b) == Data(m, b)
  {
    BlocksInRegion(m, ls, limit);
    forall b | b in ls ensures Data(r, b) == Data(m, b) {
      if b != c {
        Disjoint(ls, limit, b, c);
      }
    }
  }

  lemma HeaderSame(m: seq<byte>, r: seq<byte>, a: nat)
    requires |r| == |m| && a + HEADER <= |m|
    requires forall x :: a <= x < a + HEADER ==> r[x] == m[x]
    ensures HeaderAt(r, a) == HeaderAt(m, a)
  {
    FieldSame(m, r, a);
    FieldSame(m, r, a + ADDR);
    FieldSame(m, r, a + SIZE);
    FieldSame(m, r, a + LIMIT);
    FieldSame(m, r, a + NEXT);
  }

  // ---- Single field updates of a header ----

  lemma PutSize(m: seq<byte>, a: nat, v: nat)
    requires a + HEADER <= |m| && v < TWO64
    ensures HeaderAt(Put(m, a + SIZE, v), a) == HeaderAt(m, a).(size := v)
  {
    var r := Put(m, a + SIZE, v);
    FieldOfPut(m, a + SIZE, v);
    FieldSame(m, r, a);
    FieldSame(m, r, a + ADDR);
    FieldSame(m, r, a + LIMIT);
    FieldSame(m, r, a + NEXT);
  }

  lemma PutNext(m: seq<byte>, a: nat, v: nat)
    requires a + HEADER <= |m| && v < TWO64
    ensures HeaderAt(Put(m, a + NEXT, v), a) == HeaderAt(m, a).(next := v)
  {
    var r := Put(m, a + NEXT, v);
    FieldOfPut(m, a + NEXT, v);
    FieldSame(m, r, a);
    FieldSame(m, r, a + ADDR);
    FieldSame(m, r, a + SIZE);
    FieldSame(m, r, a + LIMIT);
  }

  lemma PutAddr(m: seq<byte>, a: nat, v: nat)
    requires a + HEADER <= |m| && v < TWO64
    ensures HeaderAt(Put(m, a + ADDR, v), a) == HeaderAt(m, a).(addr := v)
  {
    var r := Put(m, a + ADDR, v);
    FieldOfPut(m, a + ADDR, v);
    FieldSame(m, r, a);
    FieldSame(m, r, a + SIZE);
    FieldSame(m, r, a + LIMIT);
    FieldSame(m, r, a + NEXT);
  }

  lemma PutLimit(m: seq<byte>, a: nat, v: nat)
    requires a + HEADER <= |m| && v < TWO64
    ensures HeaderAt(Put(m, a + LIMIT, v), a) == HeaderAt(m, a).(limit := v)
  {
    var r := Put(m, a + LIMIT, v);
    FieldOfPut(m, a + LIMIT, v);
    FieldSame(m, r, a);
    FieldSame(m, r, a + ADDR);
    FieldSame(m, r, a + SIZE);
    FieldSame(m, r, a + NEXT);
  }

  lemma PutMagic(m: seq<byte>, a: nat, v: nat)
    requires a + HEADER <= |m| && v < TWO64
    ensures HeaderAt(Put(m, a, v), a) == HeaderAt(m, a).(magic := v)
  {
    var r := Put(m, a, v);
    FieldOfPut(m, a, v);
    FieldSame(m, r, a + ADDR);
    FieldSame(m, r, a + SIZE);
    FieldSame(m, r, a + LIMIT);
    FieldSame(m, r, a + NEXT);
  }

  /** A write inside the header of block `i` leaves every other header as it was. */
  lemma OtherHeaders(m: seq<byte>, r: seq<byte>, ls: seq<Block>, limit: nat, i: nat)
    requires WellFormed(ls, limit) && limit <= |m| == |r| && i < |ls|
    requires forall x :: 0 <= x < |m| && !(ls[i].at <= x < ls[i].at + HEADER) ==> r[x] == m[x]
    ensures forall j :: 0 <= j < |ls| && j != i ==> ls[j].at + HEADER <= |m| && HeaderAt(r, ls[j].at) == HeaderAt(m, ls[j].at)
  {
    forall j | 0 <= j < |ls| && j != i
      ensures ls[j].at + HEADER <= |m| && HeaderAt(r, ls[j].at) == HeaderAt(m, ls[j].at)
    {
      BelowLimit(ls, limit, j);
      if i < j {
        Ordered(ls, limit, i, j);
      } else {
        Ordered(ls, limit, j, i);
      }
      HeaderSame(m, r, ls[j].at);
    }
  }

  // ---- What the operations' writes do to the heap ----

  /** Giving block `i` a new size that its gap can absorb. */
  lemma Resized(m: seq<byte>, ls: seq<Block>, base: nat, limit: nat, i: nat, size: nat)
    requires Encodes(m, ls, base, limit) && 0 < i < |ls|
    requires ls[i].at + HEADER + Align(size) <= GapEnd(ls, limit, i)
    ensures ls[i].at + HEADER <= |m|
    ensures Encodes(Put(m, ls[i].at + SIZE, size), ls[i := Block(ls[i].at, size)], base, limit)
  {
    hide HeaderAt, Put, WellFormed;
    assert HeaderOk(m, ls, base, limit, i);
    var a := ls[i].at;
    var r := Put(m, a + SIZE, size);
    var ls1 := ls[i := Block(a, size)];
    ResizeKeeps(ls, limit, i, size);
    PutSize(m, a, size);
    OtherHeaders(m, r, ls, limit, i);
    forall j | 0 <= j < |ls1| ensures HeaderOk(r, ls1, base, limit, j) {
      assert HeaderOk(m, ls, base, limit, j);
    }
  }

  /** Relinking block `i` past the freed blocks that follow it. */
  lemma Coalesced(m: seq<byte>, ls: seq<Block>, base: nat, limit: nat, i: nat)
    requires Encodes(m, ls, base, limit) && i + 1 < |ls| && ls[i + 1].size == 0
    ensures ls[i].at + HEADER <= |m| && InRegion(m, ls)
    ensures var r := Put(m, ls[i].at + NEXT, base + ls[FirstKept(ls, i + 1)].at);
            Encodes(r, Coalesce(ls, i), base, limit) && SameData(m, r, ls)
  {
    hide HeaderAt, Put, WellFormed, Coalesce, FirstKept;
    var k := FirstKept(ls, i + 1);
    assert HeaderOk(m, ls, base, limit, i);
    assert HeaderOk(m, ls, base, limit, k);
    var r := Put(m, ls[i].at + NEXT, base + ls[k].at);
    CoalesceKeeps(ls, limit, i);
    PutNext(m, ls[i].at, base + ls[k].at);
    OtherHeaders(m, r, ls, limit, i);
    CoalescedHeaders(m, r, ls, base, limit, i);
    HeaderWriteKeepsData(m, r, ls, limit, ls[i]);
  }

  lemma CoalescedHeaders(m: seq<byte>, r: seq<byte>, ls: seq<Block>, base: nat, limit: nat, i: nat)
    requires i + 1 < |ls| && ls[i + 1].size == 0 && |r| == |m|
    requires forall j :: 0 <= j < |ls| ==> HeaderOk(m, ls, base, limit, j)
    requires ls[i].at + HEADER <= |m|
    requires HeaderAt(r, ls[i].at) == HeaderAt(m, ls[i].at).(next := base + ls[FirstKept(ls, i + 1)].at)
    requires forall j :: 0 <= j < |ls| && j != i ==> ls[j].at + HEADER <= |m| && HeaderAt(r, ls[j].at) == HeaderAt(m, ls[j].at)
    ensures forall j :: 0 <= j < |Coalesce(ls, i)| ==> HeaderOk(r, Coalesce(ls, i), base, limit, j)
  {
    hide HeaderAt;
    var k := FirstKept(ls, i + 1);
    var ls1 := Coalesce(ls, i);
    forall j | 0 <= j < |ls1| ensures HeaderOk(r, ls1, base, limit, j) {
      var o := if j <= i then j else j - i - 1 + k;
      assert HeaderOk(m, ls, base, limit, o);
      assert ls1[j] == ls[o];
      assert j + 1 < |ls1| ==> ls1[j + 1] == if j == i then ls[k] else ls[o + 1];
    }
  }

  /** What an allocation leaves in the region: a complete header at the front of block `i`'s
      gap, and block `i` linked to it. Nothing else changes, except inside the room that the
      new block occupies. */
  ghost predicate Linked(m: seq<byte>, r: seq<byte>, ls: seq<Block>, base: nat, limit: nat, i: nat, size: nat)
    requires i < |ls|
  {
    var g := GapAddr(ls[i]);
    && |r| == |m| && g + Total(size) <= |m| && ls[i].at + HEADER <= |m|
    && (forall x :: 0 <= x < |m| && !(g <= x < g + Total(size)) && !(ls[i].at <= x < ls[i].at + HEADER) ==> r[x] == m[x])
    && HeaderAt(r, g) == Header(MAGIC, base + g, size, base + limit, NextPtr(ls, base, i))
    && HeaderAt(r, ls[i].at) == HeaderAt(m, ls[i].at).(next := base + g)
  }

  lemma Inserted(m: seq<byte>, r: seq<byte>, ls: seq<Block>, base: nat, limit: nat, i: nat, size: nat)
    requires Encodes(m, ls, base, limit) && i < |ls| && size > 0
    requires Gap(ls, limit, i) >= Total(size) && Linked(m, r, ls, base, limit, i, size)
    ensures Encodes(r, Insert(ls, i, size), base, limit)
    ensures InRegion(m, ls) && SameData(m, r, ls)
  {
    hide HeaderAt, WellFormed, Align, Total;
    var ls1 := Insert(ls, i, size);
    InsertKeeps(ls, limit, i, size);
    forall j | 0 <= j < |ls1| ensures HeaderOk(r, ls1, base, limit, j) {
      InsertedHeader(m, r, ls, base, limit, i, size, j);
    }
    InsertedData(m, r, ls, base, limit, i, size);
  }

  lemma InsertedHeader(m: seq<byte>, r: seq<byte>, ls: seq<Block>, base: nat, limit: nat, i: nat, size: nat, j: nat)
    requires Encodes(m, ls, base, limit) && i < |ls| && size > 0
    requires Gap(ls, limit, i) >= Total(size) && Linked(m, r, ls, base, limit, i, size)
    requires j < |ls| + 1
    ensures HeaderOk(r, Insert(ls, i, size), base, limit, j)
  {
    hide HeaderAt, WellFormed, Align, Total;
    var ls1 := Insert(ls, i, size);
    if j == i {
      assert HeaderOk(m, ls, base, limit, i);
      assert ls1[i + 1] == Block(GapAddr(ls[i]), size);
    } else if j == i + 1 {
      assert ls1[j] == Block(GapAddr(ls[i]), size);
      TotalIsHeaderPlusData(size);
      assert NextPtr(ls1, base, j) == NextPtr(ls, base, i) by {
        if j + 1 < |ls1| {
          assert ls1[j + 1] == ls[i + 1];
        }
      }
    } else {
      var o := if j < i then j else j - 1;
      assert HeaderOk(m, ls, base, limit, o);
      InsertRoom(ls, limit, i, size, o);
      if o < i {
        Ordered(ls, limit, o, i);
      } else {
        Ordered(ls, limit, i, o);
      }
      HeaderSame(m, r, ls[o].at);
      assert ls1[j] == ls[o];
      assert j + 1 < |ls1| ==> ls1[j + 1] == ls[o + 1];
    }
  }

  lemma InsertedData(m: seq<byte>, r: seq<byte>, ls: seq<Block>, base: nat, limit: nat, i: nat, size: nat)
    requires Encodes(m, ls, base, limit) && i < |ls| && size > 0
    requires Gap(ls, limit, i) >= Total(size) && Linked(m, r, ls, base, limit, i, size)
    ensures InRegion(m, ls) && SameData(m, r, ls)
  {
    hide HeaderAt, WellFormed, Align, Total;
    BlocksInRegion(m, ls, limit);
    forall b | b in Live(ls) ensures Data(r, b) == Data(m, b) {
      var j :| 0 <= j < |ls| && ls[j] == b;
      InsertRoom(ls, limit, i, size, j);
      if j < i {
        Ordered(ls, limit, j, i);
      } else if i < j {
        Ordered(ls, limit, i, j);
      }
    }
  }

  /** No data area reaches into the room taken by an inserted block. */
  lemma InsertRoom(ls: seq<Block>, limit: nat, i: nat, size: nat, j: nat)
    requires WellFormed(ls, limit) && i < |ls| && j < |ls|
    requires Gap(ls, limit, i) >= Total(size)
    ensures j <= i ==> ls[j].at + HEADER + ls[j].size <= GapAddr(ls[i])
    ensures j > i ==> GapAddr(ls[i]) + Total(size) <= ls[j].at
  {
    if j < i {
      Ordered(ls, limit, j, i);
    } else if j > i + 1 {
      Ordered(ls, limit, i + 1, j);
    }
  }
}
