/** The first-fit heap manager. Its headers live inside the region it manages, and every
    step below is a read or a write of that region. */
module Heap {
  import opened Bytes
  import opened HeapLayout
  import opened HeapImage
  import opened HeapEdits

  const NULL: nat := 0

  class Heap {
    /** Host address of the region, and of the heap's first header. */
    const base: nat
    const mem: array<byte>
    ghost var blocks: seq<Block>
    ghost var limit: nat

    ghost predicate Valid()
      reads this, mem
    {
      Encodes(mem[..], blocks, base, limit)
    }

    /** The owner's view of a data pointer: the live block it belongs to. */
    ghost predicate Owns(data: nat, size: nat)
      reads this
    {
      base + HEADER <= data && Block(data - base - HEADER, size) in Live(blocks)
    }

    /** The offset of the block whose data is at `p`; NULL is no block. */
    ghost function Place(p: nat): Option<nat>
    {
      if base + HEADER <= p then Some(p - base - HEADER) else None
    }

    // ---- Reading and writing header fields ----

    function Load(p: nat): nat
      reads this, mem
      requires base <= p && p - base + 8 <= mem.Length
    {
      Field(mem[..], p - base)
    }

    method Store(p: nat, v: nat)
      requires base <= p && p - base + 8 <= mem.Length && v < TWO64
      modifies mem
      ensures mem[..] == Put(old(mem[..]), p - base, v)
    {
      var a := p - base;
      var rest := v;
      for i := 0 to 8
        invariant mem[..a] == old(mem[..a]) && mem[a + 8..] == old(mem[a + 8..])
        invariant mem[a..a + i] + Enc(rest, 8 - i) == Enc(v, 8)
      {
        mem[a + i] := (rest % 256) as byte;
        assert Enc(rest, 8 - i) == [mem[a + i]] + Enc(rest / 256, 7 - i);
        assert mem[a..a + i + 1] == mem[a..a + i] + [mem[a + i]];
        rest := rest / 256;
      }
      assert mem[..] == mem[..a] + mem[a..a + 8] + mem[a + 8..];
    }

    /** The size of the gap behind the header at `h`. */
    method GapSize(h: nat, ghost i: nat) returns (gap: int)
      requires Valid() && i < |blocks| && h == base + blocks[i].at
      ensures gap == Gap(blocks, limit, i) >= 0
    {
      hide Encodes;
      Facts(mem[..], blocks, base, limit, i);
      var next := Load(h + NEXT);
      var end := if next != NULL then next else Load(h + LIMIT);
      gap := end - (h + HEADER + Align(Load(h + SIZE)));
    }

    /** Writes a complete header at `p`. */
    method WriteHeader(p: nat, size: nat, lim: nat, next: nat)
      requires base <= p && p - base + HEADER <= mem.Length
      requires p < TWO64 && size < TWO64 && lim < TWO64 && next < TWO64
      modifies mem
      ensures HeaderAt(mem[..], p - base) == Header(MAGIC, p, size, lim, next)
      ensures forall x :: 0 <= x < mem.Length && !(p - base <= x < p - base + HEADER) ==> mem[x] == old(mem[x])
    {
      hide HeaderAt, Put;
      ghost var a, m0 := p - base, mem[..];
      Store(p, MAGIC);
      ghost var m1 := mem[..];
      PutMagic(m0, a, MAGIC);
      Store(p + SIZE, size);
      ghost var m2 := mem[..];
      PutSize(m1, a, size);
      Store(p + ADDR, p);
      ghost var m3 := mem[..];
      PutAddr(m2, a, p);
      Store(p + LIMIT, lim);
      ghost var m4 := mem[..];
      PutLimit(m3, a, lim);
      Store(p + NEXT, next);
      ghost var m5 := mem[..];
      PutNext(m4, a, next);
      forall x | 0 <= x < mem.Length && !(a <= x < a + HEADER) ensures m5[x] == m0[x] {
        assert m5[x] == m4[x] == m3[x] == m2[x] == m1[x] == m0[x];
      }
      HeaderIs(mem[..], a);
    }

    // ---- Construction ----

    constructor (base: nat, mem: array<byte>, size: nat)
      requires 0 < base && base + mem.Length < TWO64
      requires HEADER <= size <= mem.Length
      modifies mem
      ensures this.base == base && this.mem == mem
      ensures Valid() && blocks == [Block(0, 0)] && limit == size - size % 4
      ensures HeaderAt(mem[..], 0) == Header(0x2711_1979, base, 0, base + limit, NULL)
    {
      this.base := base;
      this.mem := mem;
      blocks := [Block(0, 0)];
      limit := size - size % 4;
      new;
      hide HeaderAt;
      WriteHeader(base, 0, base + (size - size % 4), NULL);
      assert HeaderOk(mem[..], blocks, base, limit, 0);
    }

    // ---- Reporting ----

    /** Largest gap and total free space. */
    method Describe() returns (largest: nat, total: nat)
      requires Valid()
      ensures total + UsedSum(blocks, 0) == limit
      ensures exists i :: 0 <= i < |blocks| && largest == Gap(blocks, limit, i)
      ensures forall i :: 0 <= i < |blocks| ==> Gap(blocks, limit, i) <= largest
    {
      hide Encodes, HeaderAt, WellFormed, GapAddr, Align, Field, Gap, UsedSum;
      largest, total := 0, 0;
      Root(mem[..], blocks, base, limit);
      var h := base;
      ghost var i := 0;
      ghost var best := 0;
      while h != NULL
        invariant 0 <= i <= |blocks| && (h == NULL <==> i == |blocks|)
        invariant i < |blocks| ==> h == base + blocks[i].at
        invariant total + GapSum(blocks, limit, i) == GapSum(blocks, limit, 0)
        invariant 0 <= best < |blocks| && (i > 0 ==> largest == Gap(blocks, limit, best))
        invariant i == 0 ==> largest == 0
        invariant forall j :: 0 <= j < i ==> Gap(blocks, limit, j) <= largest
        decreases |blocks| - i
      {
        var gap := GapSize(h, i);
        if largest < gap || i == 0 {
          best := i;
        }
        if largest < gap {
          largest := gap;
        }
        total := total + gap;
        Facts(mem[..], blocks, base, limit, i);
        h := Load(h + NEXT);
        i := i + 1;
      }
      Accounting(blocks, limit, 0);
    }

    // ---- Allocation ----

    /** Puts a new block in the gap of block `i`. */
    method FillGap(h: nat, size: nat, ghost i: nat) returns (data: nat)
      requires Valid() && i < |blocks| && h == base + blocks[i].at
      requires size > 0 && Gap(blocks, limit, i) >= Total(size)
      modifies this, mem
      ensures Valid() && limit == old(limit)
      ensures blocks == Insert(old(blocks), i, size)
      ensures data == base + GapAddr(old(blocks)[i]) + HEADER
      ensures InRegion(old(mem[..]), old(blocks)) && SameData(old(mem[..]), mem[..], old(blocks))
    {
      hide HeaderAt, Encodes, Put, Align, Total;
      ghost var m := mem[..];
      Facts(m, blocks, base, limit, i);
      InsertBounds(m, blocks, base, limit, i, size);
      var added := h + HEADER + Align(Load(h + SIZE));
      WriteHeader(added, size, Load(h + LIMIT), Load(h + NEXT));
      ghost var m1 := mem[..];
      HeaderSame(m, m1, h - base);
      Store(h + NEXT, added);
      PutNext(m1, h - base, added);
      HeaderSame(m1, mem[..], added - base);
      assert Linked(m, mem[..], blocks, base, limit, i, size);
      Inserted(m, mem[..], blocks, base, limit, i, size);
      blocks := Insert(blocks, i, size);
      data := added + HEADER;
    }

    /** The loop of `coalesce_empty`: from the freed block `k0` to the block the chain will
        continue with. */
    method SkipEmpty(first: nat, ghost k0: nat) returns (nonempty: nat)
      requires Valid() && k0 < |blocks| && first == base + blocks[k0].at
      ensures nonempty == base + blocks[FirstKept(blocks, k0)].at < TWO64
    {
      hide HeaderAt, Encodes, WellFormed, GapAddr, Align, Field;
      nonempty := first;
      ghost var k := k0;
      Facts(mem[..], blocks, base, limit, k);
      while Load(nonempty + NEXT) != NULL && Load(nonempty + SIZE) == 0
        invariant k0 <= k < |blocks| && nonempty == base + blocks[k].at
        invariant blocks[k].at + HEADER <= mem.Length
        invariant Load(nonempty + NEXT) == NextPtr(blocks, base, k) && Load(nonempty + SIZE) == blocks[k].size
        invariant FirstKept(blocks, k0) == FirstKept(blocks, k)
        decreases |blocks| - k
      {
        nonempty := Load(nonempty + NEXT);
        k := k + 1;
        Facts(mem[..], blocks, base, limit, k);
      }
    }

    /** Joins the freed blocks after `h` into its gap. */
    method CoalesceEmpty(h: nat, ghost i: nat)
      requires Valid() && i < |blocks| && h == base + blocks[i].at
      modifies this, mem
      ensures Valid() && limit == old(limit)
      ensures blocks == Coalesce(old(blocks), i)
      ensures InRegion(old(mem[..]), old(blocks)) && SameData(old(mem[..]), mem[..], old(blocks))
    {
      hide HeaderAt, Encodes, WellFormed, GapAddr, Align, SameData, InRegion, Field, FirstKept, Coalesce, Put, GapEnd;
      Facts(mem[..], blocks, base, limit, i);
      NothingEmpty(blocks, i);
      var nonempty := Load(h + NEXT);
      if nonempty == NULL {
        return;
      }
      Facts(mem[..], blocks, base, limit, i + 1);
      if Load(nonempty + SIZE) != 0 {
        return;
      }
      nonempty := SkipEmpty(nonempty, i + 1);
      Coalesced(mem[..], blocks, base, limit, i);
      Store(h + NEXT, nonempty);
      blocks := Coalesce(blocks, i);
    }

    /** Allocates `size` bytes: NULL, or the address of a new data area. */
    method BlockAlloc(size: nat) returns (data: nat)
      requires Valid()
      requires size + HEADER + 3 < TWO64
      modifies this, mem
      ensures Valid() && limit == old(limit)
      ensures size == 0 ==> data == NULL && blocks == old(blocks)
      ensures size != 0 ==> WellFormed(old(blocks), limit)
      ensures size != 0 ==> var (ls, found) := Search(old(blocks), limit, Total(size), 0);
                            match found
                            case None => data == NULL && blocks == ls
                            case Some(i) => blocks == Insert(ls, i, size) && data == base + GapAddr(ls[i]) + HEADER
      ensures size != 0 ==> (data != NULL <==> HasGap(old(blocks), limit, Total(size), 0))
      ensures size != 0 && data != NULL ==> forall j: nat ::
        IsFirstSeen(old(blocks), limit, Total(size), 0, j) ==> data == base + GapAddr(old(blocks)[j]) + HEADER
      ensures size != 0 && data == NULL ==>
        forall again: nat :: HasGap(blocks, limit, again, 0) <==> HasReach(old(blocks), limit, again, 0)
      ensures data == NULL ==> Live(blocks) == Live(old(blocks))
      ensures data != NULL ==> base + HEADER <= data
      ensures data != NULL ==> var b := Block(data - base - HEADER, size);
                               b !in Live(old(blocks)) && Live(blocks) == Live(old(blocks)) + {b}
      ensures InRegion(old(mem[..]), old(blocks)) && SameData(old(mem[..]), mem[..], old(blocks))
    {
      hide HeaderAt, Encodes, GapAddr, GapEnd, Align, SameData, InRegion, Field, Live, Gap, Coalesce, Insert, Total;
      hide HasGap, HasReach, IsFirstSeen;
      Root(mem[..], blocks, base, limit);
      Facts(mem[..], blocks, base, limit, 0);
      if size == 0 {
        return NULL;
      }
      AllAttempts(blocks, limit, Total(size));
      if Search(blocks, limit, Total(size), 0).1.Some? {
        PlaceFound(blocks, limit, Total(size));
      }
      ghost var goal := Search(blocks, limit, Total(size), 0);
      SearchKeeps(blocks, limit, Total(size), 0);
      var cur := base;
      ghost var i := 0;
      while true
        invariant Valid() && limit == old(limit) && WellFormed(blocks, limit)
        invariant 0 <= i <= |blocks| && cur == if i < |blocks| then base + blocks[i].at else NULL
        invariant Search(blocks, limit, Total(size), i) == goal
        invariant Live(blocks) == Live(old(blocks))
        invariant InRegion(old(mem[..]), old(blocks)) && SameData(old(mem[..]), mem[..], old(blocks))
        decreases |blocks| - i
      {
        if cur == NULL {
          Root(mem[..], blocks, base, limit);
          return NULL;
        }
        var gap := GapSize(cur, i);
        if gap >= Total(size) {
          break;
        }
        ghost var m1, ls1 := mem[..], blocks;
        CoalesceKeeps(blocks, limit, i);
        CoalesceEmpty(cur, i);
        KeptTwice(old(mem[..]), m1, mem[..], old(blocks), ls1);
        Facts(mem[..], blocks, base, limit, i);
        cur := Load(cur + NEXT);
        i := i + 1;
      }
      ghost var m1, ls1 := mem[..], blocks;
      InsertKeeps(blocks, limit, i, size);
      data := FillGap(cur, size, i);
      KeptTwice(old(mem[..]), m1, mem[..], old(blocks), ls1);
    }

    /** Frees the block at `data`: its size becomes 0 and its space is merged later. */
    method BlockFree(data: nat, ghost size: nat)
      requires Valid() && Owns(data, size)
      modifies this, mem
      ensures Valid() && limit == old(limit)
      ensures Live(blocks) == Live(old(blocks)) - {Block(data - base - HEADER, size)}
      ensures |blocks| == |old(blocks)|
      ensures InRegion(old(mem[..]), old(blocks))
      ensures forall b :: b in Live(blocks) ==> b in old(blocks) && Data(mem[..], b) == Data(old(mem[..]), b)
    {
      hide HeaderAt, Encodes, WellFormed, GapEnd, Field, Put;
      ghost var i := IndexOf(blocks, base, limit, mem[..], Block(data - base - HEADER, size));
      var block := data - HEADER;
      SetSize(block, 0, i);
    }

    /** Rewrites the size field of block `i`. */
    method SetSize(block: nat, size: nat, ghost i: nat)
      requires Valid() && 0 < i < |blocks| && blocks[i].size != 0
      requires block == base + blocks[i].at
      requires blocks[i].at + HEADER + Align(size) <= GapEnd(blocks, limit, i)
      modifies this, mem
      ensures Valid() && limit == old(limit)
      ensures blocks == old(blocks)[i := Block(old(blocks)[i].at, size)]
      ensures var live := Live(old(blocks)) - {old(blocks)[i]};
              Live(blocks) == if size == 0 then live else live + {blocks[i]}
      ensures InRegion(old(mem[..]), old(blocks))
      ensures forall b :: b in old(blocks) ==> Data(mem[..], b) == Data(old(mem[..]), b)
    {
      hide HeaderAt, Encodes, WellFormed, GapEnd, GapAddr, Align, Field, Put, Live;
      ghost var m, ls := mem[..], blocks;
      Facts(m, ls, base, limit, i);
      ResizeFits(ls, limit, i, size);
      Resized(m, ls, base, limit, i, size);
      ResizeLive(ls, limit, i, size);
      Store(block + SIZE, size);
      blocks := ls[i := Block(ls[i].at, size)];
      HeaderWriteKeepsData(m, mem[..], ls, limit, ls[i]);
    }

    /** `memcpy` of `n` bytes within the region, between ranges that do not overlap. */
    method Copy(dest: nat, src: nat, n: nat)
      requires base <= dest && dest - base + n <= mem.Length
      requires base <= src && src - base + n <= mem.Length
      requires dest + n <= src || src + n <= dest
      modifies mem
      ensures RangeCopied(old(mem[..]), mem[..], dest - base, src - base, n)
    {
      var d, s := dest - base, src - base;
      for k := 0 to n
        invariant mem[d..d + k] == old(mem[s..s + k])
        invariant forall x :: 0 <= x < mem.Length && !(d <= x < d + k) ==> mem[x] == old(mem[x])
      {
        mem[d + k] := mem[s + k];
        assert mem[d..d + k + 1] == mem[d..d + k] + [mem[d + k]];
        assert old(mem[s..s + k + 1]) == old(mem[s..s + k]) + [old(mem[s + k])];
      }
    }

    /** Corrects the copied header at `newblock` and links it after `h`. */
    method LinkCopy(h: nat, newblock: nat, size: nat, next: nat)
      requires base <= h && base <= newblock && h - base + HEADER <= mem.Length
      requires newblock - base + HEADER <= mem.Length && newblock < TWO64 && next < TWO64 && size < TWO64
      modifies mem
      ensures mem[..] == Moved(old(mem[..]), newblock - base, h - base, base, next, size)
    {
      hide Put;
      Store(newblock + ADDR, newblock);
      Store(newblock + NEXT, next);
      Store(h + NEXT, newblock);
      Store(newblock + SIZE, size);
    }

    /** Copies the block at `block` into the gap of block `i`, giving the copy `size` bytes. */
    method CopyBlock(h: nat, block: nat, size: nat, ghost i: nat, ghost k: nat) returns (data: nat)
      requires Valid() && i < |blocks| && k < |blocks| && i != k
      requires h == base + blocks[i].at && block == base + blocks[k].at
      requires 0 < blocks[k].size < size && Gap(blocks, limit, i) >= Total(size)
      modifies this, mem
      ensures Valid() && limit == old(limit)
      ensures blocks == Insert(old(blocks), i, size)
      ensures data == base + GapAddr(old(blocks)[i]) + HEADER
      ensures InRegion(old(mem[..]), old(blocks)) && InRegion(mem[..], blocks)
      ensures SameData(old(mem[..]), mem[..], old(blocks))
      ensures var b, c := old(blocks)[k], blocks[i + 1];
              b in old(blocks) && c in blocks && b.size <= c.size && Data(mem[..], c)[..b.size] == Data(old(mem[..]), b)
    {
      hide HeaderAt, Encodes, WellFormed, Align, Total, Field, Moved, Copied, SameData, InRegion, GapEnd, NextPtr;
      hide Data, Insert, RangeCopied;
      ghost var m, ls := mem[..], blocks;
      Facts(m, ls, base, limit, i);
      Facts(m, ls, base, limit, k);
      MoveBounds(m, ls, base, limit, i, k, size);
      var newblock := h + HEADER + Align(Load(h + SIZE));
      var n := Total(Load(block + SIZE));
      var next := Load(h + NEXT);
      Copy(newblock, block, n);
      CopyLinked(m, mem[..], ls, base, limit, i, k, size);
      LinkCopy(h, newblock, size, next);
      CopyDone(m, mem[..], ls, base, limit, i, k, size);
      blocks := Insert(ls, i, size);
      data := newblock + HEADER;
    }

    /** Resizes the live block at `data`: in place when it shrinks or its gap is large
        enough, otherwise by moving it to the first gap that fits. */
    method BlockResize(data: nat, size: nat, ghost oldSize: nat) returns (r: nat)
      requires Valid() && Owns(data, oldSize)
      requires size + HEADER + 3 < TWO64
      modifies this, mem
      ensures Valid() && limit == old(limit)
      ensures InRegion(old(mem[..]), old(blocks)) && InRegion(mem[..], blocks)
      ensures size == 0 ==> r == NULL
      ensures size <= oldSize && size != 0 ==> r == data
      ensures r == NULL ==> blocks == old(blocks) && mem[..] == old(mem[..])
      ensures size != 0 ==> WellFormed(old(blocks), limit)
      ensures size != 0 ==> forall k: nat ::
        k < |old(blocks)| && old(blocks)[k] == Block(data - base - HEADER, oldSize) ==>
          ResizedTo(old(blocks), limit, k, size, Place(r), blocks)
      ensures r != NULL ==> base + HEADER <= r
      ensures r != NULL ==> var b, c := Block(data - base - HEADER, oldSize), Block(r - base - HEADER, size);
              && Live(blocks) == Live(old(blocks)) - {b} + {c}
              && var n := if size < oldSize then size else oldSize;
                 Data(mem[..], c)[..n] == Data(old(mem[..]), b)[..n]
      ensures r != NULL ==>
        OthersKept(old(mem[..]), old(blocks), mem[..], blocks, Block(data - base - HEADER, oldSize))
    {
      hide HeaderAt, Encodes, WellFormed, Align, Total, Field, GapEnd, NextPtr, HeaderOk, ResizedTo;
      hide Live, OthersKept, Data, GapAddr, Relocated;
      ghost var m, ls := mem[..], blocks;
      ghost var b := Block(data - base - HEADER, oldSize);
      ghost var k := IndexOf(ls, base, limit, m, b);
      Chain(m, ls, base, limit);
      OnlyIndex(ls, limit, k);
      Facts(m, ls, base, limit, k);
      if size == 0 {
        return NULL;
      }
      var block := data - HEADER;
      var gap := GapSize(block, k);
      if size <= Load(block + SIZE) || gap >= size - Load(block + SIZE) {
        GrowFits(ls, limit, k, size);
        SetSize(block, size, k);
        Facts(mem[..], blocks, base, limit, k);
        PrefixKept(m, mem[..], b, size);
        ResizedLive(m, ls, mem[..], blocks, b, blocks[k]);
        InPlace(ls, limit, k, size, blocks);
        return data;
      }
      var h;
      ghost var i;
      h, i := FindFit(Total(size));
      if h == NULL {
        Refused(ls, limit, k, size);
        return NULL;
      }
      TotalIsHeaderPlusData(size);
      Elsewhere(ls, limit, k, size, i);
      WholeData(m, b);
      r := MoveBlock(h, block, size, i, k);
    }

    /** Sets the limit in every header, without looking at it. What is left is a heap again
        exactly when all blocks end below the new limit and it is a whole number of words, which
        growing by whole words ensures. */
    method HeapResize(size: nat)
      requires Valid() && base + size < TWO64
      modifies this, mem
      ensures limit == size && blocks == old(blocks) && Relimited(mem[..], blocks, base, size)
      ensures Valid() <==> WellFormed(blocks, size) && size <= mem.Length
      ensures old(limit) <= size <= mem.Length && size % 4 == 0 ==> Valid()
      ensures InRegion(old(mem[..]), blocks) && SameData(old(mem[..]), mem[..], blocks)
    {
      hide Encodes, WellFormed, HeaderAt, Field, Put, GapAddr, GapEnd, SameData, InRegion, HeaderLimit, Align;
      hide Relimited;
      ghost var m := mem[..];
      Root(m, blocks, base, limit);
      LimitsStart(m, blocks, base, limit, size);
      var newLimit := base + size;
      var h := base;
      ghost var i := 0;
      while h != NULL
        invariant limit == old(limit) && blocks == old(blocks) && |mem[..]| == |m|
        invariant 0 <= i <= |blocks| && h == if i < |blocks| then base + blocks[i].at else NULL
        invariant LimitsSet(mem[..], blocks, base, limit, size, i)
        invariant InRegion(m, blocks) && SameData(m, mem[..], blocks)
        decreases |blocks| - i
      {
        LimitFacts(mem[..], blocks, base, limit, size, i, i);
        ghost var m1 := mem[..];
        Store(h + LIMIT, newLimit);
        SetOneLimit(m, m1, blocks, base, limit, size, i);
        LimitFacts(mem[..], blocks, base, limit, size, i + 1, i);
        h := Load(h + NEXT);
        i := i + 1;
      }
      LimitsDone(mem[..], blocks, base, limit, size);
      limit := size;
    }

    method BlockSize(data: nat, ghost size: nat) returns (r: nat)
      requires Valid() && Owns(data, size)
      ensures r == size
    {
      hide HeaderAt, WellFormed, Field;
      ghost var i := IndexOf(blocks, base, limit, mem[..], Block(data - base - HEADER, size));
      Facts(mem[..], blocks, base, limit, i);
      r := Load(data - HEADER + SIZE);
    }

    /** The owner of a live block writes one of its bytes. Nothing in the heap's own
        structures can be reached this way, and no other block's bytes. */
    method OwnerWrite(data: nat, ghost size: nat, k: nat, v: byte)
      requires Valid() && Owns(data, size) && k < size
      modifies mem
      ensures Valid()
      ensures InRegion(old(mem[..]), blocks)
      ensures OthersKept(old(mem[..]), blocks, mem[..], blocks, Block(data - base - HEADER, size))
      ensures var b := Block(data - base - HEADER, size);
              b in blocks && Data(mem[..], b) == Data(old(mem[..]), b)[k := v]
    {
      ghost var b := Block(data - base - HEADER, size);
      ghost var i := IndexOf(blocks, base, limit, mem[..], b);
      ghost var m := mem[..];
      Facts(m, blocks, base, limit, i);
      mem[data - base + k] := v;
      WriteInside(m, mem[..], blocks, base, limit, i, k, v);
    }

    /** The first block whose gap holds `total` bytes, without merging. */
    method FindFit(total: nat) returns (h: nat, ghost i: nat)
      requires Valid()
      ensures i <= |blocks| && h == if i < |blocks| then base + blocks[i].at else NULL
      ensures i < |blocks| ==> h != NULL && Gap(blocks, limit, i) >= total
      ensures forall j :: 0 <= j < i ==> Gap(blocks, limit, j) < total
    {
      hide Encodes, WellFormed, Field, Gap;
      Root(mem[..], blocks, base, limit);
      h := base;
      i := 0;
      while h != NULL
        invariant 0 <= i <= |blocks| && h == if i < |blocks| then base + blocks[i].at else NULL
        invariant forall j :: 0 <= j < i ==> Gap(blocks, limit, j) < total
        decreases |blocks| - i
      {
        var g := GapSize(h, i);
        if g >= total {
          break;
        }
        Facts(mem[..], blocks, base, limit, i);
        h := Load(h + NEXT);
        i := i + 1;
      }
    }

    /** Copies a block to a larger gap and frees the original. */
    method MoveBlock(h: nat, block: nat, size: nat, ghost i: nat, ghost k: nat) returns (data: nat)
      requires Valid() && i < |blocks| && 0 < k < |blocks| && i != k
      requires h == base + blocks[i].at && block == base + blocks[k].at
      requires 0 < blocks[k].size < size && Gap(blocks, limit, i) >= Total(size)
      modifies this, mem
      ensures Valid() && limit == old(limit)
      ensures data == base + GapAddr(old(blocks)[i]) + HEADER && blocks == Relocated(old(blocks), i, k, size)
      ensures InRegion(mem[..], blocks) && InRegion(old(mem[..]), old(blocks))
      ensures var b, c := old(blocks)[k], Block(data - base - HEADER, size);
              && b in old(blocks) && c in blocks && Live(blocks) == Live(old(blocks)) - {b} + {c}
              && Data(mem[..], c)[..b.size] == Data(old(mem[..]), b)
              && OthersKept(old(mem[..]), old(blocks), mem[..], blocks, b)
    {
      hide HeaderAt, Encodes, WellFormed, Align, Total, Field, NextPtr, HeaderOk, Live, SameData, OthersKept, GapEnd;
      ghost var m, ls := mem[..], blocks;
      Facts(m, ls, base, limit, k);
      InsertKeeps(ls, limit, i, size);
      data := CopyBlock(h, block, size, i, k);
      ghost var m1, ls1 := mem[..], blocks;
      ghost var k1 := if k <= i then k else k + 1;
      assert ls1[k1] == ls[k];
      Facts(m1, ls1, base, limit, k1);
      FreeFits(ls1, limit, k1);
      SetSize(block, 0, k1);
      Facts(mem[..], blocks, base, limit, 0);
      LiveAt(ls, k);
      MovedLive(m, ls, m1, ls1, mem[..], blocks, ls[k], ls1[i + 1]);
    }
  }
}
