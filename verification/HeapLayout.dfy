/** The heap as a list of blocks in address order: what the chain of headers means, and
    the first-fit search with its lazy merging, without the bytes. Addresses are offsets
    from the heap's first header. */
module HeapLayout {

  /** Size of the header in front of every data area. */
  const HEADER := 40

  /** A block: where its header is and how many data bytes its owner asked for. Size 0
      marks a freed block; the first block is the heap's own root and always has size 0. */
  datatype Block = Block(at: nat, size: nat)

  datatype Option<+T> = None | Some(value: T)

  /** Rounds up to a multiple of four. */
  function Align(size: nat): (r: nat)
    ensures r % 4 == 0 && size <= r < size + 4
  {
    size + if size % 4 != 0 then 4 - size % 4 else 0
  }

  /** Header plus data area of a request. */
  function Total(size: nat): nat {
    Align(size + HEADER)
  }

  lemma TotalIsHeaderPlusData(size: nat)
    ensures Total(size) == HEADER + Align(size)
  {}

  /** First byte after a block's data area. */
  function GapAddr(b: Block): nat {
    b.at + HEADER + Align(b.size)
  }

  /** Where the gap of block `i` ends. */
  function GapEnd(ls: seq<Block>, limit: nat, i: nat): nat
    requires i < |ls|
  {
    if i + 1 < |ls| then ls[i + 1].at else limit
  }

  /** The blocks follow one another in address order within the limit, aligned, each with
      its header, data area and a gap of zero or more bytes. */
  ghost predicate Fits(ls: seq<Block>, limit: nat) {
    && |ls| > 0 && ls[0] == Block(0, 0)
    && (forall i :: 0 <= i < |ls| ==> ls[i].at % 4 == 0)
    && (forall i {:trigger GapEnd(ls, limit, i)} :: 0 <= i < |ls| ==> GapAddr(ls[i]) <= GapEnd(ls, limit, i))
  }

  /** A chain as `heap_init` and the block operations keep it: the limit is a whole number of
      words. */
  ghost predicate WellFormed(ls: seq<Block>, limit: nat) {
    limit % 4 == 0 && Fits(ls, limit)
  }

  /** Size of the gap behind block `i`; never negative in a well-formed heap. */
  function Gap(ls: seq<Block>, limit: nat, i: nat): int
    requires i < |ls|
  {
    GapEnd(ls, limit, i) - GapAddr(ls[i])
  }

  lemma {:induction false} Ordered(ls: seq<Block>, limit: nat, i: nat, j: nat)
    requires WellFormed(ls, limit) && i < j < |ls|
    ensures GapAddr(ls[i]) <= ls[j].at
    decreases j
  {
    assert GapAddr(ls[j - 1]) <= GapEnd(ls, limit, j - 1);
    if i < j - 1 {
      Ordered(ls, limit, i, j - 1);
    }
  }

  lemma {:induction false} BelowLimit(ls: seq<Block>, limit: nat, i: nat)
    requires WellFormed(ls, limit) && i < |ls|
    ensures GapAddr(ls[i]) <= limit
  {
    var last := |ls| - 1;
    assert GapAddr(ls[last]) <= GapEnd(ls, limit, last);
    if i < last {
      Ordered(ls, limit, i, last);
    }
  }

  /** The live blocks. */
  ghost function Live(ls: seq<Block>): set<Block> {
    set b | b in ls && b.size != 0
  }

  /** No two blocks of the heap overlap, headers included, and none leaves the region. */
  lemma Disjoint(ls: seq<Block>, limit: nat, b: Block, c: Block)
    requires WellFormed(ls, limit) && b in ls && c in ls && b != c
    ensures b.at + HEADER + b.size <= c.at || c.at + HEADER + c.size <= b.at
    ensures b.at + HEADER + b.size <= limit
  {
    var i :| 0 <= i < |ls| && ls[i] == b;
    var j :| 0 <= j < |ls| && ls[j] == c;
    BelowLimit(ls, limit, i);
    if i < j {
      Ordered(ls, limit, i, j);
    } else {
      Ordered(ls, limit, j, i);
    }
  }

  // ---- Accounting ----

  /** Sum of the gaps of the blocks from index `i` on. */
  ghost function GapSum(ls: seq<Block>, limit: nat, i: nat): int
    requires i <= |ls|
    decreases |ls| - i
  {
    if i == |ls| then 0 else Gap(ls, limit, i) + GapSum(ls, limit, i + 1)
  }

  /** Headers and aligned data areas of the blocks from index `i` on. */
  ghost function UsedSum(ls: seq<Block>, i: nat): nat
    requires i <= |ls|
    decreases |ls| - i
  {
    if i == |ls| then 0 else HEADER + Align(ls[i].size) + UsedSum(ls, i + 1)
  }

  lemma {:induction false} Accounting(ls: seq<Block>, limit: nat, i: nat)
    requires WellFormed(ls, limit) && i < |ls|
    ensures ls[i].at + UsedSum(ls, i) + GapSum(ls, limit, i) == limit
    decreases |ls| - i
  {
    if i + 1 < |ls| {
      Accounting(ls, limit, i + 1);
    } else {
      assert UsedSum(ls, i + 1) == 0 && GapSum(ls, limit, i + 1) == 0;
    }
  }

  // ---- Merging freed blocks ----

  /** Index of the block the chain continues with after merging: the first block at `j` or
      later that is live, or else the last block. */
  function FirstKept(ls: seq<Block>, j: nat): (k: nat)
    requires j < |ls|
    ensures j <= k < |ls|
    ensures ls[k].size != 0 || k == |ls| - 1
    ensures forall i :: j <= i < k ==> ls[i].size == 0
    decreases |ls| - j
  {
    if j == |ls| - 1 || ls[j].size != 0 then j else FirstKept(ls, j + 1)
  }

  /** The chain after merging the freed blocks that follow block `i` into its gap. */
  function Coalesce(ls: seq<Block>, i: nat): (r: seq<Block>)
    requires i < |ls|
    ensures i < |r| <= |ls| && r[..i + 1] == ls[..i + 1]
  {
    if i + 1 == |ls| || ls[i + 1].size != 0 then ls else ls[..i + 1] + ls[FirstKept(ls, i + 1)..]
  }

  lemma NothingEmpty(ls: seq<Block>, i: nat)
    requires i < |ls|
    ensures i + 1 == |ls| || ls[i + 1].size != 0 ==> Coalesce(ls, i) == ls
  {}

  lemma CoalesceKeeps(ls: seq<Block>, limit: nat, i: nat)
    requires WellFormed(ls, limit) && i < |ls|
    ensures WellFormed(Coalesce(ls, i), limit)
    ensures Live(Coalesce(ls, i)) == Live(ls)
    ensures forall b :: b in Coalesce(ls, i) ==> b in ls
  {
    var r := Coalesce(ls, i);
    if i + 1 < |ls| && ls[i + 1].size == 0 {
      var k := FirstKept(ls, i + 1);
      assert forall j :: i < j < |r| ==> r[j] == ls[j - i - 1 + k];
      assert forall j :: 0 <= j <= i ==> r[j] == ls[j];
      Ordered(ls, limit, i, k);
      forall j {:trigger GapEnd(r, limit, j)} | 0 <= j < |r| ensures GapAddr(r[j]) <= GapEnd(r, limit, j) {
        if j < i {
          assert GapAddr(ls[j]) <= GapEnd(ls, limit, j);
        } else if j > i {
          assert GapAddr(ls[j - i - 1 + k]) <= GapEnd(ls, limit, j - i - 1 + k);
        }
      }
      forall b | b in Live(ls) ensures b in r {
        var j :| 0 <= j < |ls| && ls[j] == b;
        if j <= i {
          assert r[j] == b;
        } else {
          assert j >= k;
          assert r[j - k + i + 1] == b;
        }
      }
    }
  }

  /** Block `i` with a new size that its gap can absorb. */
  lemma ResizeKeeps(ls: seq<Block>, limit: nat, i: nat, size: nat)
    requires WellFormed(ls, limit) && 0 < i < |ls|
    requires ls[i].at + HEADER + Align(size) <= GapEnd(ls, limit, i)
    ensures WellFormed(ls[i := Block(ls[i].at, size)], limit)
    ensures ls[i].at + HEADER + Align(size) <= limit
  {
    hide Align;
    var r := ls[i := Block(ls[i].at, size)];
    forall j {:trigger GapEnd(r, limit, j)} | 0 <= j < |r| ensures GapAddr(r[j]) <= GapEnd(r, limit, j) {
      assert GapEnd(r, limit, j) == GapEnd(ls, limit, j);
    }
    if i + 1 < |ls| {
      BelowLimit(ls, limit, i + 1);
    }
  }

  lemma ResizeLive(ls: seq<Block>, limit: nat, i: nat, size: nat)
    requires WellFormed(ls, limit) && 0 < i < |ls| && ls[i].size != 0
    ensures var live := Live(ls) - {ls[i]};
            Live(ls[i := Block(ls[i].at, size)]) == if size == 0 then live else live + {Block(ls[i].at, size)}
  {
    var r := ls[i := Block(ls[i].at, size)];
    assert r[i] == Block(ls[i].at, size);
    forall b | b in ls && b != ls[i] ensures b in r && b != r[i] {
      var j :| 0 <= j < |ls| && ls[j] == b;
      assert r[j] == b;
      Distinct(ls, limit, i, j);
    }
    forall j | 0 <= j < |r| && r[j] != r[i] ensures r[j] in ls && r[j] != ls[i] {
      Distinct(ls, limit, i, j);
    }
  }

  lemma Distinct(ls: seq<Block>, limit: nat, i: nat, j: nat)
    requires WellFormed(ls, limit) && i < |ls| && j < |ls| && i != j
    ensures ls[i].at != ls[j].at
  {
    if i < j {
      Ordered(ls, limit, i, j);
    } else {
      Ordered(ls, limit, j, i);
    }
  }

  /** The test that lets a block grow in place, `gap >= size - old`, leaves room for the
      rounded size of every block exactly when the gap is a whole number of words. */
  lemma GrowTestIsSafe(gap: nat)
    ensures (forall was: nat, size: nat :: size <= was + gap ==> Align(size) <= Align(was) + gap) <==> gap % 4 == 0
  {
    if gap % 4 != 0 {
      assert gap <= 0 + gap && Align(gap) > Align(0) + gap;
    } else {
      forall was: nat, size: nat | size <= was + gap ensures Align(size) <= Align(was) + gap {
        assert Align(size) <= Align(was + gap);
      }
    }
  }

  lemma GrowFits(ls: seq<Block>, limit: nat, i: nat, size: nat)
    requires WellFormed(ls, limit) && i < |ls|
    requires size <= ls[i].size || Gap(ls, limit, i) >= size - ls[i].size
    ensures ls[i].at + HEADER + Align(size) <= GapEnd(ls, limit, i)
  {
    GapsAligned(ls, limit, i);
    GrowTestIsSafe(Gap(ls, limit, i));
  }

  /** The test admits growing live block `i` to `n` bytes where it is. */
  predicate Admits(ls: seq<Block>, limit: nat, i: nat, n: nat) {
    0 < i < |ls| && 0 < ls[i].size < n && Gap(ls, limit, i) >= n - ls[i].size
  }

  /** Every growth the test admits ends before the next block, or before the limit. */
  ghost predicate GrowsInPlace(ls: seq<Block>, limit: nat) {
    forall i: nat, n: nat :: Admits(ls, limit, i, n) ==> ls[i].at + HEADER + Align(n) <= GapEnd(ls, limit, i)
  }

  /** `heap_resize` sets the limit to whatever size it is given. Afterwards growing in place is
      safe, whatever blocks the heap holds, exactly when that size is a whole number of words,
      or too small for the heap to hold any block. */
  lemma ResizedLimitIsSafe(size: nat)
    ensures (forall ls :: Fits(ls, size) ==> GrowsInPlace(ls, size)) <==> size % 4 == 0 || size < 84
  {
    if size % 4 == 0 {
      forall ls | Fits(ls, size) ensures GrowsInPlace(ls, size) {
        WordLimitGrows(ls, size);
      }
    } else if size < 84 {
      forall ls | Fits(ls, size) ensures GrowsInPlace(ls, size) {
        NoBlockFits(ls, size);
      }
    } else {
      OverrunAt(size);
    }
  }

  lemma WordLimitGrows(ls: seq<Block>, limit: nat)
    requires WellFormed(ls, limit)
    ensures GrowsInPlace(ls, limit)
  {
    hide Align;
    forall i: nat, n: nat | Admits(ls, limit, i, n) ensures ls[i].at + HEADER + Align(n) <= GapEnd(ls, limit, i) {
      GrowFits(ls, limit, i, n);
    }
  }

  /** The smallest live block ends 84 bytes from the start. */
  lemma NoBlockFits(ls: seq<Block>, limit: nat)
    requires Fits(ls, limit) && limit < 84
    ensures forall i :: 0 < i < |ls| ==> ls[i].size == 0
  {
    RoundedFits(ls, limit);
    forall i | 0 < i < |ls| ensures ls[i].size == 0 {
      BelowLimit(ls, limit / 4 * 4, i);
      Ordered(ls, limit / 4 * 4, 0, i);
    }
  }

  /** Blocks that fit below a limit fit below it rounded down, as `heap_init` rounds it. */
  lemma RoundedFits(ls: seq<Block>, limit: nat)
    requires Fits(ls, limit)
    ensures WellFormed(ls, limit / 4 * 4)
  {
    var rounded := limit / 4 * 4;
    forall i {:trigger GapEnd(ls, rounded, i)} | 0 <= i < |ls| ensures GapAddr(ls[i]) <= GapEnd(ls, rounded, i) {
      assert GapAddr(ls[i]) <= GapEnd(ls, limit, i);
      assert ls[i].at % 4 == 0;
    }
  }

  /** For every other limit one block of four bytes is enough: it may grow over the whole gap,
      and rounding its size then passes the limit. */
  lemma OverrunAt(limit: nat)
    requires limit >= 84 && limit % 4 != 0
    ensures exists ls :: Fits(ls, limit) && !GrowsInPlace(ls, limit)
  {
    var ls := [Block(0, 0), Block(40, 4)];
    var n := 4 + (limit - 84);
    assert Gap(ls, limit, 1) == limit - 84;
    assert Admits(ls, limit, 1, n);
    assert Fits(ls, limit) && !GrowsInPlace(ls, limit);
  }

  /** With a region of 85 bytes the last block's gap is one byte, the test lets a block of 4
      bytes grow to 5, and its rounded data area then ends beyond the limit. */
  lemma UnroundedLimitOverruns()
    ensures var ls := [Block(0, 0), Block(40, 4)];
            && WellFormed(ls, 84)
            && Gap(ls, 85, 1) >= 5 - ls[1].size
            && ls[1].at + HEADER + Align(5) > 85
  {}

  lemma GrowKeeps(ls: seq<Block>, limit: nat, size: nat)
    requires WellFormed(ls, limit) && limit <= size && size % 4 == 0
    ensures WellFormed(ls, size)
  {
    forall i {:trigger GapEnd(ls, size, i)} | 0 <= i < |ls| ensures GapAddr(ls[i]) <= GapEnd(ls, size, i) {
      assert GapAddr(ls[i]) <= GapEnd(ls, limit, i);
    }
  }

  /** Every gap of a well-formed heap is a whole number of words. */
  lemma GapsAligned(ls: seq<Block>, limit: nat, i: nat)
    requires WellFormed(ls, limit) && i < |ls|
    ensures Gap(ls, limit, i) >= 0 && Gap(ls, limit, i) % 4 == 0
  {
    assert GapAddr(ls[i]) <= GapEnd(ls, limit, i);
    assert ls[i].at % 4 == 0;
    if i + 1 < |ls| {
      assert ls[i + 1].at % 4 == 0;
    }
  }

  // ---- First fit ----

  /** The allocator's search from block `i`: the chain as merging leaves it, and the block
      whose gap will be filled. */
  function Search(ls: seq<Block>, limit: nat, total: nat, i: nat): (r: (seq<Block>, Option<nat>))
    requires WellFormed(ls, limit) && i <= |ls|
    ensures WellFormed(r.0, limit)
    ensures r.1.Some? ==> i <= r.1.value < |r.0| && Gap(r.0, limit, r.1.value) >= total
    decreases |ls| - i
  {
    if i == |ls| then (ls, None)
    else if Gap(ls, limit, i) >= total then (ls, Some(i))
    else
      CoalesceKeeps(ls, limit, i);
      Search(Coalesce(ls, i), limit, total, i + 1)
  }

  /** The chain after a block of `size` bytes took the front of block `i`'s gap. */
  function Insert(ls: seq<Block>, i: nat, size: nat): seq<Block>
    requires i < |ls|
  {
    ls[..i + 1] + [Block(GapAddr(ls[i]), size)] + ls[i + 1..]
  }

  lemma InsertKeeps(ls: seq<Block>, limit: nat, i: nat, size: nat)
    requires WellFormed(ls, limit) && i < |ls| && size > 0
    requires Gap(ls, limit, i) >= Total(size)
    ensures WellFormed(Insert(ls, i, size), limit)
    ensures Live(Insert(ls, i, size)) == Live(ls) + {Block(GapAddr(ls[i]), size)}
    ensures Block(GapAddr(ls[i]), size) !in Live(ls)
  {
    hide WellFormed, GapAddr, Gap, Total;
    InsertWellFormed(ls, limit, i, size);
    InsertFresh(ls, limit, i, size);
    var added := Block(GapAddr(ls[i]), size);
    var r := Insert(ls, i, size);
    assert r[i + 1] == added;
    forall b | b in ls ensures b in r {
      var j :| 0 <= j < |ls| && ls[j] == b;
      assert r[if j <= i then j else j + 1] == b;
    }
  }

  lemma InsertWellFormed(ls: seq<Block>, limit: nat, i: nat, size: nat)
    requires WellFormed(ls, limit) && i < |ls|
    requires Gap(ls, limit, i) >= Total(size)
    ensures WellFormed(Insert(ls, i, size), limit)
  {
    hide Align;
    var r := Insert(ls, i, size);
    TotalIsHeaderPlusData(size);
    assert forall j :: 0 <= j <= i ==> r[j] == ls[j];
    assert forall j :: i + 1 < j < |r| ==> r[j] == ls[j - 1];
    forall j {:trigger GapEnd(r, limit, j)} | 0 <= j < |r| ensures GapAddr(r[j]) <= GapEnd(r, limit, j) {
      if j < i {
        assert GapAddr(ls[j]) <= GapEnd(ls, limit, j);
      } else if j > i + 1 {
        assert GapAddr(ls[j - 1]) <= GapEnd(ls, limit, j - 1);
      }
    }
  }

  lemma InsertFresh(ls: seq<Block>, limit: nat, i: nat, size: nat)
    requires WellFormed(ls, limit) && i < |ls|
    requires Gap(ls, limit, i) >= Total(size)
    ensures forall b :: b in ls ==> b.at != GapAddr(ls[i])
  {
    hide Align;
    TotalIsHeaderPlusData(size);
    forall b | b in ls ensures b.at != GapAddr(ls[i]) {
      var j :| 0 <= j < |ls| && ls[j] == b;
      if j < i {
        Ordered(ls, limit, j, i);
      } else if j > i + 1 {
        Ordered(ls, limit, i + 1, j);
      }
    }
  }

  lemma {:induction false} SearchKeeps(ls: seq<Block>, limit: nat, total: nat, i: nat)
    requires WellFormed(ls, limit) && i <= |ls|
    ensures Live(Search(ls, limit, total, i).0) == Live(ls)
    decreases |ls| - i
  {
    hide Live, Coalesce, GapAddr;
    if i < |ls| && Gap(ls, limit, i) < total {
      CoalesceKeeps(ls, limit, i);
      SearchKeeps(Coalesce(ls, i), limit, total, i + 1);
    }
  }

  // ---- The retry law ----

  /** No freed block is waiting to be merged: only the last block may be empty. */
  ghost predicate Tidy(ls: seq<Block>) {
    forall i :: 1 <= i < |ls| - 1 ==> ls[i].size != 0
  }

  ghost predicate TidyUpTo(ls: seq<Block>, n: nat) {
    forall i :: 1 <= i <= n && i < |ls| - 1 ==> ls[i].size != 0
  }

  /** A search that fails leaves a tidy chain. */
  lemma {:induction false} FailureTidies(ls: seq<Block>, limit: nat, total: nat, i: nat)
    requires WellFormed(ls, limit) && i <= |ls|
    requires TidyUpTo(ls, i)
    requires Search(ls, limit, total, i).1.None?
    ensures Tidy(Search(ls, limit, total, i).0)
    decreases |ls| - i
  {
    if i < |ls| {
      CoalesceKeeps(ls, limit, i);
      var r := Coalesce(ls, i);
      forall j | 1 <= j <= i + 1 && j < |r| - 1 ensures r[j].size != 0 {
        if j <= i {
          assert r[j] == r[..i + 1][j] == ls[..i + 1][j] == ls[j];
          assert j < |ls| - 1;
        } else if i + 1 < |ls| && ls[i + 1].size == 0 {
          assert r[i + 1] == ls[FirstKept(ls, i + 1)];
        }
      }
      FailureTidies(r, limit, total, i + 1);
    }
  }

  ghost predicate IsFirstFit(ls: seq<Block>, limit: nat, total: nat, i: nat, k: nat)
    requires WellFormed(ls, limit)
  {
    && i <= k < |ls| && Gap(ls, limit, k) >= total
    && forall j :: i <= j < k ==> Gap(ls, limit, j) < total
  }

  /** On a tidy chain the search is plain first fit: it merges nothing, takes the first
      gap that is large enough, and fails exactly when there is none. */
  lemma {:induction false} TidyIsFirstFit(ls: seq<Block>, limit: nat, total: nat, i: nat)
    requires WellFormed(ls, limit) && i <= |ls| && Tidy(ls)
    ensures var r := Search(ls, limit, total, i);
            && r.0 == ls
            && (r.1.Some? <==> exists k :: i <= k < |ls| && Gap(ls, limit, k) >= total)
            && (r.1.Some? ==> IsFirstFit(ls, limit, total, i, r.1.value))
    decreases |ls| - i
  {
    hide Gap, WellFormed, FirstKept;
    if i < |ls| && Gap(ls, limit, i) < total {
      assert Coalesce(ls, i) == ls by {
        if i + 1 < |ls| && ls[i + 1].size == 0 {
          assert i + 1 == |ls| - 1;
          assert ls[..i + 1] + ls[i + 1..] == ls;
        }
      }
      TidyIsFirstFit(ls, limit, total, i + 1);
    }
  }

  /** After a failed search, a second one for any request succeeds exactly when some gap is
      large enough, and takes the first such gap; the live blocks are those from before
      the first search. */
  lemma RetryLaw(ls: seq<Block>, limit: nat, total: nat, again: nat)
    requires WellFormed(ls, limit) && Search(ls, limit, total, 0).1.None?
    ensures var ls1 := Search(ls, limit, total, 0).0;
            var r := Search(ls1, limit, again, 0);
            && Tidy(ls1) && Live(ls1) == Live(ls) && r.0 == ls1
            && (r.1.Some? <==> exists k :: 0 <= k < |ls1| && Gap(ls1, limit, k) >= again)
            && (r.1.Some? ==> IsFirstFit(ls1, limit, again, 0, r.1.value))
  {
    FailureTidies(ls, limit, total, 0);
    SearchKeeps(ls, limit, total, 0);
    TidyIsFirstFit(Search(ls, limit, total, 0).0, limit, again, 0);
  }

  ghost predicate AnyGap(ls: seq<Block>, limit: nat, total: nat, i: nat) {
    exists k: nat :: i <= k < |ls| && Gap(ls, limit, k) >= total
  }

  // ---- Resizing ----

  /** Block `k` may take `size` bytes where it is: no more than it has, or what it lacks is in its
      own gap. */
  predicate GrowsHere(ls: seq<Block>, limit: nat, k: nat, size: nat)
    requires k < |ls|
  {
    size <= ls[k].size || Gap(ls, limit, k) >= size - ls[k].size
  }

  /** The chain after block `k` moved, with a new size, to the front of block `i`'s gap; what it
      leaves behind is a freed block. */
  function Relocated(ls: seq<Block>, i: nat, k: nat, size: nat): seq<Block>
    requires i < |ls| && k < |ls|
  {
    Insert(ls, i, size)[if k <= i then k else k + 1 := Block(ls[k].at, 0)]
  }

  lemma OnlyIndex(ls: seq<Block>, limit: nat, k: nat)
    requires WellFormed(ls, limit) && k < |ls|
    ensures forall j: nat :: j < |ls| && ls[j] == ls[k] ==> j == k
  {
    forall j: nat | j < |ls| && j != k ensures ls[j] != ls[k] {
      Distinct(ls, limit, j, k);
    }
  }

  /** Where resizing puts a block: its own place when it fits there, else the first gap that holds
      a whole new block, else nowhere. */
  ghost predicate ResizedTo(ls: seq<Block>, limit: nat, k: nat, size: nat, place: Option<nat>, r: seq<Block>)
    requires WellFormed(ls, limit) && k < |ls|
  {
    && (GrowsHere(ls, limit, k, size) ==> place == Some(ls[k].at) && r == ls[k := Block(ls[k].at, size)])
    && (place == None <==> !GrowsHere(ls, limit, k, size) && !AnyGap(ls, limit, Total(size), 0))
    && (place == None ==> r == ls)
    && (!GrowsHere(ls, limit, k, size) ==>
          forall i: nat :: IsFirstFit(ls, limit, Total(size), 0, i) ==>
            place == Some(GapAddr(ls[i])) && r == Relocated(ls, i, k, size))
  }

  lemma InPlace(ls: seq<Block>, limit: nat, k: nat, size: nat, r: seq<Block>)
    requires WellFormed(ls, limit) && k < |ls| && GrowsHere(ls, limit, k, size) && r == ls[k := Block(ls[k].at, size)]
    ensures ResizedTo(ls, limit, k, size, Some(ls[k].at), r)
  {
    hide GrowsHere, WellFormed;
  }

  lemma Refused(ls: seq<Block>, limit: nat, k: nat, size: nat)
    requires WellFormed(ls, limit) && k < |ls| && !GrowsHere(ls, limit, k, size)
    requires forall j :: 0 <= j < |ls| ==> Gap(ls, limit, j) < Total(size)
    ensures ResizedTo(ls, limit, k, size, None, ls)
  {
    hide GrowsHere, WellFormed, Gap, Total;
  }

  lemma Elsewhere(ls: seq<Block>, limit: nat, k: nat, size: nat, i: nat)
    requires WellFormed(ls, limit) && k < |ls| && !GrowsHere(ls, limit, k, size)
    requires i < |ls| && Gap(ls, limit, i) >= Total(size) && forall j :: 0 <= j < i ==> Gap(ls, limit, j) < Total(size)
    ensures ResizedTo(ls, limit, k, size, Some(GapAddr(ls[i])), Relocated(ls, i, k, size))
  {
    hide GrowsHere, WellFormed, Gap, Total, Relocated;
    assert AnyGap(ls, limit, Total(size), 0);
    forall j: nat | IsFirstFit(ls, limit, Total(size), 0, j) ensures j == i {}
  }

  // ---- What the first attempt sees ----

  /** A block whose gap the search looks at: where it starts, or a block that no merging takes
      out of the chain. */
  predicate Seen(ls: seq<Block>, i: nat, j: nat) {
    i <= j < |ls| && (j == i || ls[j].size != 0 || j == |ls| - 1)
  }

  /** Some block the search looks at has a gap of its own that is large enough. */
  ghost predicate HasGap(ls: seq<Block>, limit: nat, total: nat, i: nat) {
    exists j: nat :: Seen(ls, i, j) && Gap(ls, limit, j) >= total
  }

  /** Distance from the end of block `j` to the next block that merging keeps: its gap once the
      freed blocks behind it have been merged into it. */
  function Reach(ls: seq<Block>, limit: nat, j: nat): int
    requires j < |ls|
  {
    (if j + 1 < |ls| then ls[FirstKept(ls, j + 1)].at else limit) - GapAddr(ls[j])
  }

  ghost predicate HasReach(ls: seq<Block>, limit: nat, total: nat, i: nat) {
    exists j: nat :: Seen(ls, i, j) && Reach(ls, limit, j) >= total
  }

  /** Where block `j` behind block `i` was before merging. */
  function Before(ls: seq<Block>, i: nat, j: nat): nat
    requires i < j && i + 1 < |ls|
  {
    j - i - 1 + FirstKept(ls, i + 1)
  }

  lemma BlocksBefore(ls: seq<Block>, limit: nat, i: nat, j: nat)
    requires i + 1 < |ls| && i < j
    ensures var r := Coalesce(ls, i);
            && (j < |r| <==> Before(ls, i, j) < |ls|) && (j == |r| - 1 <==> Before(ls, i, j) == |ls| - 1)
            && (j < |r| ==> r[j] == ls[Before(ls, i, j)] && Gap(r, limit, j) == Gap(ls, limit, Before(ls, i, j)))
  {}

  lemma SeenBefore(ls: seq<Block>, limit: nat, i: nat, j: nat)
    requires i + 1 < |ls| && i < j
    ensures Seen(Coalesce(ls, i), i + 1, j) <==> Seen(ls, i, Before(ls, i, j))
  {
    hide Coalesce, Gap;
    BlocksBefore(ls, limit, i, j);
  }

  lemma GapsMerged(ls: seq<Block>, limit: nat, total: nat, i: nat)
    requires i + 1 < |ls| && Gap(ls, limit, i) < total
    ensures HasGap(Coalesce(ls, i), limit, total, i + 1) <==> HasGap(ls, limit, total, i)
  {
    hide Coalesce, Gap;
    var r := Coalesce(ls, i);
    if HasGap(r, limit, total, i + 1) {
      var j: nat :| Seen(r, i + 1, j) && Gap(r, limit, j) >= total;
      SeenBefore(ls, limit, i, j);
      BlocksBefore(ls, limit, i, j);
    }
    if HasGap(ls, limit, total, i) {
      var m: nat :| Seen(ls, i, m) && Gap(ls, limit, m) >= total;
      var j := m - FirstKept(ls, i + 1) + i + 1;
      assert Before(ls, i, j) == m;
      SeenBefore(ls, limit, i, j);
      BlocksBefore(ls, limit, i, j);
    }
  }

  /** The search for a gap succeeds exactly when a block that merging would keep has one of its
      own: a gap that merging makes comes too late, for the search has passed its block. */
  lemma {:induction false} FirstAttempt(ls: seq<Block>, limit: nat, total: nat, i: nat)
    requires WellFormed(ls, limit) && i <= |ls|
    ensures Search(ls, limit, total, i).1.Some? <==> HasGap(ls, limit, total, i)
    decreases |ls| - i
  {
    hide Gap, WellFormed, Coalesce;
    if i < |ls| {
      if Gap(ls, limit, i) >= total {
        assert Seen(ls, i, i);
      } else {
        CoalesceKeeps(ls, limit, i);
        FirstAttempt(Coalesce(ls, i), limit, total, i + 1);
        if i + 1 < |ls| {
          GapsMerged(ls, limit, total, i);
        } else {
          NothingEmpty(ls, i);
        }
      }
    }
  }

  /** The first block the search looks at that has a large enough gap of its own. */
  ghost predicate IsFirstSeen(ls: seq<Block>, limit: nat, total: nat, i: nat, j: nat) {
    && Seen(ls, i, j) && Gap(ls, limit, j) >= total
    && forall h: nat :: h < j && Seen(ls, i, h) ==> Gap(ls, limit, h) < total
  }

  lemma FirstSeenMerged(ls: seq<Block>, limit: nat, total: nat, i: nat, j: nat)
    requires i + 1 < |ls| && Gap(ls, limit, i) < total && i < j
    requires IsFirstSeen(Coalesce(ls, i), limit, total, i + 1, j)
    ensures IsFirstSeen(ls, limit, total, i, Before(ls, i, j))
  {
    hide Coalesce, Gap;
    var m := Before(ls, i, j);
    SeenBefore(ls, limit, i, j);
    BlocksBefore(ls, limit, i, j);
    forall h: nat | h < m && Seen(ls, i, h) ensures Gap(ls, limit, h) < total {
      if h > i {
        var q := h - FirstKept(ls, i + 1) + i + 1;
        assert Before(ls, i, q) == h;
        SeenBefore(ls, limit, i, q);
        BlocksBefore(ls, limit, i, q);
      }
    }
  }

  /** The block found is that one. */
  lemma {:induction false} FirstPlace(ls: seq<Block>, limit: nat, total: nat, i: nat) returns (j: nat)
    requires WellFormed(ls, limit) && i <= |ls| && Search(ls, limit, total, i).1.Some?
    ensures IsFirstSeen(ls, limit, total, i, j)
    ensures var r := Search(ls, limit, total, i); r.0[r.1.value] == ls[j]
    decreases |ls| - i
  {
    hide Gap, WellFormed, Coalesce;
    if Gap(ls, limit, i) >= total {
      j := i;
    } else {
      CoalesceKeeps(ls, limit, i);
      var q := FirstPlace(Coalesce(ls, i), limit, total, i + 1);
      if i + 1 < |ls| {
        FirstSeenMerged(ls, limit, total, i, q);
        BlocksBefore(ls, limit, i, q);
        j := Before(ls, i, q);
      } else {
        NothingEmpty(ls, i);
        assert false;
      }
    }
  }

  /** A request granted gets the front of the gap of the first such block. */
  lemma PlaceFound(ls: seq<Block>, limit: nat, total: nat)
    requires WellFormed(ls, limit) && Search(ls, limit, total, 0).1.Some?
    ensures var r := Search(ls, limit, total, 0);
            forall j: nat :: IsFirstSeen(ls, limit, total, 0, j) ==> GapAddr(r.0[r.1.value]) == GapAddr(ls[j])
  {
    hide Gap, WellFormed, Search, GapAddr;
    var j := FirstPlace(ls, limit, total, 0);
    forall h: nat | IsFirstSeen(ls, limit, total, 0, h) ensures h == j {}
  }

  // ---- What the second attempt sees ----

  lemma {:induction false} FirstKeptShifted(ls: seq<Block>, r: seq<Block>, p: nat, q: nat)
    requires p < |ls| && q < |r| && ls[p..] == r[q..]
    ensures ls[FirstKept(ls, p)] == r[FirstKept(r, q)]
    decreases |ls| - p
  {
    assert ls[p] == ls[p..][0] && r[q] == r[q..][0];
    assert |ls| - p == |r| - q;
    if p < |ls| - 1 && ls[p].size == 0 {
      assert ls[p + 1..] == ls[p..][1..] == r[q..][1..] == r[q + 1..];
      FirstKeptShifted(ls, r, p + 1, q + 1);
    }
  }

  lemma SuffixKept(ls: seq<Block>, i: nat, j: nat)
    requires i + 1 < |ls| && i < j < |Coalesce(ls, i)|
    ensures Before(ls, i, j) < |ls| && Coalesce(ls, i)[j + 1..] == ls[Before(ls, i, j) + 1..]
  {
    hide FirstKept;
  }

  lemma ReachBefore(ls: seq<Block>, limit: nat, i: nat, j: nat)
    requires i + 1 < |ls| && i < j < |Coalesce(ls, i)|
    ensures Before(ls, i, j) < |ls| && Reach(Coalesce(ls, i), limit, j) == Reach(ls, limit, Before(ls, i, j))
  {
    hide FirstKept, GapAddr, Coalesce;
    var r, m := Coalesce(ls, i), Before(ls, i, j);
    BlocksBefore(ls, limit, i, j);
    if j + 1 < |r| {
      SuffixKept(ls, i, j);
      FirstKeptShifted(r, ls, j + 1, m + 1);
    }
  }

  lemma ReachesMerged(ls: seq<Block>, limit: nat, total: nat, i: nat)
    requires i + 1 < |ls|
    ensures HasReach(ls, limit, total, i) <==>
              Reach(ls, limit, i) >= total || HasReach(Coalesce(ls, i), limit, total, i + 1)
  {
    hide Coalesce, Reach;
    var r := Coalesce(ls, i);
    if HasReach(r, limit, total, i + 1) {
      var j: nat :| Seen(r, i + 1, j) && Reach(r, limit, j) >= total;
      SeenBefore(ls, limit, i, j);
      ReachBefore(ls, limit, i, j);
    }
    if Reach(ls, limit, i) >= total {
      assert Seen(ls, i, i);
    } else if HasReach(ls, limit, total, i) {
      var m: nat :| Seen(ls, i, m) && Reach(ls, limit, m) >= total;
      var j := m - FirstKept(ls, i + 1) + i + 1;
      assert Before(ls, i, j) == m;
      SeenBefore(ls, limit, i, j);
      ReachBefore(ls, limit, i, j);
    }
  }

  /** Merging gives block `i` the gap that reaches to the next block kept. */
  lemma ReachIsMergedGap(ls: seq<Block>, limit: nat, i: nat)
    requires i < |ls|
    ensures Gap(Coalesce(ls, i), limit, i) == Reach(ls, limit, i)
  {
    hide GapAddr;
  }

  /** The search leaves the blocks up to its cursor where they are. */
  lemma {:induction false} SearchPrefix(ls: seq<Block>, limit: nat, total: nat, i: nat)
    requires WellFormed(ls, limit) && i < |ls|
    ensures var r := Search(ls, limit, total, i).0; i < |r| && r[..i + 1] == ls[..i + 1]
    decreases |ls| - i
  {
    hide Gap, WellFormed, Coalesce;
    if Gap(ls, limit, i) < total {
      var r := Coalesce(ls, i);
      CoalesceKeeps(ls, limit, i);
      if i + 1 < |r| {
        SearchPrefix(r, limit, total, i + 1);
        var q := Search(r, limit, total, i + 1).0;
        assert q[..i + 1] == q[..i + 2][..i + 1] == r[..i + 2][..i + 1] == r[..i + 1];
      }
    }
  }

  /** After a failed search the gaps are the distances between the blocks kept. */
  lemma {:induction false} FailureMerges(ls: seq<Block>, limit: nat, total: nat, i: nat, again: nat)
    requires WellFormed(ls, limit) && i <= |ls| && Search(ls, limit, total, i).1.None?
    ensures AnyGap(Search(ls, limit, total, i).0, limit, again, i) <==> HasReach(ls, limit, again, i)
    decreases |ls| - i
  {
    hide Gap, WellFormed, Coalesce, Reach;
    if i < |ls| {
      var r := Coalesce(ls, i);
      CoalesceKeeps(ls, limit, i);
      var q := Search(r, limit, total, i + 1).0;
      FailureMerges(r, limit, total, i + 1, again);
      ReachIsMergedGap(ls, limit, i);
      GapStays(r, limit, total, i);
      assert AnyGap(q, limit, again, i) <==> Gap(q, limit, i) >= again || AnyGap(q, limit, again, i + 1);
      if i + 1 < |ls| {
        ReachesMerged(ls, limit, again, i);
      } else {
        NothingEmpty(ls, i);
        assert Seen(ls, i, i);
      }
    }
  }

  lemma GapStays(r: seq<Block>, limit: nat, total: nat, i: nat)
    requires WellFormed(r, limit) && i < |r|
    ensures var q := Search(r, limit, total, i + 1).0; i < |q| && Gap(q, limit, i) == Gap(r, limit, i)
  {
    hide WellFormed, Coalesce, GapAddr;
    if i + 1 < |r| {
      SearchPrefix(r, limit, total, i + 1);
      var q := Search(r, limit, total, i + 1).0;
      assert q[i] == q[..i + 2][i] == r[i] && q[i + 1] == q[..i + 2][i + 1] == r[i + 1];
    }
  }

  /** Both attempts, from the chain before the first: that one succeeds exactly when a block
      merging keeps has a large enough gap of its own; when it fails, a second one, for any
      request, succeeds exactly when two neighbours among the blocks kept are far enough apart. */
  lemma Attempts(ls: seq<Block>, limit: nat, total: nat, again: nat)
    requires WellFormed(ls, limit)
    ensures var first := Search(ls, limit, total, 0);
            && (first.1.Some? <==> HasGap(ls, limit, total, 0))
            && (first.1.None? ==> (HasGap(first.0, limit, again, 0) <==> HasReach(ls, limit, again, 0)))
            && (first.1.None? ==> (Search(first.0, limit, again, 0).1.Some? <==> HasReach(ls, limit, again, 0)))
  {
    hide Gap, WellFormed, Coalesce, Reach;
    FirstAttempt(ls, limit, total, 0);
    var first := Search(ls, limit, total, 0);
    FirstAttempt(first.0, limit, again, 0);
    if first.1.None? {
      FailureTidies(ls, limit, total, 0);
      FailureMerges(ls, limit, total, 0, again);
      TidyIsFirstFit(first.0, limit, again, 0);
    }
  }

  lemma AllAttempts(ls: seq<Block>, limit: nat, total: nat)
    requires WellFormed(ls, limit)
    ensures var first := Search(ls, limit, total, 0);
            && (first.1.Some? <==> HasGap(ls, limit, total, 0))
            && (first.1.None? ==>
                  forall again: nat :: HasGap(first.0, limit, again, 0) <==> HasReach(ls, limit, again, 0))
  {
    hide HasGap, HasReach, Search, WellFormed;
    Attempts(ls, limit, total, total);
    forall again: nat | Search(ls, limit, total, 0).1.None?
      ensures HasGap(Search(ls, limit, total, 0).0, limit, again, 0) <==> HasReach(ls, limit, again, 0)
    {
      Attempts(ls, limit, total, again);
    }
  }

  /** When a request is refused that would be granted if it were simply made again. */
  lemma RetryHelps(ls: seq<Block>, limit: nat, total: nat)
    requires WellFormed(ls, limit)
    ensures var first := Search(ls, limit, total, 0);
            first.1.None? && Search(first.0, limit, total, 0).1.Some? <==>
              !HasGap(ls, limit, total, 0) && HasReach(ls, limit, total, 0)
  {
    hide HasGap, HasReach, Search, WellFormed;
    Attempts(ls, limit, total, total);
  }

  /** It happens in a region of 128 bytes: after two allocations of four bytes have filled it and
      the first is freed, four bytes are refused once, and granted the second time. */
  lemma RetryCanSucceed()
    ensures var total, one := Total(4), Insert([Block(0, 0)], 0, 4);
            var two := Insert(one, 1, 4);
            var freed := two[1 := Block(two[1].at, 0)];
            && WellFormed([Block(0, 0)], 128) && Search([Block(0, 0)], 128, total, 0) == ([Block(0, 0)], Some(0))
            && WellFormed(one, 128) && Search(one, 128, total, 0) == (one, Some(1))
            && WellFormed(freed, 128)
            && var first := Search(freed, 128, total, 0);
               first.1 == None && Search(first.0, 128, total, 0).1 == Some(0)
  {
    var one, two := [Block(0, 0), Block(40, 4)], [Block(0, 0), Block(40, 4), Block(84, 4)];
    assert Insert([Block(0, 0)], 0, 4) == one && Insert(one, 1, 4) == two;
    assert Coalesce(one, 0) == one;
    var freed, merged := [Block(0, 0), Block(40, 0), Block(84, 4)], [Block(0, 0), Block(84, 4)];
    assert two[1 := Block(40, 0)] == freed;
    assert FirstKept(freed, 1) == 2;
    assert Coalesce(freed, 0) == merged;
    CoalesceKeeps(freed, 128, 0);
    assert Coalesce(merged, 1) == merged;
    assert Search(merged, 128, 44, 2) == (merged, None);
    assert Search(merged, 128, 44, 1) == (merged, None);
  }
}
