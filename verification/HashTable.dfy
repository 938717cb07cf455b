/** A chained hash table that doubles its bucket array and splits every chain in place. */
module HashTable {
  import opened BitMask

  /** A host `char`, which is signed. */
  newtype schar = x: int | -128 <= x < 128

  type Key = seq<schar>

  const INITIAL_NUM_BUCKETS := 8
  const UINT_RANGE := 0x1_0000_0000

  function FoldKey(key: Key, h: nat): nat {
    if key == [] then h else FoldKey(key[1..], (h * 33 + key[0] as int) % UINT_RANGE)
  }

  /** The hash of a key, in 32-bit unsigned arithmetic. */
  function KeyHash(key: Key): nat {
    var h := FoldKey(key, 0);
    (h + h / 32) % UINT_RANGE
  }

  /** The characters weighed by powers of 33, the last of them by 1. */
  function Weighed(key: Key): int {
    if key == [] then 0 else key[0] as int * Pow33(|key| - 1) + Weighed(key[1..])
  }

  function Pow33(n: nat): nat {
    if n == 0 then 1 else 33 * Pow33(n - 1)
  }

  lemma {:induction false} FoldWeighs(key: Key, h: int)
    ensures FoldKey(key, h % UINT_RANGE) == (h * Pow33(|key|) + Weighed(key)) % UINT_RANGE
    decreases |key|
  {
    if key != [] {
      var c := key[0] as int;
      SameStep(h, c);
      FoldWeighs(key[1..], h * 33 + c);
      Distribute(h, c, Pow33(|key| - 1), Weighed(key[1..]));
    }
  }

  lemma Distribute(h: int, c: int, p: int, rest: int)
    ensures (h * 33 + c) * p + rest == h * (33 * p) + (c * p + rest)
  {}

  lemma SameStep(h: int, c: int)
    ensures (h % UINT_RANGE * 33 + c) % UINT_RANGE == (h * 33 + c) % UINT_RANGE
  {
    var q := h / UINT_RANGE;
    assert h * 33 + c == h % UINT_RANGE * 33 + c + q * 33 * UINT_RANGE;
  }

  /** The hash is the weighed sum modulo 2^32, plus its own quotient by 32, modulo 2^32. */
  lemma KeyHashIs(key: Key)
    ensures var w := Weighed(key) % UINT_RANGE; KeyHash(key) == (w + w / 32) % UINT_RANGE
  {
    hide FoldKey, Weighed, Pow33;
    FoldWeighs(key, 0);
    Nought(Pow33(|key|), Weighed(key));
  }

  lemma Nought(p: int, rest: int)
    ensures 0 % UINT_RANGE == 0 && 0 * p + rest == rest
  {}

  method KeyToHash(key: Key) returns (h: nat)
    ensures h == KeyHash(key)
  {
    h := 0;
    for i := 0 to |key|
      invariant FoldKey(key[i..], h) == FoldKey(key, 0)
    {
      assert key[i..][1..] == key[i + 1..];
      h := (h * 33 + key[i] as int) % UINT_RANGE;
    }
    h := (h + h / 32) % UINT_RANGE;
  }

  class HashElem<D> {
    const key: Key
    const hash: nat
    const datum: D
    var next: HashElem?<D>

    constructor (key: Key, hash: nat, datum: D, next: HashElem?<D>)
      ensures this.key == key && this.hash == hash && this.datum == datum && this.next == next
    {
      this.key, this.hash, this.datum, this.next := key, hash, datum, next;
    }
  }

  // ---- Chains ----

  /** The element at position `i` of a chain; NULL at its end. */
  function At<D>(c: seq<HashElem<D>>, i: nat): HashElem?<D> {
    if i < |c| then c[i] else null
  }

  /** `head` starts a linked list of exactly the elements of `c`. */
  ghost predicate Chain<D>(c: seq<HashElem<D>>, head: HashElem?<D>)
    reads c
  {
    && head == At(c, 0)
    && forall i {:trigger c[i].next} :: 0 <= i < |c| ==> c[i].next == At(c, i + 1)
  }

  ghost predicate NoDup<D>(c: seq<HashElem<D>>) {
    forall i, j :: 0 <= i < j < |c| ==> c[i] != c[j]
  }

  ghost function Elems<D>(c: seq<HashElem<D>>): set<HashElem<D>> {
    set x | x in c
  }

  /** Bucket of a hash among `n` buckets. */
  function BucketOf(hash: nat, n: nat): nat
    requires n > 0
  {
    And(hash, n - 1)
  }

  /** The elements of `c`, partly distributed over two chains. */
  ghost predicate Parts<D>(c: seq<HashElem<D>>, kept: seq<HashElem<D>>, rest: seq<HashElem<D>>, moved: seq<HashElem<D>>) {
    && NoDup(kept + rest) && NoDup(moved)
    && (forall x :: x in moved ==> x !in kept && x !in rest)
    && |kept| + |rest| + |moved| == |c|
    && Elems(c) == Elems(kept) + Elems(rest) + Elems(moved)
  }

  lemma PartsKeep<D>(c: seq<HashElem<D>>, kept: seq<HashElem<D>>, rest: seq<HashElem<D>>, moved: seq<HashElem<D>>)
    requires Parts(c, kept, rest, moved) && rest != []
    ensures Parts(c, kept + [rest[0]], rest[1..], moved)
    ensures kept + [rest[0]] + rest[1..] == kept + rest
  {
    assert kept + [rest[0]] + rest[1..] == kept + rest;
    assert rest == [rest[0]] + rest[1..];
    assert Elems(rest) == {rest[0]} + Elems(rest[1..]);
    assert Elems(kept + [rest[0]]) == Elems(kept) + {rest[0]};
    assert forall x :: x in moved ==> x in Elems(moved) && x != rest[0];
  }

  lemma PartsMove<D>(c: seq<HashElem<D>>, kept: seq<HashElem<D>>, rest: seq<HashElem<D>>, moved: seq<HashElem<D>>)
    requires Parts(c, kept, rest, moved) && rest != []
    ensures Parts(c, kept, rest[1..], [rest[0]] + moved)
    ensures rest[0] !in kept && rest[0] !in rest[1..] && rest[0] !in moved
    ensures NoDup(kept + rest) && forall x :: x in moved ==> x !in kept && x !in rest
    ensures rest[0] in c && forall x :: x in kept ==> x in c
  {
    assert rest[0] in Elems(c);
    assert forall x :: x in kept ==> x in Elems(kept) && x in Elems(c);
    var all := kept + rest;
    assert forall i :: 0 <= i < |kept| ==> all[i] == kept[i];
    assert forall i :: 0 <= i < |rest| ==> rest[i] == all[|kept| + i];
    var less := kept + rest[1..];
    assert forall i :: 0 <= i < |less| ==> less[i] == if i < |kept| then all[i] else all[i + 1];
    assert all[|kept|] == rest[0];
    assert forall i :: 0 <= i < |rest[1..]| ==> rest[1..][i] == all[|kept| + 1 + i];
    assert Elems(rest) == {rest[0]} + Elems(rest[1..]) by {
      assert rest == [rest[0]] + rest[1..];
    }
    assert Elems([rest[0]] + moved) == {rest[0]} + Elems(moved);
  }

  lemma PartsStart<D>(c: seq<HashElem<D>>)
    requires NoDup(c)
    ensures Parts(c, [], c, []) && [] + c == c
  {
    assert [] + c == c;
  }

  lemma PartsDone<D>(c: seq<HashElem<D>>, kept: seq<HashElem<D>>, moved: seq<HashElem<D>>)
    requires Parts(c, kept, [], moved)
    ensures NoDup(kept) && NoDup(moved) && |kept| + |moved| == |c|
    ensures Elems(c) == Elems(kept) + Elems(moved) && Elems(kept) !! Elems(moved)
  {
    assert kept + [] == kept;
  }

  /** `*prev = e->next;` where `prev` is the bucket's own slot (NULL here) or the `next`
      field of the last element kept. */
  method Unlink<D>(bucket: array<HashElem?<D>>, b: nat, prev: HashElem?<D>, e: HashElem<D>,
                   ghost kept: seq<HashElem<D>>, ghost rest: seq<HashElem<D>>)
    requires b < bucket.Length && rest != [] && e == rest[0]
    requires NoDup(kept + rest) && Chain(kept + rest, bucket[b])
    requires prev == if kept == [] then null else kept[|kept| - 1]
    modifies bucket, if prev == null then {} else {prev}
    ensures forall x :: 0 <= x < bucket.Length && x != b ==> bucket[x] == old(bucket[x])
    ensures Chain(kept + rest[1..], bucket[b])
  {
    ghost var all, less := kept + rest, kept + rest[1..];
    assert forall i :: 0 <= i < |kept| ==> all[i] == kept[i];
    assert all[|kept|] == e && e.next == At(all, |kept| + 1);
    assert forall i :: 0 <= i < |less| ==> less[i] == if i < |kept| then all[i] else all[i + 1];
    if prev == null {
      bucket[b] := e.next;
    } else {
      prev.next := e.next;
    }
    forall i | 0 <= i < |less| ensures less[i].next == At(less, i + 1) {
      if i + 1 < |kept| {
        assert all[i] != all[|kept| - 1];
        assert old(all[i].next) == At(all, i + 1);
      } else if i >= |kept| {
        assert kept != [] ==> all[i + 1] != all[|kept| - 1];
        assert old(all[i + 1].next) == At(all, i + 2);
      }
    }
  }

  /** `e->next = *new; *new = e;` */
  method Push<D>(bucket: array<HashElem?<D>>, to: nat, e: HashElem<D>, ghost moved: seq<HashElem<D>>)
    requires to < bucket.Length && e !in moved && Chain(moved, bucket[to])
    modifies bucket, e
    ensures forall x :: 0 <= x < bucket.Length && x != to ==> bucket[x] == old(bucket[x])
    ensures Chain([e] + moved, bucket[to])
  {
    e.next := bucket[to];
    bucket[to] := e;
    ghost var front := [e] + moved;
    forall i | 0 <= i < |front| ensures front[i].next == At(front, i + 1) {
      if i > 0 {
        assert front[i] == moved[i - 1];
      }
    }
  }

  /** Splits the chain `c` of bucket `b`: elements whose hash selects bucket `b` under the
      wider mask stay, in order; the others move, one by one, to the front of bucket
      `b + old`. */
  method SplitBucket<D>(bucket: array<HashElem?<D>>, b: nat, half: nat, ghost c: seq<HashElem<D>>)
    returns (ghost kept: seq<HashElem<D>>, ghost moved: seq<HashElem<D>>)
    requires b < half && bucket.Length == 2 * half
    requires Chain(c, bucket[b]) && NoDup(c) && bucket[b + half] == null
    modifies bucket, c
    ensures Chain(kept, bucket[b]) && Chain(moved, bucket[b + half])
    ensures forall x :: 0 <= x < bucket.Length && x != b && x != b + half ==> bucket[x] == old(bucket[x])
    ensures SplitPair(kept, moved, c, half, b)
  {
    hide And, Parts, NoDup, Elems;
    PartsStart(c);
    kept, moved := [], [];
    ghost var rest := c;
    var prev: HashElem?<D> := null;
    var e := bucket[b];
    assert kept + rest == c;
    while e != null
      invariant forall x :: 0 <= x < bucket.Length && x != b && x != b + half ==> bucket[x] == old(bucket[x])
      invariant Parts(c, kept, rest, moved)
      invariant forall x :: x in kept ==> BucketOf(x.hash, 2 * half) == b
      invariant forall x :: x in moved ==> BucketOf(x.hash, 2 * half) != b
      invariant Chain(kept + rest, bucket[b]) && Chain(moved, bucket[b + half])
      invariant e == At(rest, 0)
      invariant prev == if kept == [] then null else kept[|kept| - 1]
      decreases |rest|
    {
      PartsKeep(c, kept, rest, moved);
      PartsMove(c, kept, rest, moved);
      assert prev != null ==> prev in kept && prev in c && prev !in moved;
      if BucketOf(e.hash, 2 * half) == b {
        prev := e;
        kept, rest := kept + [e], rest[1..];
      } else {
        Unlink(bucket, b, prev, e, kept, rest);
        Push(bucket, b + half, e, moved);
        moved, rest := [e] + moved, rest[1..];
      }
      assert (kept + rest)[..|kept|] == kept;
      ReadNext(kept, rest, bucket[b]);
      e := if prev == null then bucket[b] else prev.next;
    }
    assert rest == [] && kept + [] == kept;
    PartsDone(c, kept, moved);
  }

  /** What `*prev` reads: the first element of the rest. */
  lemma ReadNext<D>(kept: seq<HashElem<D>>, rest: seq<HashElem<D>>, head: HashElem?<D>)
    requires Chain(kept + rest, head)
    ensures if kept == [] then head == At(rest, 0) else kept[|kept| - 1].next == At(rest, 0)
  {
    var all := kept + rest;
    if kept == [] {
      assert all == rest;
    } else {
      assert all[|kept| - 1] == kept[|kept| - 1];
      assert all[|kept| - 1].next == At(all, |kept|);
    }
  }

  // ---- The table ----

  /** Element `e` belongs in bucket `x` of `n` and is the table's element for its key. */
  ghost predicate Home<D>(e: HashElem<D>, elemOf: map<Key, HashElem<D>>, n: nat, x: nat)
    requires n > 0
  {
    && e.key in elemOf && elemOf[e.key] == e
    && e.hash == KeyHash(e.key) && BucketOf(e.hash, n) == x
  }

  /** Every element of the chains is at home, and every key of the map has its element in
      the chain its hash selects. */
  ghost predicate Placed<D>(chains: seq<seq<HashElem<D>>>, elemOf: map<Key, HashElem<D>>, n: nat) {
    && n > 0 && |chains| == n
    && (forall x :: 0 <= x < n ==> NoDup(chains[x]))
    && (forall x, i :: 0 <= x < n && 0 <= i < |chains[x]| ==> Home(chains[x][i], elemOf, n, x))
    && (forall k :: k in elemOf ==> KeyPlaced(chains, elemOf, n, k))
  }

  ghost predicate KeyPlaced<D>(chains: seq<seq<HashElem<D>>>, elemOf: map<Key, HashElem<D>>, n: nat, k: Key)
    requires n > 0 && |chains| == n && k in elemOf
  {
    && elemOf[k].key == k && elemOf[k].hash == KeyHash(k)
    && BucketOf(KeyHash(k), n) < n && elemOf[k] in chains[BucketOf(KeyHash(k), n)]
  }

  /** Halfway through a doubling: the buckets below `b` are split, the others untouched. */
  ghost predicate SplitUpTo<D>(cs: seq<seq<HashElem<D>>>, chains: seq<seq<HashElem<D>>>, half: nat, b: nat) {
    && 0 < half == |chains| && |cs| == 2 * half && b <= half
    && (forall x :: b <= x < half ==> cs[x] == chains[x])
    && (forall x :: half + b <= x < 2 * half ==> cs[x] == [])
    && (forall x :: 0 <= x < b ==> SplitPair(cs[x], cs[x + half], chains[x], half, x))
  }

  ghost predicate SplitPair<D>(kept: seq<HashElem<D>>, moved: seq<HashElem<D>>, c: seq<HashElem<D>>, half: nat, x: nat)
    requires half > 0
  {
    && NoDup(kept) && NoDup(moved) && |kept| + |moved| == |c|
    && Elems(c) == Elems(kept) + Elems(moved)
    && (forall e :: e in kept ==> BucketOf(e.hash, 2 * half) == x)
    && (forall e :: e in moved ==> BucketOf(e.hash, 2 * half) != x)
  }

  lemma SplitStep<D>(cs: seq<seq<HashElem<D>>>, chains: seq<seq<HashElem<D>>>, half: nat, b: nat,
                     kept: seq<HashElem<D>>, moved: seq<HashElem<D>>)
    requires SplitUpTo(cs, chains, half, b) && b < half
    requires SplitPair(kept, moved, chains[b], half, b)
    ensures SplitUpTo(cs[b := kept][b + half := moved], chains, half, b + 1)
  {
    hide SplitPair;
  }

  lemma SplitDone<D>(cs: seq<seq<HashElem<D>>>, chains: seq<seq<HashElem<D>>>, half: nat, elemOf: map<Key, HashElem<D>>)
    requires SplitUpTo(cs, chains, half, half) && Placed(chains, elemOf, half) && Pow2(half)
    ensures Placed(cs, elemOf, 2 * half)
  {
    hide And, Pow2, KeyHash, Elems, NoDup, SplitUpTo, Home, KeyPlaced, SplitPair;
    var n := 2 * half;
    SplitShape(cs, chains, half);
    forall x, i | 0 <= x < n && 0 <= i < |cs[x]| ensures Home(cs[x][i], elemOf, n, x) {
      SplitHome(cs, chains, half, elemOf, x, i);
    }
    forall k | k in elemOf ensures KeyPlaced(cs, elemOf, n, k) {
      SplitKey(cs, chains, half, elemOf, k);
    }
  }

  lemma SplitShape<D>(cs: seq<seq<HashElem<D>>>, chains: seq<seq<HashElem<D>>>, half: nat)
    requires SplitUpTo(cs, chains, half, half)
    ensures half > 0 && |cs| == 2 * half
    ensures forall x :: 0 <= x < 2 * half ==> NoDup(cs[x])
  {
    hide Elems, NoDup;
    forall x | 0 <= x < 2 * half ensures NoDup(cs[x]) {
      var y := if x < half then x else x - half;
      assert SplitPair(cs[y], cs[y + half], chains[y], half, y);
    }
  }

  lemma SplitHome<D>(cs: seq<seq<HashElem<D>>>, chains: seq<seq<HashElem<D>>>, half: nat, elemOf: map<Key, HashElem<D>>,
                     x: nat, i: nat)
    requires SplitUpTo(cs, chains, half, half) && Placed(chains, elemOf, half) && Pow2(half)
    requires x < 2 * half && i < |cs[x]|
    ensures Home(cs[x][i], elemOf, 2 * half, x)
  {
    hide And, Pow2, KeyHash, NoDup;
    var e := cs[x][i];
    var y := if x < half then x else x - half;
    assert SplitPair(cs[y], cs[y + half], chains[y], half, y);
    assert e in Elems(chains[y]) by {
      assert e in Elems(cs[x]);
    }
    var j :| 0 <= j < |chains[y]| && chains[y][j] == e;
    assert Home(chains[y][j], elemOf, half, y);
    MaskDouble(e.hash, half);
  }

  lemma SplitKey<D>(cs: seq<seq<HashElem<D>>>, chains: seq<seq<HashElem<D>>>, half: nat, elemOf: map<Key, HashElem<D>>,
                    k: Key)
    requires SplitUpTo(cs, chains, half, half) && Placed(chains, elemOf, half) && Pow2(half)
    requires k in elemOf
    ensures KeyPlaced(cs, elemOf, 2 * half, k)
  {
    hide And, Pow2, KeyHash, NoDup;
    assert KeyPlaced(chains, elemOf, half, k);
    var e := elemOf[k];
    var y := BucketOf(KeyHash(k), half);
    MaskDouble(e.hash, half);
    assert SplitPair(cs[y], cs[y + half], chains[y], half, y);
    assert e in Elems(chains[y]);
    assert e in Elems(cs[y]) || e in Elems(cs[y + half]);
  }

  /** The splitting loop over all the old buckets of a bucket array that has been doubled. */
  method SplitAll<D>(wider: array<HashElem?<D>>, half: nat, ghost chains: seq<seq<HashElem<D>>>,
                     ghost elemOf: map<Key, HashElem<D>>)
    returns (ghost cs: seq<seq<HashElem<D>>>)
    requires wider.Length == 2 * half && Placed(chains, elemOf, half)
    requires forall x :: 0 <= x < half ==> Chain(chains[x], wider[x])
    requires forall x :: half <= x < 2 * half ==> wider[x] == null
    modifies wider, elemOf.Values
    ensures SplitUpTo(cs, chains, half, half)
    ensures forall x :: 0 <= x < 2 * half ==> Chain(cs[x], wider[x])
  {
    hide And, Home, KeyPlaced, NoDup, Elems, SplitPair;
    cs := chains + seq(half, _ => []);
    PlacedInTable(chains, elemOf, half);
    for b := 0 to half
      invariant SplitUpTo(cs, chains, half, b)
      invariant forall x :: 0 <= x < 2 * half ==> Chain(cs[x], wider[x])
    {
      assert InTable(chains[b], elemOf);
      forall x | 0 <= x < 2 * half && x != b ensures forall e :: e in cs[x] ==> e !in chains[b] {
        Apart(cs, chains, half, b, elemOf, x);
      }
      label before:
      ghost var kept, moved := SplitBucket(wider, b, half, cs[b]);
      forall x | 0 <= x < 2 * half && x != b && x != b + half ensures Chain(cs[x], wider[x]) {
        assert old@before(Chain(cs[x], wider[x]));
        forall i | 0 <= i < |cs[x]| ensures cs[x][i].next == old@before(cs[x][i].next) {
          assert cs[x][i] in cs[x];
        }
      }
      SplitStep(cs, chains, half, b, kept, moved);
      cs := cs[b := kept][b + half := moved];
    }
  }

  class Hash<D> {
    var numelem: nat
    var numbucket: nat
    var bucket: array<HashElem?<D>>
    /** The elements of every bucket, in chain order. */
    ghost var chains: seq<seq<HashElem<D>>>
    /** The finite map the table stands for. */
    ghost var elemOf: map<Key, HashElem<D>>

    ghost predicate Valid()
      reads this, bucket, elemOf.Values
    {
      && bucket.Length == numbucket == |chains| && Pow2(numbucket)
      && Placed(chains, elemOf, numbucket)
      && numelem == |elemOf| <= 2 * numbucket
      && (forall x :: 0 <= x < numbucket ==> InTable(chains[x], elemOf) && Chain(chains[x], bucket[x]))
    }

    constructor ()
      ensures Valid() && fresh(bucket) && elemOf == map[] && numbucket == 8
    {
      numelem := 0;
      numbucket := INITIAL_NUM_BUCKETS;
      bucket := new HashElem?<D>[INITIAL_NUM_BUCKETS](_ => null);
      chains := seq(INITIAL_NUM_BUCKETS, _ => []);
      elemOf := map[];
    }

    /** The search loop shared by lookups and additions. */
    method SearchChain(head: HashElem?<D>, key: Key, hash: nat, ghost x: nat) returns (e: HashElem?<D>)
      requires Valid() && x < numbucket && head == bucket[x]
      requires hash == KeyHash(key) && x == BucketOf(hash, numbucket)
      ensures e == if key in elemOf then elemOf[key] else null
    {
      hide And, Pow2, KeyHash;
      ghost var c, i := chains[x], 0;
      ghost var pos := KeyPosition(chains, elemOf, numbucket, key);
      e := head;
      while e != null
        invariant 0 <= i <= |c| && e == At(c, i)
        invariant key in elemOf ==> i <= pos
        decreases |c| - i
      {
        assert Home(c[i], elemOf, numbucket, x);
        if e.hash == hash && e.key == key {
          return;
        }
        assert c[i].next == At(c, i + 1);
        e := e.next;
        i := i + 1;
      }
    }

    method Lookup(key: Key) returns (e: HashElem?<D>)
      requires Valid()
      ensures e == if key in elemOf then elemOf[key] else null
    {
      hide And;
      var hash := KeyToHash(key);
      MaskDouble(hash, numbucket);
      var x := BucketOf(hash, numbucket);
      e := SearchChain(bucket[x], key, hash, x);
    }

    /** Doubles the number of buckets and redistributes the elements. */
    method Enlarge()
      requires Valid()
      modifies this, bucket, elemOf.Values
      ensures Valid() && fresh(bucket)
      ensures numbucket == 2 * old(numbucket) && numelem == old(numelem) && elemOf == old(elemOf)
    {
      hide And, Home, KeyPlaced, NoDup, Elems, SplitPair;
      var half := numbucket;
      var was := bucket;
      var wider := new HashElem?<D>[2 * half](i requires i >= 0 reads was => if i < was.Length then was[i] else null);
      ghost var cs := SplitAll(wider, half, chains, elemOf);
      SplitDone(cs, chains, half, elemOf);
      PlacedInTable(cs, elemOf, 2 * half);
      bucket := wider;
      numbucket := 2 * half;
      chains := cs;
    }

    /** Adds `datum` under a key that is not in the table yet. A key that is already there
        is a fatal error of the caller's, reported here as NULL. */
    method Add(key: Key, datum: D) returns (e: HashElem?<D>)
      requires Valid()
      modifies this, bucket, elemOf.Values
      ensures Valid() && (bucket == old(bucket) || fresh(bucket))
      ensures key in old(elemOf) ==> e == null && elemOf == old(elemOf)
      ensures key !in old(elemOf) ==>
        && fresh(e) && e.key == key && e.datum == datum
        && elemOf == old(elemOf)[key := e]
      ensures numbucket == old(if numelem >= 2 * numbucket then 2 * numbucket else numbucket)
    {
      hide And, KeyHash, Placed, NoDup, Pow2, InTable, Chain;
      if numelem >= numbucket * 2 {
        Enlarge();
      }
      var hash := KeyToHash(key);
      MaskDouble(hash, numbucket);
      PlacedSome(chains, elemOf, numbucket);
      var x := BucketOf(hash, numbucket);
      e := SearchChain(bucket[x], key, hash, x);
      if e != null {
        return null;
      }
      e := Link(key, datum, hash, x);
    }

    /** Puts a new element at the front of its chain. */
    method Link(key: Key, datum: D, hash: nat, x: nat) returns (e: HashElem<D>)
      requires Valid() && key !in elemOf && numelem < 2 * numbucket
      requires hash == KeyHash(key) && x < numbucket && x == BucketOf(hash, numbucket)
      modifies this, bucket
      ensures Valid() && bucket == old(bucket) && numbucket == old(numbucket)
      ensures fresh(e) && e.key == key && e.datum == datum
      ensures elemOf == old(elemOf)[key := e]
    {
      hide And, KeyHash, KeyPlaced, NoDup, Pow2, Home;
      e := new HashElem(key, hash, datum, bucket[x]);
      bucket[x] := e;
      AddPlaced(chains, elemOf, numbucket, e, x);
      ghost var c := [e] + chains[x];
      forall i | 0 <= i < |c| ensures c[i].next == At(c, i + 1) {
        if i > 0 {
          assert chains[x][i - 1].next == At(chains[x], i);
        }
      }
      chains := chains[x := c];
      elemOf := elemOf[key := e];
      PlacedInTable(chains, elemOf, numbucket);
      numelem := numelem + 1;
    }

    /** Calls `visit` on every element, in bucket and chain order, until it returns
        non-zero. */
    method Walk(visit: HashElem<D> -> int) returns (r: int, ghost visited: seq<HashElem<D>>)
      requires Valid()
      ensures visited <= Flat(chains)
      ensures r == 0 ==> visited == Flat(chains) && forall e :: e in visited ==> visit(e) == 0
      ensures r != 0 ==> visited != [] && visit(visited[|visited| - 1]) == r
                         && forall e :: e in visited[..|visited| - 1] ==> visit(e) == 0
    {
      hide And, Pow2, Placed;
      visited := [];
      for b := 0 to numbucket
        invariant visited == Flat(chains[..b])
        invariant forall e :: e in visited ==> visit(e) == 0
      {
        ghost var c, i := chains[b], 0;
        FlatPrefix(chains, b);
        var e := bucket[b];
        while e != null
          invariant 0 <= i <= |c| && e == At(c, i)
          invariant visited == Flat(chains[..b]) + c[..i]
          invariant forall e :: e in visited ==> visit(e) == 0
          decreases |c| - i
        {
          visited := visited + [e];
          assert c[..i + 1] == c[..i] + [e];
          var v := visit(e);
          if v != 0 {
            assert visited[..|visited| - 1] == Flat(chains[..b]) + c[..i];
            return v, visited;
          }
          assert c[i].next == At(c, i + 1);
          e := e.next;
          i := i + 1;
        }
      }
      assert chains[..numbucket] == chains;
      r := 0;
    }

    /** The data of all elements in a new array with a NULL at its end. */
    method Datums() returns (a: array<Option<D>>)
      requires Valid()
      ensures fresh(a) && a.Length == numelem + 1
      ensures |Flat(chains)| == numelem
      ensures a[..] == DataOf(Flat(chains)) + [None]
    {
      hide And, Pow2, Placed, Flat, InTable, DataOf;
      FlatOnce(chains, elemOf, numbucket);
      ghost var flat := Flat(chains);
      ghost var data := DataOf(flat);
      a := new Option<D>[numelem + 1](_ => None);
      var n := 0;
      assert Flat(chains[..0]) == [] by { FlatEmpty(chains); }
      for b := 0 to numbucket
        invariant n == |Flat(chains[..b])| <= |flat|
        invariant a[..n] == data[..n] && a[numelem] == None
      {
        FlatPrefix(chains, b);
        assert flat[n..n + |chains[b]|] == chains[b];
        n := CopyChain(a, n, bucket[b], chains[b]);
        assert data[..n] == data[..n - |chains[b]|] + DataOf(chains[b]);
      }
      assert chains[..numbucket] == chains;
      assert a[..] == a[..numelem] + [a[numelem]];
    }
  }

  /** The inner loop: appends the data of one chain. */
  method CopyChain<D>(a: array<Option<D>>, n0: nat, head: HashElem?<D>, ghost c: seq<HashElem<D>>) returns (n: nat)
    requires Chain(c, head) && n0 + |c| < a.Length
    modifies a
    ensures n == n0 + |c| && a[..n] == old(a[..n0]) + DataOf(c)
    ensures a[n..] == old(a[n..])
  {
    hide DataOf;
    n := n0;
    var e := head;
    ghost var i := 0;
    while e != null
      invariant 0 <= i <= |c| && e == At(c, i) && n == n0 + i
      invariant a[..n] == old(a[..n0]) + DataOf(c)[..i]
      invariant a[n..] == old(a[n..])
      decreases |c| - i
    {
      a[n] := Some(e.datum);
      assert a[..n + 1] == a[..n] + [a[n]];
      assert a[n + 1..] == a[n..][1..];
      assert old(a[n..][1..]) == old(a[n + 1..]);
      n := n + 1;
      assert c[i].next == At(c, i + 1);
      e := e.next;
      i := i + 1;
    }
  }

  function DataOf<D>(c: seq<HashElem<D>>): (s: seq<Option<D>>)
    ensures |s| == |c| && forall i :: 0 <= i < |c| ==> s[i] == Some(c[i].datum)
  {
    seq(|c|, i requires 0 <= i < |c| => Some(c[i].datum))
  }

  lemma FlatEmpty<D>(chains: seq<seq<HashElem<D>>>)
    ensures Flat(chains[..0]) == []
  {}

  datatype Option<+T> = None | Some(value: T)

  /** All elements in the order a walk visits them. */
  ghost function Flat<D>(chains: seq<seq<HashElem<D>>>): seq<HashElem<D>> {
    if chains == [] then [] else Flat(chains[..|chains| - 1]) + chains[|chains| - 1]
  }

  lemma {:induction false} FlatPrefix<D>(chains: seq<seq<HashElem<D>>>, b: nat)
    requires b < |chains|
    ensures Flat(chains[..b + 1]) == Flat(chains[..b]) + chains[b]
    ensures Flat(chains[..b]) + chains[b] <= Flat(chains)
    decreases |chains|
  {
    assert chains[..b + 1][..b] == chains[..b];
    if b + 1 < |chains| {
      var front := chains[..|chains| - 1];
      FlatPrefix(front, b);
      assert front[..b] == chains[..b];
    } else {
      assert chains[..b + 1] == chains;
    }
  }

  /** A full walk visits every element of the table exactly once. */
  lemma FlatOnce<D>(chains: seq<seq<HashElem<D>>>, elemOf: map<Key, HashElem<D>>, n: nat)
    requires Placed(chains, elemOf, n)
    ensures NoDup(Flat(chains)) && Elems(Flat(chains)) == elemOf.Values && |Flat(chains)| == |elemOf|
  {
    hide And, KeyHash;
    assert chains[..n] == chains;
    FlatNoDup(chains, elemOf, n, n);
    forall e | e in elemOf.Values ensures e in Flat(chains) {
      var k :| k in elemOf && elemOf[k] == e;
      assert KeyPlaced(chains, elemOf, n, k);
      var x := BucketOf(KeyHash(k), n);
      FlatPrefix(chains, x);
      assert e in Flat(chains[..x]) + chains[x];
    }
    KeysOnce(Flat(chains), elemOf);
  }

  lemma {:induction false} FlatNoDup<D>(chains: seq<seq<HashElem<D>>>, elemOf: map<Key, HashElem<D>>, n: nat, b: nat)
    requires Placed(chains, elemOf, n) && b <= n
    ensures NoDup(Flat(chains[..b]))
    ensures forall e :: e in Flat(chains[..b]) ==>
      e.key in elemOf && elemOf[e.key] == e && BucketOf(e.hash, n) < b
    decreases b
  {
    hide And, KeyHash;
    if b > 0 {
      FlatNoDup(chains, elemOf, n, b - 1);
      FlatPrefix(chains, b - 1);
      forall e | e in chains[b - 1]
        ensures e.key in elemOf && elemOf[e.key] == e && BucketOf(e.hash, n) == b - 1
      {
        var i :| 0 <= i < |chains[b - 1]| && chains[b - 1][i] == e;
        assert Home(chains[b - 1][i], elemOf, n, b - 1);
      }
    }
  }

  /** A list of distinct elements that are the values of an injective map is as long as
      the map. */
  lemma {:induction false} KeysOnce<D>(c: seq<HashElem<D>>, elemOf: map<Key, HashElem<D>>)
    requires NoDup(c) && Elems(c) == elemOf.Values
    requires forall e :: e in c ==> e.key in elemOf && elemOf[e.key] == e
    requires forall k :: k in elemOf ==> elemOf[k].key == k
    ensures |c| == |elemOf|
    decreases |c|
  {
    assert forall k :: k in elemOf ==> elemOf[k] in elemOf.Values;
    if c == [] {
      assert elemOf.Keys == {};
    } else {
      var e, rest := c[0], c[1..];
      var less := elemOf - {e.key};
      assert elemOf == less[e.key := e];
      assert Elems(rest) == less.Values by {
        assert c == [e] + rest;
        assert e !in rest;
        forall x | x in Elems(rest) ensures x in less.Values {
          assert x in c && less[x.key] == x;
        }
        forall x | x in less.Values ensures x in Elems(rest) {
          var k :| k in less && less[k] == x;
          assert x in elemOf.Values && x in Elems(c);
        }
      }
      KeysOnce(rest, less);
    }
  }

  lemma AddPlaced<D>(chains: seq<seq<HashElem<D>>>, elemOf: map<Key, HashElem<D>>, n: nat, e: HashElem<D>, x: nat)
    requires Placed(chains, elemOf, n) && e.key !in elemOf
    requires e.hash == KeyHash(e.key) && x < n && x == BucketOf(e.hash, n)
    ensures Placed(chains[x := [e] + chains[x]], elemOf[e.key := e], n)
    ensures e !in chains[x]
  {
    hide And, KeyHash;
    var cs, eo := chains[x := [e] + chains[x]], elemOf[e.key := e];
    PlacedInTable(chains, elemOf, n);
    forall y, i | 0 <= y < n && 0 <= i < |cs[y]| ensures Home(cs[y][i], eo, n, y) {
      if y != x {
        assert Home(chains[y][i], elemOf, n, y);
      } else if i > 0 {
        assert Home(chains[x][i - 1], elemOf, n, x);
      }
    }
    forall i | 0 <= i < |chains[x]| ensures chains[x][i] != e {
      assert Home(chains[x][i], elemOf, n, x);
    }
    forall k | k in eo ensures KeyPlaced(cs, eo, n, k) {
      if k != e.key {
        assert KeyPlaced(chains, elemOf, n, k);
      }
    }
  }

  lemma PlacedSome<D>(chains: seq<seq<HashElem<D>>>, elemOf: map<Key, HashElem<D>>, n: nat)
    requires Placed(chains, elemOf, n)
    ensures n > 0
  {}

  lemma PlacedInTable<D>(chains: seq<seq<HashElem<D>>>, elemOf: map<Key, HashElem<D>>, n: nat)
    requires Placed(chains, elemOf, n)
    ensures forall x :: 0 <= x < n ==> InTable(chains[x], elemOf) && NoDup(chains[x])
  {
    forall x, i | 0 <= x < n && 0 <= i < |chains[x]| ensures chains[x][i] in elemOf.Values {
      assert Home(chains[x][i], elemOf, n, x);
    }
  }

  /** Position of a key's element in its chain. */
  ghost function KeyPosition<D>(chains: seq<seq<HashElem<D>>>, elemOf: map<Key, HashElem<D>>, n: nat, k: Key): (i: nat)
    requires Placed(chains, elemOf, n)
    ensures k in elemOf ==>
      var x := BucketOf(KeyHash(k), n);
      x < n && i < |chains[x]| && chains[x][i] == elemOf[k] && elemOf[k].key == k && elemOf[k].hash == KeyHash(k)
  {
    if k in elemOf then
      assert KeyPlaced(chains, elemOf, n, k);
      var c := chains[BucketOf(KeyHash(k), n)];
      var i :| 0 <= i < |c| && c[i] == elemOf[k];
      i
    else 0
  }

  /** Chains not yet split share no element with the chain about to be split. */
  lemma Apart<D>(cs: seq<seq<HashElem<D>>>, chains: seq<seq<HashElem<D>>>, half: nat, b: nat,
                 elemOf: map<Key, HashElem<D>>, x: nat)
    requires SplitUpTo(cs, chains, half, b) && b < half && Placed(chains, elemOf, half)
    requires x < 2 * half && x != b
    ensures forall e :: e in cs[x] ==> e !in chains[b]
  {
    hide And, KeyHash, NoDup, KeyPlaced;
    var y := if x < half then x else x - half;
    forall e | e in cs[x] ensures e !in chains[b] && e in elemOf.Values {
      assert e in chains[y] by {
        if y < b {
          assert SplitPair(cs[y], cs[y + half], chains[y], half, y);
          assert e in Elems(cs[x]) && e in Elems(chains[y]);
        }
      }
      var j :| 0 <= j < |chains[y]| && chains[y][j] == e;
      assert Home(chains[y][j], elemOf, half, y);
    }
  }

  /** Every element of the chain is an element of the table. */
  ghost predicate InTable<D>(c: seq<HashElem<D>>, elemOf: map<Key, HashElem<D>>) {
    forall i :: 0 <= i < |c| ==> c[i] in elemOf.Values
  }
}
