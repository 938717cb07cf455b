/** Multiple-register transfers: the list decoder, the addresses of the four modes, what each
    transfer reads and writes, and why a store and the matching load undo each other. */
module ArmBlock {
  import opened ArmState

  /** Words in the 26-bit address space. */
  const MEMWORDS := 0x100_0000

  /** The processor and its memory of aligned words. */
  datatype Machine = Machine(cpu: Cpu, mem: seq<word>)

  predicate Running(m: Machine) {
    Ready(m.cpu) && |m.mem| == MEMWORDS
  }

  // ---- The register list ----

  predicate Listed(instr: word, r: nat)
    requires r < 32
  {
    (instr >> r) & 1 == 1
  }

  /** How many listed registers come before register `r`. */
  function Rank(instr: word, r: nat): (n: nat)
    requires r <= 16
    ensures n <= r
  {
    if r == 0 then 0 else Rank(instr, r - 1) + if Listed(instr, r - 1) then 1 else 0
  }

  function Count(instr: word): nat {
    Rank(instr, 16)
  }

  /** The listed register with `k` listed registers before it, searching from `r`. */
  function NthFrom(instr: word, k: nat, r: nat): (n: nat)
    requires r <= 16 && Rank(instr, r) <= k < Count(instr)
    ensures r <= n < 16 && Listed(instr, n) && Rank(instr, n) == k
    decreases 16 - r
  {
    if Listed(instr, r) && Rank(instr, r) == k then r else NthFrom(instr, k, r + 1)
  }

  function Nth(instr: word, k: nat): (n: nat)
    requires k < Count(instr)
    ensures n < 16 && Listed(instr, n) && Rank(instr, n) == k
  {
    NthFrom(instr, k, 0)
  }

  lemma {:induction false} RankGrows(instr: word, r: nat, s: nat)
    requires r <= s <= 16
    ensures Rank(instr, r) <= Rank(instr, s)
    ensures r < s && Listed(instr, r) ==> Rank(instr, r) < Rank(instr, s)
    decreases s
  {
    hide Listed;
    if r < s {
      RankGrows(instr, r, s - 1);
    }
  }

  /** Every listed register is the one its rank names. */
  lemma NthOfRank(instr: word, r: nat)
    requires r < 16 && Listed(instr, r)
    ensures Rank(instr, r) < Count(instr) && Nth(instr, Rank(instr, r)) == r
  {
    hide Listed;
    RankGrows(instr, r, 16);
    var n := Nth(instr, Rank(instr, r));
    if n < r {
      RankGrows(instr, n, r);
    } else if r < n {
      RankGrows(instr, r, n);
    }
  }

  // ---- Transfers between registers and memory ----

  /** Register `r` after loading the listed registers, the lowest from word `w`. */
  function Loaded(reg: seq<word>, instr: word, mem: seq<word>, w: nat): (s: seq<word>)
    requires |reg| == 16 && w + Count(instr) <= |mem|
    ensures |s| == 16
  {
    seq(16, r requires 0 <= r < 16 => LoadedAt(reg, instr, mem, w, r))
  }

  function LoadedAt(reg: seq<word>, instr: word, mem: seq<word>, w: nat, r: nat): word
    requires |reg| == 16 && w + Count(instr) <= |mem| && r < 16
  {
    if Listed(instr, r) then
      RankGrows(instr, r, 16);
      mem[w + Rank(instr, r)]
    else reg[r]
  }

  /** Memory after storing the listed registers, the lowest at word `w`. */
  function Stored(mem: seq<word>, instr: word, reg: seq<word>, w: nat): (s: seq<word>)
    requires |reg| == 16 && w + Count(instr) <= |mem|
    ensures |s| == |mem|
  {
    seq(|mem|, i requires 0 <= i < |mem| => StoredAt(mem, instr, reg, w, i))
  }

  function StoredAt(mem: seq<word>, instr: word, reg: seq<word>, w: nat, i: nat): word
    requires |reg| == 16 && i < |mem|
  {
    if w <= i < w + Count(instr) then reg[Nth(instr, i - w)] else mem[i]
  }

  /** A store touches exactly one word for each listed register, the registers ascending with
      the addresses. */
  lemma StoredWords(mem: seq<word>, instr: word, reg: seq<word>, w: nat)
    requires |reg| == 16 && w + Count(instr) <= |mem|
    ensures var s := Stored(mem, instr, reg, w);
            && (forall i :: 0 <= i < w || w + Count(instr) <= i < |mem| ==> s[i] == mem[i])
            && (forall r :: 0 <= r < 16 && Listed(instr, r) ==>
                  w + Rank(instr, r) < |mem| && s[w + Rank(instr, r)] == reg[r])
            && (forall r, q :: 0 <= r < q < 16 && Listed(instr, r) && Listed(instr, q) ==> Rank(instr, r) < Rank(instr, q))
  {
    hide Listed;
    forall r | 0 <= r < 16 && Listed(instr, r)
      ensures w + Rank(instr, r) < |mem| && Stored(mem, instr, reg, w)[w + Rank(instr, r)] == reg[r]
    {
      NthOfRank(instr, r);
    }
    forall r, q | 0 <= r < q < 16 && Listed(instr, r) && Listed(instr, q) ensures Rank(instr, r) < Rank(instr, q) {
      RankGrows(instr, r, q);
    }
  }

  /** Loading what was stored gives every listed register back and changes no other. */
  lemma LoadStored(mem: seq<word>, instr: word, stored: seq<word>, w: nat, reg: seq<word>)
    requires |reg| == |stored| == 16 && w + Count(instr) <= |mem|
    ensures var l := Loaded(reg, instr, Stored(mem, instr, stored, w), w);
            forall r :: 0 <= r < 16 ==> l[r] == if Listed(instr, r) then stored[r] else reg[r]
  {
    hide Listed;
    StoredWords(mem, instr, stored, w);
  }
}
