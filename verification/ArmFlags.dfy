/** Condition flags: the emulator's sign-bit formulas and their shortcut tests give the true
    carry and overflow. Words are added and compared as the integers they stand for. */
module ArmFlags {
  import opened ArmState
  import opened ArmWords

  /** `NEG`: bit 31. */
  predicate Neg(w: word) {
    Nat(w) >= 0x8000_0000
  }

  /** `ARMul_NegZero` */
  function NegZero(f: Flags, result: word): Flags {
    if Neg(result) then f.(n := true, z := false)
    else if Nat(result) == 0 then f.(n := false, z := true)
    else f.(n := false, z := false)
  }

  predicate AddCarry(a: word, b: word, result: word) {
    (Neg(a) && Neg(b)) || (Neg(a) && !Neg(result)) || (Neg(b) && !Neg(result))
  }

  predicate AddOverflow(a: word, b: word, result: word) {
    (Neg(a) && Neg(b) && !Neg(result)) || (!Neg(a) && !Neg(b) && Neg(result))
  }

  predicate SubCarry(a: word, b: word, result: word) {
    (Neg(a) && !Neg(b)) || (Neg(a) && !Neg(result)) || (!Neg(b) && !Neg(result))
  }

  predicate SubOverflow(a: word, b: word, result: word) {
    (Neg(a) && !Neg(b) && !Neg(result)) || (!Neg(a) && Neg(b) && Neg(result))
  }

  /** `(lhs | rhs) >> k`: one of the operands reaches bit `k`. */
  predicate Reaches30(lhs: word, rhs: word) {
    (lhs | rhs) >> 30 != 0
  }

  predicate Reaches31(lhs: word, rhs: word) {
    (rhs | lhs) >> 31 != 0
  }

  /** Flags of ADDS, ADCS and CMN. Two operands below 2^30 are taken to set none but Z. */
  function AddFlags(f: Flags, lhs: word, rhs: word, dest: word): Flags {
    var g := f.(z := Nat(dest) == 0);
    if Reaches30(lhs, rhs) then
      g.(n := Neg(dest), c := AddCarry(lhs, rhs, dest), v := AddOverflow(lhs, rhs, dest))
    else g.(n := false, c := false, v := false)
  }

  /** C and V of SUBS, SBCS, RSBS, RSCS and CMP, of which a smaller nonnegative `lhs` is
      taken to set neither. */
  function SubFlags(f: Flags, lhs: word, rhs: word, dest: word): Flags {
    if Nat(lhs) >= Nat(rhs) || Reaches31(lhs, rhs) then
      f.(c := SubCarry(lhs, rhs, dest), v := SubOverflow(lhs, rhs, dest))
    else f.(c := false, v := false)
  }

  // ---- What the flags say ----

  /** After adding `lhs`, `rhs` and a carry, N and Z describe the result, C says the unsigned
      sum does not fit a word, and V that the signed sum does not. */
  lemma AddFlagsTrue(f: Flags, lhs: word, rhs: word, carry: bool)
    ensures var dest := Plus(lhs, rhs, In(carry));
            var g := AddFlags(f, lhs, rhs, dest);
            && g.n == Neg(dest) && g.z == (Nat(dest) == 0)
            && (g.c <==> Nat(lhs) + Nat(rhs) + In(carry) > 0xffff_ffff)
            && (g.v <==> Int(dest) != Int(lhs) + Int(rhs) + In(carry))
  {
    hide Nat, Reaches30, Reaches31, Plus;
    PlusNat(lhs, rhs, In(carry));
    Reached(lhs, rhs);
  }

  /** After subtracting `rhs` and a borrow from `lhs`, C says nothing had to be borrowed, and
      V that the signed difference does not fit a word. */
  lemma SubFlagsTrue(f: Flags, lhs: word, rhs: word, borrow: bool)
    ensures var dest := Minus(lhs, rhs, In(borrow));
            var g := SubFlags(f, lhs, rhs, dest);
            && (g.c <==> Nat(lhs) >= Nat(rhs) + In(borrow))
            && (g.v <==> Int(dest) != Int(lhs) - Int(rhs) - In(borrow))
            && g.n == f.n && g.z == f.z
  {
    hide Nat, Reaches30, Reaches31, Minus;
    MinusNat(lhs, rhs, In(borrow));
    Reached(lhs, rhs);
  }

  lemma Reached(lhs: word, rhs: word)
    ensures Reaches30(lhs, rhs) <==> Nat(lhs) >= 0x4000_0000 || Nat(rhs) >= 0x4000_0000
    ensures Reaches31(lhs, rhs) <==> Neg(lhs) || Neg(rhs)
  {
    hide Nat;
    TopBits(lhs, rhs);
    NatTop(lhs);
    NatTop(rhs);
  }

  lemma TopBits(lhs: word, rhs: word)
    ensures Reaches30(lhs, rhs) <==> lhs >> 30 != 0 || rhs >> 30 != 0
    ensures Reaches31(lhs, rhs) <==> lhs >> 31 != 0 || rhs >> 31 != 0
  {}

  // ---- Condition codes ----

  datatype Condition = EQ | NE | CS | CC | MI | PL | VS | VC | HI | LS | GE | LT | GT | LE | AL | NV

  function ConditionOf(instr: word): Condition {
    var k := instr >> 28;
    if k == 0 then EQ else if k == 1 then NE else if k == 2 then CS else if k == 3 then CC
    else if k == 4 then MI else if k == 5 then PL else if k == 6 then VS else if k == 7 then VC
    else if k == 8 then HI else if k == 9 then LS else if k == 10 then GE else if k == 11 then LT
    else if k == 12 then GT else if k == 13 then LE else if k == 14 then AL else NV
  }

  /** Whether an instruction with this condition is executed. */
  predicate Passed(k: Condition, f: Flags) {
    match k
    case AL => true
    case NV => false
    case EQ => f.z
    case NE => !f.z
    case VS => f.v
    case VC => !f.v
    case MI => f.n
    case PL => !f.n
    case CS => f.c
    case CC => !f.c
    case HI => f.c && !f.z
    case LS => !f.c || f.z
    case GE => (!f.n && !f.v) || (f.n && f.v)
    case LT => (f.n && !f.v) || (!f.n && f.v)
    case GT => (!f.n && !f.v && !f.z) || (f.n && f.v && !f.z)
    case LE => (f.n && !f.v) || (!f.n && f.v) || f.z
  }
}
