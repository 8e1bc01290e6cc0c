/**
Flag arithmetic of the execution core at any operand width
(src/core/cpu/cpu_ops.h, src/core/cpu/cpu_internal.h): what the bit formulas
for carry and overflow mean for comparisons and for multi-precision chains.
*/
module Arithmetic {
  import opened Words
  import System

  type Ccr = System.Ccr

  // ---- bit formulas -----------------------------------------------------

  /** A bitwise operator on the low w bits. */
  function Bitwise(w: nat, f: (bool, bool) -> bool, a: nat, b: nat): nat {
    if w == 0 then 0
    else 2 * Bitwise(w - 1, f, a / 2, b / 2) + if f(a % 2 == 1, b % 2 == 1) then 1 else 0
  }

  function And(w: nat, a: nat, b: nat): nat { Bitwise(w, (x, y) => x && y, a, b) }
  function Or(w: nat, a: nat, b: nat): nat { Bitwise(w, (x, y) => x || y, a, b) }
  function Xor(w: nat, a: nat, b: nat): nat { Bitwise(w, (x, y) => x != y, a, b) }
  function Not(w: nat, a: nat): nat { Bitwise(w, (x, y) => !x, a, 0) }

  /** The value shifted right by w-1, as a truth value. */
  predicate Top(w: nat, a: nat)
    requires w > 0
  {
    a / Pow2(w - 1) != 0
  }

  predicate IsWord(w: nat, a: int) {
    0 <= a < Pow2(w)
  }

  lemma {:induction false} BitwiseTop(w: nat, f: (bool, bool) -> bool, a: nat, b: nat)
    requires w > 0 && IsWord(w, a) && IsWord(w, b)
    ensures IsWord(w, Bitwise(w, f, a, b))
    ensures (Bitwise(w, f, a, b) >= Pow2(w - 1)) == f(a >= Pow2(w - 1), b >= Pow2(w - 1))
  {
    if w == 1 {
      assert Pow2(0) == 1 && Pow2(1) == 2;
      assert Bitwise(0, f, a / 2, b / 2) == 0;
    } else {
      BitwiseTop(w - 1, f, a / 2, b / 2);
    }
  }

  lemma TopIs(w: nat, a: nat)
    requires w > 0
    ensures Top(w, a) <==> a >= Pow2(w - 1)
  {
    DivSmall(a, Pow2(w - 1));
  }

  lemma DivSmall(a: nat, p: nat)
    requires p > 0
    ensures a / p == 0 <==> a < p
  {
  }

  /** UPDATE_V_SUB: ((dst ^ src) & (dst ^ res)) >> (w - 1). */
  predicate SubOverflow(w: nat, d: nat, s: nat, r: nat)
    requires w > 0
  {
    Top(w, And(w, Xor(w, d, s), Xor(w, d, r)))
  }

  /** UPDATE_V_ADD: (~(dst ^ src) & (dst ^ res)) >> (w - 1). */
  predicate AddOverflow(w: nat, d: nat, s: nat, r: nat)
    requires w > 0
  {
    Top(w, And(w, Not(w, Xor(w, d, s)), Xor(w, d, r)))
  }

  /** UPDATE_CX_ADDX: ((dst & src) | ((dst | src) & ~res)) >> (w - 1). */
  predicate AddCarry(w: nat, d: nat, s: nat, r: nat)
    requires w > 0
  {
    Top(w, Or(w, And(w, d, s), And(w, Or(w, d, s), Not(w, r))))
  }

  /** UPDATE_CX_SUBX: ((~dst & src) | ((~dst | src) & res)) >> (w - 1). */
  predicate SubBorrow(w: nat, d: nat, s: nat, r: nat)
    requires w > 0
  {
    Top(w, Or(w, And(w, Not(w, d), s), And(w, Or(w, Not(w, d), s), r)))
  }

  lemma NotTop(w: nat, a: nat)
    requires w > 0 && IsWord(w, a)
    ensures IsWord(w, Not(w, a)) && (Not(w, a) >= Pow2(w - 1)) == !(a >= Pow2(w - 1))
  {
    BitwiseTop(w, (x, y) => !x, a, 0);
  }

  lemma AndTop(w: nat, a: nat, b: nat)
    requires w > 0 && IsWord(w, a) && IsWord(w, b)
    ensures IsWord(w, And(w, a, b))
    ensures (And(w, a, b) >= Pow2(w - 1)) == (a >= Pow2(w - 1) && b >= Pow2(w - 1))
  {
    BitwiseTop(w, (x, y) => x && y, a, b);
  }

  lemma OrTop(w: nat, a: nat, b: nat)
    requires w > 0 && IsWord(w, a) && IsWord(w, b)
    ensures IsWord(w, Or(w, a, b))
    ensures (Or(w, a, b) >= Pow2(w - 1)) == (a >= Pow2(w - 1) || b >= Pow2(w - 1))
  {
    BitwiseTop(w, (x, y) => x || y, a, b);
  }

  lemma XorTop(w: nat, a: nat, b: nat)
    requires w > 0 && IsWord(w, a) && IsWord(w, b)
    ensures IsWord(w, Xor(w, a, b))
    ensures (Xor(w, a, b) >= Pow2(w - 1)) == ((a >= Pow2(w - 1)) != (b >= Pow2(w - 1)))
  {
    BitwiseTop(w, (x, y) => x != y, a, b);
  }

  /** The four formulas depend on the three sign bits only. */
  lemma FormulasByTop(w: nat, d: nat, s: nat, r: nat)
    requires w > 0 && IsWord(w, d) && IsWord(w, s) && IsWord(w, r)
    ensures var (td, ts, tr) := (d >= Pow2(w - 1), s >= Pow2(w - 1), r >= Pow2(w - 1));
            && (SubOverflow(w, d, s, r) <==> td != ts && td != tr)
            && (AddOverflow(w, d, s, r) <==> td == ts && td != tr)
            && (AddCarry(w, d, s, r) <==> (td && ts) || ((td || ts) && !tr))
            && (SubBorrow(w, d, s, r) <==> (!td && ts) || ((!td || ts) && tr))
  {
    hide And, Or, Xor, Not, Pow2, Top;
    XorTop(w, d, s);
    XorTop(w, d, r);
    NotTop(w, d);
    NotTop(w, r);
    NotTop(w, Xor(w, d, s));
    AndTop(w, Xor(w, d, s), Xor(w, d, r));
    TopIs(w, And(w, Xor(w, d, s), Xor(w, d, r)));
    AndTop(w, Not(w, Xor(w, d, s)), Xor(w, d, r));
    TopIs(w, And(w, Not(w, Xor(w, d, s)), Xor(w, d, r)));
    AndTop(w, d, s);
    OrTop(w, d, s);
    AndTop(w, Or(w, d, s), Not(w, r));
    OrTop(w, And(w, d, s), And(w, Or(w, d, s), Not(w, r)));
    TopIs(w, Or(w, And(w, d, s), And(w, Or(w, d, s), Not(w, r))));
    AndTop(w, Not(w, d), s);
    OrTop(w, Not(w, d), s);
    AndTop(w, Or(w, Not(w, d), s), r);
    OrTop(w, And(w, Not(w, d), s), And(w, Or(w, Not(w, d), s), r));
    TopIs(w, Or(w, And(w, Not(w, d), s), And(w, Or(w, Not(w, d), s), r)));
  }

  // ---- signed reading ---------------------------------------------------

  /** Two's-complement value of a w-bit word. */
  function Signed(w: nat, a: nat): int
    requires w > 0
  {
    if a >= Pow2(w - 1) then a - Pow2(w) else a
  }

  /** Reduction of a result that is at most one word out of range. */
  function Reduce(w: nat, v: int): (r: nat)
    requires 0 <= v + Pow2(w) && v < 2 * Pow2(w)
    ensures IsWord(w, r)
  {
    if v < 0 then v + Pow2(w) else if v >= Pow2(w) then v - Pow2(w) else v
  }

  // ---- compare and test -------------------------------------------------

  /** GENERIC_SUB: result and flags of a subtraction, X untouched. */
  function GenericSub(w: nat, d: nat, s: nat, f: Ccr): (nat, Ccr)
    requires w > 0 && IsWord(w, d) && IsWord(w, s)
  {
    var r := Reduce(w, d - s);
    (r, f.(c := r > d, v := SubOverflow(w, d, s, r), n := And(w, r, Pow2(w - 1)) != 0, z := r == 0))
  }

  /** `conditional_test`. */
  predicate ConditionalTest(f: Ccr, test: nat) {
    match test
    case 0x0 => true
    case 0x1 => false
    case 0x2 => !f.c && !f.z
    case 0x3 => f.c || f.z
    case 0x4 => !f.c
    case 0x5 => f.c
    case 0x6 => !f.z
    case 0x7 => f.z
    case 0x8 => !f.v
    case 0x9 => f.v
    case 0xA => !f.n
    case 0xB => f.n
    case 0xC => (f.n && f.v) || (!f.n && !f.v)
    case 0xD => (f.n && !f.v) || (!f.n && f.v)
    case 0xE => (f.n && f.v && !f.z) || (!f.n && !f.v && !f.z)
    case 0xF => f.z || (f.n && !f.v) || (!f.n && f.v)
    case _ => false
  }

  lemma SignMask(w: nat, r: nat)
    requires w > 0 && IsWord(w, r)
    ensures And(w, r, Pow2(w - 1)) != 0 <==> r >= Pow2(w - 1)
  {
    hide And;
    AndTop(w, r, Pow2(w - 1));
    if r < Pow2(w - 1) {
      MaskedLow(w, r);
    }
  }

  lemma {:induction false} MaskedLow(w: nat, r: nat)
    requires w > 0 && r < Pow2(w - 1)
    ensures Bitwise(w, (x, y) => x && y, r, Pow2(w - 1)) == 0
    ensures And(w, r, Pow2(w - 1)) == 0
  {
    if w == 1 {
      assert Pow2(0) == 1;
      assert Bitwise(0, (x, y) => x && y, 0, 0) == 0;
    } else {
      MaskedLow(w - 1, r / 2);
      assert Pow2(w - 1) / 2 == Pow2(w - 2) && Pow2(w - 1) % 2 == 0;
    }
  }

  /** The flags of a compare in terms of the operands. */
  lemma CompareFlags(w: nat, d: nat, s: nat, f: Ccr)
    requires w > 0 && IsWord(w, d) && IsWord(w, s)
    ensures var g := GenericSub(w, d, s, f).1;
            var diff := Signed(w, d) - Signed(w, s);
            && g.x == f.x && g.c == (d < s) && g.z == (d == s)
            && g.v == !(0 <= diff + Pow2(w - 1) && diff < Pow2(w - 1))
            && g.n == (Signed(w, Reduce(w, d - s)) < 0)
  {
    hide SubOverflow, And;
    var r := Reduce(w, d - s);
    FormulasByTop(w, d, s, r);
    SignMask(w, r);
    assert Pow2(w) == 2 * Pow2(w - 1);
  }

  /** N differs from V exactly when the signed difference is negative. */
  lemma SignedOrder(w: nat, d: nat, s: nat)
    requires w > 0 && IsWord(w, d) && IsWord(w, s)
    ensures var diff := Signed(w, d) - Signed(w, s);
            var fits := 0 <= diff + Pow2(w - 1) && diff < Pow2(w - 1);
            && ((Signed(w, Reduce(w, d - s)) < 0) == fits <==> diff < 0)
            && (diff == 0 <==> d == s)
  {
    assert Pow2(w) == 2 * Pow2(w - 1);
  }

  /**
  After a compare, each condition decides the comparison its name promises:
  unsigned for HI, LS, CC, CS; signed for GE, LT, GT, LE; and VC/VS, PL/MI
  describe signed overflow and the sign of the wrapped difference.
  */
  lemma CompareThenTest(w: nat, d: nat, s: nat, f: Ccr)
    requires w > 0 && IsWord(w, d) && IsWord(w, s)
    ensures var g := GenericSub(w, d, s, f).1;
            var diff := Signed(w, d) - Signed(w, s);
            var fits := 0 <= diff + Pow2(w - 1) && diff < Pow2(w - 1);
            && g.x == f.x && ConditionalTest(g, 0x0) && !ConditionalTest(g, 0x1)
            && ConditionalTest(g, 0x2) == (d > s) && ConditionalTest(g, 0x3) == (d <= s)
            && ConditionalTest(g, 0x4) == (d >= s) && ConditionalTest(g, 0x5) == (d < s)
            && ConditionalTest(g, 0x6) == (d != s) && ConditionalTest(g, 0x7) == (d == s)
            && ConditionalTest(g, 0x8) == fits && ConditionalTest(g, 0x9) == !fits
            && ConditionalTest(g, 0xA) == (Signed(w, Reduce(w, d - s)) >= 0)
            && ConditionalTest(g, 0xB) == (Signed(w, Reduce(w, d - s)) < 0)
            && ConditionalTest(g, 0xC) == (diff >= 0) && ConditionalTest(g, 0xD) == (diff < 0)
            && ConditionalTest(g, 0xE) == (diff > 0) && ConditionalTest(g, 0xF) == (diff <= 0)
  {
    hide GenericSub, Signed, Pow2, Reduce;
    CompareFlags(w, d, s, f);
    SignedOrder(w, d, s);
  }

  // ---- extended addition and subtraction --------------------------------

  function Carry(f: Ccr): nat { if f.x then 1 else 0 }

  /** ADDX: Z is only ever cleared. */
  function Addx(w: nat, d: nat, s: nat, f: Ccr): (nat, Ccr)
    requires w > 0 && IsWord(w, d) && IsWord(w, s)
  {
    var r := Reduce(w, d + s + Carry(f));
    var c := AddCarry(w, d, s, r);
    (r, f.(x := c, c := c, v := AddOverflow(w, d, s, r), n := And(w, r, Pow2(w - 1)) != 0, z := f.z && r == 0))
  }

  /** SUBX. */
  function Subx(w: nat, d: nat, s: nat, f: Ccr): (nat, Ccr)
    requires w > 0 && IsWord(w, d) && IsWord(w, s)
  {
    var r := Reduce(w, d - s - Carry(f));
    var c := SubBorrow(w, d, s, r);
    (r, f.(x := c, c := c, v := SubOverflow(w, d, s, r), n := And(w, r, Pow2(w - 1)) != 0, z := f.z && r == 0))
  }

  /** Which of the two chains. */
  datatype Kind = Plus | Minus

  function Extended(k: Kind, w: nat, d: nat, s: nat, f: Ccr): (nat, Ccr)
    requires w > 0 && IsWord(w, d) && IsWord(w, s)
  {
    if k.Plus? then Addx(w, d, s, f) else Subx(w, d, s, f)
  }

  /** d plus or minus s. */
  function Combine(k: Kind, d: int, s: int): int {
    if k.Plus? then d + s else d - s
  }

  /** One step: carry or borrow accounts for the word boundary, V for the signed one. */
  lemma ExtendedStep(k: Kind, w: nat, d: nat, s: nat, f: Ccr)
    requires w > 0 && IsWord(w, d) && IsWord(w, s)
    ensures var (r, g) := Extended(k, w, d, s, f);
            && IsWord(w, r)
            && r + Combine(k, 0, Carry(g) * Pow2(w)) == Combine(k, d, s + Carry(f))
            && (g.v <==> Signed(w, r) != Combine(k, Signed(w, d), Signed(w, s) + Carry(f)))
            && (g.n <==> Signed(w, r) < 0)
            && g.c == g.x && g.z == (f.z && r == 0)
  {
    hide SubOverflow, AddOverflow, AddCarry, SubBorrow, And;
    var r := Extended(k, w, d, s, f).0;
    FormulasByTop(w, d, s, r);
    SignMask(w, r);
    assert Pow2(w) == 2 * Pow2(w - 1);
  }
}
