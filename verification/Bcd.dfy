/**
ABCD and SBCD (src/core/cpu/cpu_internal.h): the correction formulas, written
as bit operations on binary sums, compute decimal digits.
*/
module Bcd {
  import opened Words
  import opened Arithmetic
  import opened Bits
  import Operands

  function And88(v: nat): nat { And(8, v, 0x88) }

  /** `abcd`. */
  function Abcd(model: Operands.Model, d: Byte, s: Byte, f: Ccr): (Byte, Ccr) {
    var ss := (d + s + Carry(f)) % 256;
    var dc := Xor(9, ss + 0x66, ss) / 2;
    var bc := Or(8, And(8, d, s), And(8, Or(8, d, s), Not(8, ss)));
    var corr := And88(Or(8, bc, dc));
    var rr := (ss + corr - corr / 4) % 256;
    var x := And(8, Or(8, bc, And(8, ss, Not(8, rr))), 0x80) != 0;
    (rr, f.(v := model.M68000? && And(8, And(8, Not(8, ss), rr), 0x80) != 0,
            x := x, c := x, n := And(8, rr, 0x80) != 0, z := f.z && rr == 0))
  }

  /** `sbcd`. */
  function Sbcd(model: Operands.Model, d: Byte, s: Byte, f: Ccr): (Byte, Ccr) {
    var dd := (d - s - Carry(f)) % 256;
    var bc := And88(Or(8, And(8, Not(8, d), s), And(8, Or(8, Not(8, d), s), dd)));
    var rr := (dd - bc + bc / 4) % 256;
    var x := And(8, Or(8, bc, And(8, Not(8, dd), rr)), 0x80) != 0;
    (rr, f.(v := model.M68000? && And(8, And(8, dd, Not(8, rr)), 0x80) != 0,
            x := x, c := x, n := And(8, rr, 0x80) != 0, z := f.z && rr == 0))
  }

  /** Two decimal digits. */
  predicate Packed(b: int) {
    0 <= b < 0xA0 && b % 16 < 10
  }

  function Digits(b: nat): nat {
    b / 16 * 10 + b % 16
  }

  // ---- masks ------------------------------------------------------------

  function Pick(b: bool, v: nat): nat { if b then v else 0 }

  /** An and with 8 times a mask. */
  lemma SkipThree(w: nat, f: (bool, bool) -> bool, v: nat, m: nat)
    requires w >= 3 && !f(true, false) && !f(false, false)
    ensures Bitwise(w, f, v, 8 * m) == 8 * Bitwise(w - 3, f, v / 8, m)
  {
    assert Bitwise(w, f, v, 8 * m) == 2 * Bitwise(w - 1, f, v / 2, 4 * m);
    assert Bitwise(w - 1, f, v / 2, 4 * m) == 2 * Bitwise(w - 2, f, v / 2 / 2, 2 * m);
    assert Bitwise(w - 2, f, v / 2 / 2, 2 * m) == 2 * Bitwise(w - 3, f, v / 2 / 2 / 2, m);
  }

  lemma MaskBits(f: (bool, bool) -> bool, v: nat)
    requires forall x :: !f(x, false) && f(x, true) == x
    ensures Bitwise(8, f, v, 0x88) == Pick(High(v), 0x80) + Pick(Nibble(v), 8)
    ensures Bitwise(8, f, v, 0x80) == Pick(High(v), 0x80)
  {
    hide Bitwise;
    assert !f(true, false) && !f(false, false);
    SkipThree(8, f, v, 0x11);
    SkipThree(8, f, v, 0x10);
    BitwiseUnit(5, f, v / 8, 0x11);
    BitwiseUnit(5, f, v / 8, 0x10);
    SkipThree(4, f, v / 8 / 2, 1);
    BitwiseUnit(1, f, v / 8 / 2 / 8, 1);
    BitwiseNone(f, v / 8 / 2 / 8 / 2);
    ByDivision(v);
  }

  lemma BitwiseUnit(w: nat, f: (bool, bool) -> bool, a: nat, b: nat)
    requires w > 0
    ensures Bitwise(w, f, a, b) == 2 * Bitwise(w - 1, f, a / 2, b / 2) + Pick(f(a % 2 == 1, b % 2 == 1), 1)
  {
  }

  lemma BitwiseNone(f: (bool, bool) -> bool, a: nat)
    ensures Bitwise(0, f, a, 0) == 0
  {
  }

  /** Bits 3 and 7 of a number. */
  predicate Nibble(v: int) { v % 16 >= 8 }
  predicate High(v: int) { v % 256 >= 128 }

  lemma ByDivision(v: nat)
    ensures Nibble(v) <==> v / 8 % 2 == 1
    ensures High(v) <==> v / 128 % 2 == 1
    ensures v / 128 == v / 8 / 2 / 8
  {
    hide Nibble, High;
    HighByDivision(v);
    NibbleByDivision(v);
    HalveFirst(v / 8, 8);
    EightThenSixteen(v);
  }

  lemma NibbleByDivision(v: nat)
    ensures Nibble(v) <==> v / 8 % 2 == 1
  {
  }

  lemma EightThenSixteen(v: nat)
    ensures v / 8 / 16 == v / 128
  {
    var q, r := v / 128, v % 128;
    assert v == 128 * q + r;
    assert v / 8 == 16 * q + r / 8;
  }

  lemma HighByDivision(v: nat)
    ensures High(v) <==> v / 128 % 2 == 1
  {
  }

  /** The masks 0x88 and 0x80 keep bits 3 and 7. */
  lemma MaskValue(v: nat)
    ensures And88(v) == Pick(High(v), 0x80) + Pick(Nibble(v), 8)
    ensures And(8, v, 0x80) == Pick(High(v), 0x80)
  {
    MaskBits((x, y) => x && y, v);
  }

  /** Bits 3, 4, 7 and 8 by division. */
  lemma NamedBits(v: nat)
    ensures BitAt(v, 3) <==> Nibble(v)
    ensures BitAt(v, 4) <==> v / 16 % 2 == 1
    ensures BitAt(v, 7) <==> High(v)
    ensures BitAt(v, 8) <==> v / 256 % 2 == 1
  {
    SmallPowers();
    ByDivision(v);
  }

  /** Adding 0x66 carries out of the low digit from 10 on and out of the byte from 0x9A on. */
  lemma DecimalCarries(ss: Byte)
    ensures (ss + 0x66) / 16 % 2 != ss / 16 % 2 <==> ss % 16 >= 10
    ensures (ss + 0x66) / 256 % 2 == 1 <==> ss >= 0x9A
    ensures ss / 256 == 0
  {
    var h, l := ss / 16, ss % 16;
    assert ss == 16 * h + l;
    if l >= 10 {
      assert ss + 0x66 == 16 * (h + 7) + (l - 10);
      assert (ss + 0x66) / 16 == h + 7;
    } else {
      assert ss + 0x66 == 16 * (h + 6) + (l + 6);
      assert (ss + 0x66) / 16 == h + 6;
    }
  }

  // ---- what the corrections are -----------------------------------------

  /** The decimal correction term of ABCD. */
  lemma AbcdCorrection(ss: Byte, bc: nat)
    ensures And88(Or(8, bc, Xor(9, ss + 0x66, ss) / 2))
         == Pick(High(bc) || ss >= 0x9A, 0x80) + Pick(Nibble(bc) || ss % 16 >= 10, 8)
  {
    hide And, Or, Xor, Pow2, And88, BitAt, Nibble, High;
    DecimalCarries(ss);
    var x := Xor(9, ss + 0x66, ss);
    var dc := x / 2;
    MaskValue(Or(8, bc, dc));
    BitsOf(8, bc, dc, 3);
    BitsOf(8, bc, dc, 7);
    BitStep(x, 4);
    BitStep(x, 8);
    BitsOf(9, ss + 0x66, ss, 4);
    BitsOf(9, ss + 0x66, ss, 8);
    NamedBits(bc);
    NamedBits(Or(8, bc, dc));
    NamedBits(ss);
    NamedBits(ss + 0x66);
  }

  /** Carry and borrow at a boundary 2p, from the three bits of weight p. */
  lemma AtBoundary(p: nat, d: nat, s: nat, x: nat, sum: nat, diff: nat)
    requires d < 2 * p && s < 2 * p && x <= 1 && sum < 2 * p && diff < 2 * p
    requires sum == d + s + x || sum == d + s + x - 2 * p
    requires diff == d - s - x || diff == d - s - x + 2 * p
    ensures d + s + x >= 2 * p <==> (d >= p && s >= p) || ((d >= p || s >= p) && sum < p)
    ensures d < s + x <==> (d < p && s >= p) || ((d < p || s >= p) && diff >= p)
  {
  }

  lemma SumBits(d: Byte, s: Byte, x: nat)
    requires x <= 1
    ensures var r := (d + s + x) % 256;
            && (d + s + x >= 256 <==> (High(d) && High(s)) || ((High(d) || High(s)) && !High(r)))
            && (d % 16 + s % 16 + x >= 16
                <==> (Nibble(d) && Nibble(s)) || ((Nibble(d) || Nibble(s)) && !Nibble(r)))
    ensures var r := (d - s - x) % 256;
            && (d < s + x <==> (!High(d) && High(s)) || ((!High(d) || High(s)) && High(r)))
            && (d % 16 < s % 16 + x
                <==> (!Nibble(d) && Nibble(s)) || ((!Nibble(d) || Nibble(s)) && Nibble(r)))
  {
    hide High, Nibble;
    var (sum, diff) := ((d + s + x) % 256, (d - s - x) % 256);
    var (dl, sl) := (d % 16, s % 16);
    ByteSum(d + s + x);
    ByteSum(d - s - x);
    AtBoundary(128, d, s, x, sum, diff);
    LowDigits(d, s, x);
    NibbleRange(dl + sl + x);
    NibbleRange(dl - sl - x);
    AtBoundary(8, dl, sl, x, sum % 16, diff % 16);
    ByteBits(d);
    ByteBits(s);
    ByteBits(sum);
    ByteBits(diff);
  }

  lemma ByteBits(v: Byte)
    ensures High(v) <==> v >= 128
    ensures Nibble(v) <==> v % 16 >= 8
  {
  }

  lemma LowDigits(d: int, s: int, x: int)
    ensures (d + s + x) % 256 % 16 == (d % 16 + s % 16 + x) % 16
    ensures (d - s - x) % 256 % 16 == (d % 16 - s % 16 - x) % 16
  {
    LowPart(d + s + x);
    LowPart(d - s - x);
    LowShift(d % 16 + s % 16 + x, d / 16 + s / 16);
    LowShift(d % 16 - s % 16 - x, d / 16 - s / 16);
    assert d == 16 * (d / 16) + d % 16 && s == 16 * (s / 16) + s % 16;
  }

  lemma LowShift(v: int, k: int)
    ensures (v + 16 * k) % 16 == v % 16
  {
  }

  lemma ByteSum(v: int)
    requires -256 <= v < 512
    ensures v % 256 == if v < 0 then v + 256 else if v >= 256 then v - 256 else v
  {
  }

  lemma NibbleRange(v: int)
    requires -16 <= v < 32
    ensures v % 16 == if v < 0 then v + 16 else if v >= 16 then v - 16 else v
  {
  }

  lemma LowPart(v: int)
    ensures v % 256 % 16 == v % 16
  {
  }

  /** Carries out of bits 3 and 7 of a binary sum. */
  lemma AddCarries(d: Byte, s: Byte, x: nat)
    requires x <= 1
    ensures var ss := (d + s + x) % 256;
            var bc := Or(8, And(8, d, s), And(8, Or(8, d, s), Not(8, ss)));
            && (High(bc) <==> d + s + x >= 256)
            && (Nibble(bc) <==> d % 16 + s % 16 + x >= 16)
  {
    hide And, Or, Not, Pow2, BitAt, Nibble, High;
    var ss := (d + s + x) % 256;
    SumBits(d, s, x);
    var bc := Or(8, And(8, d, s), And(8, Or(8, d, s), Not(8, ss)));
    CarryBit(d, s, ss, 3);
    CarryBit(d, s, ss, 7);
    NamedBits(bc);
    NamedBits(d);
    NamedBits(s);
    NamedBits(ss);
  }

  lemma CarryBit(d: nat, s: nat, r: nat, i: nat)
    requires i < 8
    ensures BitAt(Or(8, And(8, d, s), And(8, Or(8, d, s), Not(8, r))), i)
        <==> (BitAt(d, i) && BitAt(s, i)) || ((BitAt(d, i) || BitAt(s, i)) && !BitAt(r, i))
    ensures BitAt(Or(8, And(8, Not(8, d), s), And(8, Or(8, Not(8, d), s), r)), i)
        <==> (!BitAt(d, i) && BitAt(s, i)) || ((!BitAt(d, i) || BitAt(s, i)) && BitAt(r, i))
  {
    hide And, Or, Not, Pow2, BitAt;
    BitsOf(8, d, s, i);
    BitsOf(8, r, 0, i);
    BitsOf(8, Or(8, d, s), Not(8, r), i);
    BitsOf(8, And(8, d, s), And(8, Or(8, d, s), Not(8, r)), i);
    BitsOf(8, Not(8, d), s, i);
    BitsOf(8, Or(8, Not(8, d), s), r, i);
    BitsOf(8, And(8, Not(8, d), s), And(8, Or(8, Not(8, d), s), r), i);
  }

  /** Borrows into bits 3 and 7 of a binary difference. */
  lemma SubBorrows(d: Byte, s: Byte, x: nat)
    requires x <= 1
    ensures var dd := (d - s - x) % 256;
            var bc := Or(8, And(8, Not(8, d), s), And(8, Or(8, Not(8, d), s), dd));
            && (High(bc) <==> d < s + x)
            && (Nibble(bc) <==> d % 16 < s % 16 + x)
  {
    hide And, Or, Not, Pow2, BitAt, Nibble, High;
    var dd := (d - s - x) % 256;
    SumBits(d, s, x);
    var bc := Or(8, And(8, Not(8, d), s), And(8, Or(8, Not(8, d), s), dd));
    CarryBit(d, s, dd, 3);
    CarryBit(d, s, dd, 7);
    NamedBits(bc);
    NamedBits(d);
    NamedBits(s);
    NamedBits(dd);
  }

  /** The carry formulas (bc | (p & ~q)) & 0x80 and its SBCD form. */
  lemma ExtendFormula(bc: nat, p: nat, q: nat)
    ensures And(8, Or(8, bc, And(8, p, Not(8, q))), 0x80) != 0 <==> High(bc) || (High(p) && !High(q))
    ensures And(8, Or(8, bc, And(8, Not(8, q), p)), 0x80) != 0 <==> High(bc) || (High(p) && !High(q))
  {
    hide And, Or, Not, Pow2, BitAt;
    MaskValue(Or(8, bc, And(8, p, Not(8, q))));
    MaskValue(Or(8, bc, And(8, Not(8, q), p)));
    BitsOf(8, q, 0, 7);
    BitsOf(8, p, Not(8, q), 7);
    BitsOf(8, Not(8, q), p, 7);
    BitsOf(8, bc, And(8, p, Not(8, q)), 7);
    BitsOf(8, bc, And(8, Not(8, q), p), 7);
    NamedBits(bc);
    NamedBits(p);
    NamedBits(q);
    NamedBits(Or(8, bc, And(8, p, Not(8, q))));
    NamedBits(Or(8, bc, And(8, Not(8, q), p)));
  }

  lemma SignBit(r: Byte)
    ensures And(8, r, 0x80) != 0 <==> r >= 0x80
  {
    hide And;
    MaskValue(r);
  }

  // ---- one decimal step -------------------------------------------------

  function DecimalStep(k: Kind, model: Operands.Model, d: Byte, s: Byte, f: Ccr): (Byte, Ccr) {
    if k.Plus? then Abcd(model, d, s, f) else Sbcd(model, d, s, f)
  }

  /** One step adds (subtracts) two decimal digits with the carry (borrow) in X. */
  lemma DecimalDigits(k: Kind, model: Operands.Model, d: Byte, s: Byte, f: Ccr)
    requires Packed(d) && Packed(s)
    ensures var (r, g) := DecimalStep(k, model, d, s, f);
            && Packed(r)
            && Digits(r) + Combine(k, 0, Carry(g) * 100) == Combine(k, Digits(d), Digits(s) + Carry(f))
            && g.c == g.x && g.z == (f.z && r == 0)
  {
    if k.Plus? {
      AbcdDigits(model, d, s, f);
    } else {
      SbcdDigits(model, d, s, f);
    }
  }

  /** N is bit 7 of the result, and the 68030 clears V, packed operands or not. */
  lemma DecimalFlags(k: Kind, model: Operands.Model, d: Byte, s: Byte, f: Ccr)
    ensures var (r, g) := DecimalStep(k, model, d, s, f);
            g.n == (r >= 0x80) && (model.M68030? ==> !g.v) && g.c == g.x && g.z == (f.z && r == 0)
  {
    hide And, Or, Xor, Not, And88;
    SignBit(DecimalStep(k, model, d, s, f).0);
  }

  /** With all ones for its source, as a faulting read gives, a decimal step never keeps the byte. */
  lemma DecimalAllOnes(k: Kind, model: Operands.Model, d: Byte, f: Ccr)
    ensures DecimalStep(k, model, d, 0xFF, f).0 != d
  {
    if k.Plus? {
      AbcdAllOnes(model, d, f);
    } else {
      SbcdAllOnes(model, d, f);
    }
  }

  lemma AbcdAllOnes(model: Operands.Model, d: Byte, f: Ccr)
    ensures Abcd(model, d, 0xFF, f).0 == (d + 0xFF + Carry(f) + 0x66) % 256 != d
  {
    hide And, Or, Xor, Not, And88, High, Nibble;
    var ss := (d + 0xFF + Carry(f)) % 256;
    var bc := Or(8, And(8, d, 0xFF), And(8, Or(8, d, 0xFF), Not(8, ss)));
    AddCarries(d, 0xFF, Carry(f));
    AbcdCorrection(ss, bc);
    ByteSum(d + 0xFF + Carry(f));
    AllOnesDigits(d, Carry(f));
  }

  /** Both digits of such a sum are corrected. */
  lemma AllOnesDigits(d: Byte, x: nat)
    requires x <= 1
    ensures var ss := (d + 0xFF + x) % 256;
            && (d + 0xFF + x >= 256 || ss >= 0x9A) && (d % 16 + 15 + x >= 16 || ss % 16 >= 10)
            && (ss + 0x88 - 0x22) % 256 == (d + 0xFF + x + 0x66) % 256 != d
  {
    ByteSum(d + 0xFF + x);
    var ss := (d + 0xFF + x) % 256;
    ByteSum(ss + 0x66);
    if d % 16 == 0 && x == 0 {
      LowDigits(d, 0xFF, 0);
    }
  }

  lemma SbcdAllOnes(model: Operands.Model, d: Byte, f: Ccr)
    ensures Sbcd(model, d, 0xFF, f).0 != d
  {
    hide And, Or, Xor, Not, And88, High, Nibble;
    var dd := (d - 0xFF - Carry(f)) % 256;
    var bits := Or(8, And(8, Not(8, d), 0xFF), And(8, Or(8, Not(8, d), 0xFF), dd));
    SubBorrows(d, 0xFF, Carry(f));
    MaskValue(bits);
    ByteSum(d - 0xFF - Carry(f));
    var bc := And88(bits);
    ByteSum(dd - bc + bc / 4);
  }

  lemma AbcdDigits(model: Operands.Model, d: Byte, s: Byte, f: Ccr)
    requires Packed(d) && Packed(s)
    ensures var (r, g) := Abcd(model, d, s, f);
            && Packed(r) && Digits(r) + Carry(g) * 100 == Digits(d) + Digits(s) + Carry(f)
            && g.c == g.x && g.z == (f.z && r == 0)
  {
    hide And, Or, Xor, Not, And88, Packed, Digits, High;
    Unpack(d);
    Unpack(s);
    var ss := (d + s + Carry(f)) % 256;
    var bc := Or(8, And(8, d, s), And(8, Or(8, d, s), Not(8, ss)));
    AddCarries(d, s, Carry(f));
    AbcdCorrection(ss, bc);
    assert d + s + Carry(f) == 16 * (d / 16 + s / 16) + (d % 16 + s % 16 + Carry(f));
    var r := Abcd(model, d, s, f).0;
    ExtendFormula(bc, ss, r);
    AddDigits(d / 16 + s / 16, d % 16 + s % 16 + Carry(f));
  }

  lemma Unpack(d: Byte)
    requires Packed(d)
    ensures d / 16 < 10 && d % 16 < 10 && d == 16 * (d / 16) + d % 16
    ensures Digits(d) == 10 * (d / 16) + d % 16
  {
  }

  lemma DigitsOf(h: nat, l: nat)
    requires h < 10 && l < 10
    ensures Packed(16 * h + l) && Digits(16 * h + l) == 10 * h + l
  {
    assert (16 * h + l) / 16 == h;
  }

  lemma LowNibble(h: int, l: nat)
    requires l < 26
    ensures (16 * h + l) % 16 == l % 16
    ensures l >= 10 <==> l >= 16 || (16 * h + l) % 16 >= 10
  {
  }

  /** Digit arithmetic behind the addition: low digits sum to l, high digits to h. */
  lemma AddDigits(h: nat, l: nat)
    requires h <= 18 && l <= 19
    ensures var t := 16 * h + l;
            var ss := t % 256;
            var corr := Pick(t >= 256 || ss >= 0x9A, 0x80) + Pick(l >= 16 || ss % 16 >= 10, 8);
            var r := (ss + corr - corr / 4) % 256;
            var out := t >= 256 || (High(ss) && !High(r));
            && Packed(r)
            && Digits(r) + Pick(out, 100) == 10 * h + l
  {
    hide Packed, Digits, High;
    var t := 16 * h + l;
    var ss := t % 256;
    LowNibble(h, l);
    LowPart(t);
    ByteSum(t);
    var low, high := l >= 10, 10 * h + l >= 100;
    assert high <==> t >= 256 || ss >= 0x9A;
    var h', l' := h + Pick(low, 1) - Pick(high, 10), l - Pick(low, 10);
    assert 0 <= h' < 10;
    DigitsOf(h', l');
    var u := ss + Pick(high, 0x60) + Pick(low, 6);
    ByteSum(u);
    assert u % 256 == 16 * h' + l';
    ByteBits(u % 256);
    ByteBits(ss);
  }

  lemma SbcdDigits(model: Operands.Model, d: Byte, s: Byte, f: Ccr)
    requires Packed(d) && Packed(s)
    ensures var (r, g) := Sbcd(model, d, s, f);
            && Packed(r) && Digits(r) - Carry(g) * 100 == Digits(d) - Digits(s) - Carry(f)
            && g.c == g.x && g.z == (f.z && r == 0)
  {
    hide And, Or, Xor, Not, And88, Packed, Digits, High, Nibble;
    Unpack(d);
    Unpack(s);
    var dd := (d - s - Carry(f)) % 256;
    var bits := Or(8, And(8, Not(8, d), s), And(8, Or(8, Not(8, d), s), dd));
    SubBorrows(d, s, Carry(f));
    MaskValue(bits);
    NamedBits(bits);
    assert d - s - Carry(f) == 16 * (d / 16 - s / 16) + (d % 16 - s % 16 - Carry(f));
    var r := Sbcd(model, d, s, f).0;
    ExtendFormula(And88(bits), r, dd);
    SubDigits(d / 16 - s / 16, d % 16 - s % 16 - Carry(f));
  }

  /** Digit arithmetic behind the subtraction: digit differences l and h. */
  lemma SubDigits(h: int, l: int)
    requires -9 <= h <= 9 && -10 <= l <= 9
    ensures var t := 16 * h + l;
            var dd := t % 256;
            var bc := Pick(t < 0, 0x80) + Pick(l < 0, 8);
            var r := (dd - bc + bc / 4) % 256;
            var out := High(bc) || (High(r) && !High(dd));
            && Packed(r)
            && Digits(r) - Pick(out, 100) == 10 * h + l
  {
    hide Packed, Digits, High;
    var t := 16 * h + l;
    var dd := t % 256;
    var h', l' := h - Pick(l < 0, 1) + Pick(t < 0, 10), l + Pick(l < 0, 10);
    assert 0 <= h' < 10;
    DigitsOf(h', l');
    ByteSum(t);
    var bc := Pick(t < 0, 0x80) + Pick(l < 0, 8);
    var u := dd - Pick(t < 0, 0x60) - Pick(l < 0, 6);
    assert u == dd - bc + bc / 4;
    ByteSum(u);
    assert u % 256 == 16 * h' + l';
    ByteBits(bc);
    ByteBits(u % 256);
    ByteBits(dd);
  }
}
