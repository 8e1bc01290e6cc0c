/**
Long multiplication and division of the 68030 (src/core/cpu/cpu_ops.h):
32x32->64 products and 64/32 quotients in register pairs, signed and unsigned.
*/
module MulDiv {
  import opened Words
  import opened Operands
  import System

  type Ccr = System.Ccr

  const B31: nat := 0x8000_0000
  const B63: nat := 0x8000_0000_0000_0000
  const B64: nat := 0x1_0000_0000_0000_0000

  /** A 32-bit register as a number, signed or not. */
  function Num(signed: bool, v: Long): int {
    if signed && v >= B31 then v - B32 else v
  }

  function Wide(h: Long, l: Long): (v: nat)
    ensures v < B64
  {
    h * B32 + l
  }

  /** A register pair as a 64-bit number. */
  function NumPair(signed: bool, h: Long, l: Long): int {
    if signed && Wide(h, l) >= B63 then Wide(h, l) - B64 else Wide(h, l)
  }

  /** Fields of the extension word. */
  function RegLow(ext: nat): (r: nat) ensures r < 8 { ext / 0x1000 % 8 }
  function RegHigh(ext: nat): (r: nat) ensures r < 8 { ext % 8 }
  predicate IsSigned(ext: nat) { Bit(ext, 0x800) }
  predicate Is64(ext: nat) { Bit(ext, 0x400) }

  /** An extension word: register of the low word or quotient on top, the other register at the bottom. */
  lemma ExtensionFields(low: nat, signed: bool, wide: bool, high: nat)
    requires low < 8 && high < 8
    ensures var ext := 0x1000 * low + (if signed then 0x800 else 0) + (if wide then 0x400 else 0) + high;
            RegLow(ext) == low && RegHigh(ext) == high && IsSigned(ext) == signed && Is64(ext) == wide
  {
    var (s, w) := (if signed then 1 else 0, if wide then 1 else 0);
    var ext := 0x1000 * low + 0x800 * s + 0x400 * w + high;
    assert ext / 0x400 == 2 * (2 * low + s) + w && ext / 0x800 == 2 * low + s && ext / 0x1000 == low;
    assert ext == 8 * (0x200 * low + 0x100 * s + 0x80 * w) + high;
  }

  predicate Fits(signed: bool, v: int) {
    if signed then -0x8000_0000 <= v < B31 else 0 <= v < B32
  }

  // ---- multiply ---------------------------------------------------------

  /** MULS.L and MULU.L: the low word is stored before the high one. */
  function MulL(d: Regs, f: Ccr, ext: nat, src: Long): (Regs, Ccr) {
    var (dl, dh, signed) := (RegLow(ext), RegHigh(ext), IsSigned(ext));
    var res := Num(signed, d[dl]) * Num(signed, src);
    var low := d[dl := Wrap(res)];
    if Is64(ext) then
      (low[dh := res % B64 / B32],
       f.(n := if signed then res < 0 else res % B64 >= B63, z := res == 0, v := false, c := false))
    else
      (low, f.(n := low[dl] >= B31, z := low[dl] == 0, v := res != Num(signed, low[dl]), c := false))
  }

  lemma ProductBound(a: int, b: int, m: nat)
    requires 0 <= a + m && a <= m && 0 <= b + m && b <= m
    ensures a * b <= m * m && 0 <= a * b + m * m
  {
    NotNegative(m - a, m + b);
    NotNegative(m + a, m - b);
    NotNegative(m - a, m - b);
    NotNegative(m + a, m + b);
    Expand(a, b, m);
  }

  lemma NotNegative(x: nat, y: nat)
    ensures x * y >= 0
  {
  }

  lemma Expand(a: int, b: int, m: int)
    ensures (m - a) * (m + b) == m * m + m * b - a * m - a * b
    ensures (m + a) * (m - b) == m * m - m * b + a * m - a * b
    ensures (m - a) * (m - b) == m * m - m * b - a * m + a * b
    ensures (m + a) * (m + b) == m * m + m * b + a * m + a * b
  {
  }

  /** Splitting a 64-bit number over a register pair loses nothing. */
  lemma PairOf(signed: bool, v: int)
    requires if signed then -0x8000_0000_0000_0000 <= v < B63 else 0 <= v < B64
    ensures NumPair(signed, v % B64 / B32, Wrap(v)) == v
  {
    var u := v % B64;
    assert u == if v < 0 then v + B64 else v;
    assert Wrap(u) == Wrap(v);
    assert u == u / B32 * B32 + u % B32;
  }

  lemma ProductFits(signed: bool, a: Long, b: Long)
    ensures var v := Num(signed, a) * Num(signed, b);
            if signed then -0x8000_0000_0000_0000 < v < B63 else 0 <= v < B64
  {
    if signed {
      ProductBound(Num(true, a), Num(true, b), B31);
    } else {
      ProductBound(a, b, B32 - 1);
    }
  }

  /**
  The pair holds the exact product; the 32-bit form holds its low word, with V
  exactly when the product does not fit. No other register changes.
  */
  lemma MulLResult(d: Regs, f: Ccr, ext: nat, src: Long)
    ensures var (d', g) := MulL(d, f, ext, src);
            var (dl, dh, signed) := (RegLow(ext), RegHigh(ext), IsSigned(ext));
            var product := Num(signed, d[dl]) * Num(signed, src);
            && (Is64(ext) && dl != dh ==>
                  NumPair(signed, d'[dh], d'[dl]) == product)
            && (Is64(ext) ==>
                  !g.v && (g.z <==> product == 0) && (g.n <==> if signed then product < 0 else product >= B63))
            && (Is64(ext) && dl == dh ==> NumPair(signed, d'[dl], Wrap(product)) == product)
            && (!Is64(ext) ==>
                  && (g.v <==> !Fits(signed, product))
                  && (g.n <==> Num(true, d'[dl]) < 0) && (g.z <==> d'[dl] == 0)
                  && (!g.v ==> Num(signed, d'[dl]) == product && (g.z <==> product == 0)))
            && (forall r :: 0 <= r < 8 && r != dl && (Is64(ext) ==> r != dh) ==> d'[r] == d[r])
            && g.x == f.x && !g.c
  {
    hide Num, NumPair, Fits, RegLow, RegHigh, IsSigned, Is64, Wrap;
    var (dl, dh, signed) := (RegLow(ext), RegHigh(ext), IsSigned(ext));
    ProductFits(signed, d[dl], src);
    var product := Num(signed, d[dl]) * Num(signed, src);
    PairOf(signed, product);
    WordFits(signed, product);
    WordFlags(signed, product);
  }

  lemma WordFlags(signed: bool, v: int)
    ensures Num(true, Wrap(v)) < 0 <==> Wrap(v) >= B31
    ensures Wrap(v) == 0 && v == Num(signed, Wrap(v)) ==> v == 0
    ensures Wrap(0) == 0
    ensures 0 <= v < B64 ==> v % B64 == v
  {
  }

  lemma WordFits(signed: bool, v: int)
    ensures v == Num(signed, Wrap(v)) <==> Fits(signed, v)
  {
  }

  // ---- divide -----------------------------------------------------------

  /** The source language's division, which truncates toward zero. */
  function Quotient(a: int, b: int): int
    requires b != 0
  {
    if b > 0 then (if a >= 0 then a / b else -(-a / b))
    else if a >= 0 then -(a / -b) else -a / -b
  }

  function Remainder(a: int, b: int): int
    requires b != 0
  {
    a - Quotient(a, b) * b
  }

  datatype Division = ByZero(f: Ccr) | Done(d: Regs, f: Ccr)

  function Dividend(d: Regs, ext: nat): int {
    var (dq, dr, signed) := (RegLow(ext), RegHigh(ext), IsSigned(ext));
    if Is64(ext) then NumPair(signed, d[dr], d[dq]) else Num(signed, d[dq])
  }

  /** DIVS.L and DIVU.L. */
  function DivL(d: Regs, f: Ccr, ext: nat, divisor: Long): Division {
    var (dq, dr, signed) := (RegLow(ext), RegHigh(ext), IsSigned(ext));
    var clear := f.(n := false, z := false, v := false, c := false);
    if divisor == 0 then ByZero(clear)
    else
      var a, b := Dividend(d, ext), Num(signed, divisor);
      var q, r := Quotient(a, b), Remainder(a, b);
      if !Fits(signed, q) then Done(d, clear.(v := true, n := true))
      else
        var dq' := d[dq := Wrap(q)];
        Done(if dr != dq then dq'[dr := Wrap(r)] else dq',
             clear.(n := if signed then q < 0 else q >= B31, z := q == 0))
  }

  /** r is what division by b leaves of a: smaller than b, and zero or of a's sign. */
  predicate IsRemainder(a: int, b: int, r: int) {
    -Abs(b) < r < Abs(b) && (r == 0 || (r < 0 <==> a < 0))
  }

  function Abs(v: int): int { if v < 0 then -v else v }

  lemma QuotientExact(a: int, b: int)
    requires b != 0
    ensures a == Quotient(a, b) * b + Remainder(a, b) && IsRemainder(a, b, Remainder(a, b))
  {
    var n, m := Abs(a), Abs(b);
    var k := n / m;
    assert n == k * m + n % m;
    assert Quotient(a, b) == if (a < 0) == (b < 0) then k else -k;
    assert Quotient(a, b) * b == if a < 0 then -(k * m) else k * m;
  }

  /** Quotient and remainder are determined by the division law. */
  lemma QuotientUnique(a: int, b: int, q: int, r: int)
    requires b != 0 && a == q * b + r && IsRemainder(a, b, r)
    ensures q == Quotient(a, b) && r == Remainder(a, b)
  {
    hide Quotient, Remainder;
    QuotientExact(a, b);
    var (q', r') := (Quotient(a, b), Remainder(a, b));
    Factor(q - q', b);
    assert (q - q') * b == r' - r;
  }

  lemma Factor(d: int, b: int)
    ensures d != 0 ==> d * b >= Abs(b) || d * b + Abs(b) <= 0
  {
    if d > 0 && b >= 0 {
      assert (d - 1) * b >= 0;
    } else if d > 0 {
      assert (d - 1) * -b >= 0;
    } else if b >= 0 {
      assert d < 0 ==> (-d - 1) * b >= 0;
    } else {
      assert d < 0 ==> (-d - 1) * -b >= 0;
    }
  }

  /** The one signed division the source language leaves undefined. */
  predicate Overflows(d: Regs, ext: nat, divisor: Long) {
    IsSigned(ext) && Is64(ext) && Dividend(d, ext) == -0x8000_0000_0000_0000 && divisor == B32 - 1
  }

  /**
  V clear means dividend = q * divisor + r in the registers, with the remainder
  smaller than the divisor and of the dividend's sign; V set, which happens
  exactly when the quotient needs more than 32 bits, leaves every register alone.
  */
  lemma DivLResult(d: Regs, f: Ccr, ext: nat, divisor: Long)
    requires divisor != 0 && !Overflows(d, ext, divisor)
    ensures var (dq, dr, signed) := (RegLow(ext), RegHigh(ext), IsSigned(ext));
            var a := if Is64(ext) then NumPair(signed, d[dr], d[dq]) else Num(signed, d[dq]);
            var (b, out) := (Num(signed, divisor), DivL(d, f, ext, divisor));
            && out.Done? && out.f.x == f.x && !out.f.c
            && (out.f.v <==> !exists q: int, r: int :: Fits(signed, q) && a == q * b + r && IsRemainder(a, b, r))
            && (out.f.v ==> out.d == d && out.f.n && !out.f.z)
            && (!out.f.v ==>
                  var q := Num(signed, out.d[dq]);
                  && (out.f.z <==> q == 0) && (out.f.n <==> Num(true, out.d[dq]) < 0)
                  && (exists r: int :: a == q * b + r && IsRemainder(a, b, r))
                  && (dr != dq ==>
                        var r := Num(signed, out.d[dr]);
                        a == q * b + r && IsRemainder(a, b, r))
                  && forall i :: 0 <= i < 8 && i != dq && i != dr ==> out.d[i] == d[i])
  {
    hide Quotient, Remainder;
    var (dq, dr, signed) := (RegLow(ext), RegHigh(ext), IsSigned(ext));
    var (a, b) := (Dividend(d, ext), Num(signed, divisor));
    QuotientExact(a, b);
    var (q0, r0) := (Quotient(a, b), Remainder(a, b));
    forall q: int, r: int | Fits(signed, q) && a == q * b + r && IsRemainder(a, b, r) ensures q == q0 {
      QuotientUnique(a, b, q, r);
    }
    WordFits(signed, q0);
    WordFits(signed, r0);
  }

  // ---- the two together -------------------------------------------------

  /** Multiplying into a pair and dividing by the same number gives the register back. */
  lemma MultiplyThenDivide(d: Regs, f: Ccr, ext: nat, m: Long)
    requires Is64(ext) && RegLow(ext) != RegHigh(ext) && m != 0
    ensures var (d1, g) := MulL(d, f, ext, m);
            var out := DivL(d1, g, ext, m);
            && out.Done? && !out.f.v
            && out.d == d[RegHigh(ext) := 0]
            && !Overflows(d1, ext, m)
  {
    hide Quotient, Remainder, MulL;
    var (dl, dh, signed) := (RegLow(ext), RegHigh(ext), IsSigned(ext));
    var (d1, g) := MulL(d, f, ext, m);
    MulLResult(d, f, ext, m);
    ProductFits(signed, d[dl], m);
    var (x, b) := (Num(signed, d[dl]), Num(signed, m));
    QuotientUnique(x * b, b, x, 0);
    NumWrap(signed, d[dl]);
  }

  lemma NumWrap(signed: bool, v: Long)
    ensures Wrap(Num(signed, v)) == v && Fits(signed, Num(signed, v))
  {
  }
}
