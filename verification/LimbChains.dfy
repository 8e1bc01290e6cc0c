/**
Chains of ADDX, SUBX, ABCD and SBCD through X (src/core/cpu/cpu_ops.h,
src/core/cpu/cpu_internal.h) on numbers given as limbs: multi-precision binary
and packed-decimal addition and subtraction.
*/
module LimbChains {
  import opened Words
  import opened Operands
  import opened Arithmetic
  import opened Bits
  import opened Bcd

  // ---- chains -----------------------------------------------------------

  predicate Limbs(w: nat, a: seq<nat>) {
    forall i :: 0 <= i < |a| ==> IsWord(w, a[i])
  }

  /** Limbs, least significant first, as a number. */
  function Value(w: nat, a: seq<nat>): nat {
    if a == [] then 0 else a[0] + Pow2(w) * Value(w, a[1..])
  }

  function SignedValue(w: nat, a: seq<nat>): int
    requires w > 0 && a != []
  {
    if |a| == 1 then Signed(w, a[0]) else a[0] + Pow2(w) * SignedValue(w, a[1..])
  }

  /** 2^(w*k). */
  function Radix(w: nat, k: nat): nat {
    if k == 0 then 1 else Pow2(w) * Radix(w, k - 1)
  }

  /** The chained operations: ADDX/SUBX at any width, ABCD/SBCD on bytes. */
  datatype Op = Binary(kind: Kind) | Decimal(kind: Kind, model: Model)

  predicate Suits(op: Op, w: nat) {
    w > 0 && (op.Decimal? ==> w == 8)
  }

  function OneLimb(op: Op, w: nat, d: nat, s: nat, f: Ccr): (r: (nat, Ccr))
    requires Suits(op, w) && IsWord(w, d) && IsWord(w, s)
    ensures IsWord(w, r.0)
  {
    if op.Binary? then ExtendedStep(op.kind, w, d, s, f); Extended(op.kind, w, d, s, f)
    else SmallPowers(); DecimalStep(op.kind, op.model, d, s, f)
  }

  function Chain(op: Op, w: nat, a: seq<nat>, b: seq<nat>, f: Ccr): (r: (seq<nat>, Ccr))
    requires Suits(op, w) && |a| == |b| && Limbs(w, a) && Limbs(w, b)
    ensures |r.0| == |a| && Limbs(w, r.0)
    decreases |a|
  {
    if a == [] then ([], f)
    else
      var (r, g) := OneLimb(op, w, a[0], b[0], f);
      var (rest, h) := Chain(op, w, a[1..], b[1..], g);
      ([r] + rest, h)
  }

  /** r, with carry or borrow `out` at the radix, is exactly d plus or minus s and x. */
  predicate Exact(k: Kind, radix: nat, r: nat, out: nat, d: nat, s: nat, x: nat) {
    r + Combine(k, 0, out * radix) == Combine(k, d, s + x)
  }

  lemma Distribute(k: Kind, p: int, x: int, y: int, z: int)
    ensures p * Combine(k, x, y + z) == Combine(k, p * x, p * y + p * z)
  {
  }

  /**
  A chain of ADDX (SUBX) steps adds (subtracts) whole numbers: the limbs of the
  result and the final X give the exact sum (difference), and Z reports whether
  every limb is zero.
  */
  lemma {:induction false} ChainValue(k: Kind, w: nat, a: seq<nat>, b: seq<nat>, f: Ccr)
    requires w > 0 && |a| == |b| && Limbs(w, a) && Limbs(w, b)
    ensures var (r, g) := Chain(Binary(k), w, a, b, f);
            && Exact(k, Radix(w, |a|), Value(w, r), Carry(g), Value(w, a), Value(w, b), Carry(f))
            && (g.z <==> f.z && Value(w, r) == 0)
    decreases |a|
  {
    hide Extended, Combine, Pow2, Radix, Value;
    ValueSplit(w, a);
    ValueSplit(w, b);
    ValueSplit(w, Chain(Binary(k), w, a, b, f).0);
    RadixSplit(w, |a|);
    if a == [] {
      NoLimbs(k, Carry(f));
    } else {
      var p := Pow2(w);
      var (r0, g0) := Extended(k, w, a[0], b[0], f);
      ExtendedStep(k, w, a[0], b[0], f);
      ChainValue(k, w, a[1..], b[1..], g0);
      var (rest, g) := Chain(Binary(k), w, a[1..], b[1..], g0);
      assert ([r0] + rest)[1..] == rest;
      var (va, vb, vr, x) := (Value(w, a[1..]), Value(w, b[1..]), Value(w, rest), Carry(g) * Radix(w, |a| - 1));
      ChainAlgebra(k, p, r0, a[0], b[0], Carry(f), Carry(g0), vr, va, vb, x);
      CarryScale(w, Carry(g), |a|);
      ZeroSum(p, r0, vr);
    }
  }

  lemma ValueSplit(w: nat, a: seq<nat>)
    ensures a == [] ==> Value(w, a) == 0
    ensures a != [] ==> Value(w, a) == a[0] + Pow2(w) * Value(w, a[1..])
  {
  }

  lemma RadixSplit(w: nat, k: nat)
    ensures Radix(w, k) == if k == 0 then 1 else Pow2(w) * Radix(w, k - 1)
  {
  }

  lemma NoLimbs(k: Kind, c: int)
    ensures 0 + Combine(k, 0, c * 1) == Combine(k, 0, 0 + c)
  {
  }

  lemma ZeroSum(p: nat, r: nat, v: nat)
    requires p > 0
    ensures r + p * v == 0 <==> r == 0 && v == 0
  {
    if v > 0 {
      assert p * v > 0;
    }
  }

  /** One limb in front of a shorter sum. */
  lemma ChainAlgebra(k: Kind, p: nat, r: int, d: int, s: int, x: int, c: int, vr: int, va: int, vb: int, out: int)
    requires r + Combine(k, 0, c * p) == Combine(k, d, s + x)
    requires vr + Combine(k, 0, out) == Combine(k, va, vb + c)
    ensures r + p * vr + Combine(k, 0, p * out) == Combine(k, d + p * va, s + p * vb + x)
  {
    assert p * (vr + Combine(k, 0, out)) == p * vr + Combine(k, 0, p * out);
    Distribute(k, p, va, vb, c);
  }

  lemma CarryScale(w: nat, c: nat, n: nat)
    requires n > 0 && c <= 1
    ensures Pow2(w) * (c * Radix(w, n - 1)) == c * Radix(w, n)
  {
  }

  /** V of the last step is signed overflow of the whole number. */
  lemma {:induction false} ChainOverflow(k: Kind, w: nat, a: seq<nat>, b: seq<nat>, f: Ccr)
    requires w > 0 && |a| == |b| > 0 && Limbs(w, a) && Limbs(w, b)
    ensures var (r, g) := Chain(Binary(k), w, a, b, f);
            && (g.v <==> SignedValue(w, r) != Combine(k, SignedValue(w, a), SignedValue(w, b) + Carry(f)))
            && (g.n <==> SignedValue(w, r) < 0)
    decreases |a|
  {
    hide Extended, Pow2, Combine, SignedValue, Signed;
    var p := Pow2(w);
    var (r0, g0) := Extended(k, w, a[0], b[0], f);
    ExtendedStep(k, w, a[0], b[0], f);
    SignedSplit(w, a);
    SignedSplit(w, b);
    SignedSplit(w, Chain(Binary(k), w, a, b, f).0);
    if |a| > 1 {
      ChainOverflow(k, w, a[1..], b[1..], g0);
      var (rest, g) := Chain(Binary(k), w, a[1..], b[1..], g0);
      assert ([r0] + rest)[1..] == rest;
      var (sa, sb, sr) := (SignedValue(w, a[1..]), SignedValue(w, b[1..]), SignedValue(w, rest));
      OverflowAlgebra(k, p, r0, a[0], b[0], Carry(f), Carry(g0), sr, sa, sb);
      SignCarries(p, r0, sr);
    }
  }

  lemma SignedSplit(w: nat, a: seq<nat>)
    requires w > 0 && a != []
    ensures SignedValue(w, a) == if |a| == 1 then Signed(w, a[0]) else a[0] + Pow2(w) * SignedValue(w, a[1..])
  {
  }

  /** A limb in front does not change whether the signed result is exact. */
  lemma OverflowAlgebra(k: Kind, p: nat, r: int, d: int, s: int, x: int, c: int, sr: int, sa: int, sb: int)
    requires p > 0 && r + Combine(k, 0, c * p) == Combine(k, d, s + x)
    ensures r + p * sr != Combine(k, d + p * sa, s + p * sb + x) <==> sr != Combine(k, sa, sb + c)
  {
    Distribute(k, p, sa, sb, c);
    SameProduct(p, sr, Combine(k, sa, sb + c));
  }

  lemma SameProduct(p: nat, x: int, y: int)
    requires p > 0
    ensures p * x == p * y <==> x == y
  {
    if p * x == p * y {
      assert p * (x - y) == 0;
    }
  }

  lemma SignCarries(p: nat, r: nat, x: int)
    requires 0 <= r < p
    ensures r + p * x < 0 <==> x < 0
  {
    if x < 0 {
      assert p * x <= p * -1;
    } else {
      assert p * x >= 0;
    }
  }

  // ---- decimal chains ---------------------------------------------------

  predicate AllPacked(a: seq<nat>) {
    forall i :: 0 <= i < |a| ==> Packed(a[i])
  }

  /** Packed bytes, least significant first, as a decimal number. */
  function DecimalValue(a: seq<nat>): nat {
    if a == [] then 0 else Digits(a[0]) + 100 * DecimalValue(a[1..])
  }

  function Hundreds(k: nat): nat {
    if k == 0 then 1 else 100 * Hundreds(k - 1)
  }

  lemma PackedHead(a: seq<nat>)
    requires a != [] && AllPacked(a)
    ensures Packed(a[0]) && AllPacked(a[1..])
  {
  }

  lemma PackedJoin(r: nat, rest: seq<nat>)
    requires Packed(r) && AllPacked(rest)
    ensures AllPacked([r] + rest)
    ensures DecimalValue([r] + rest) == Digits(r) + 100 * DecimalValue(rest)
  {
    assert ([r] + rest)[1..] == rest;
  }

  lemma DecimalSplit(a: seq<nat>)
    requires a != []
    ensures DecimalValue(a) == Digits(a[0]) + 100 * DecimalValue(a[1..])
  {
  }

  /** A packed byte is zero exactly when its two digits are. */
  lemma ZeroDigits(b: nat)
    requires Packed(b)
    ensures Digits(b) == 0 <==> b == 0
  {
  }

  /**
  A chain of ABCD (SBCD) steps on packed operands adds (subtracts) decimal
  numbers: the result is packed, its digits and the final X give the exact sum
  (difference) around 100^k, and Z reports whether every byte is zero.
  */
  lemma {:induction false} DecimalChainValue(k: Kind, model: Model, a: seq<nat>, b: seq<nat>, f: Ccr)
    requires |a| == |b| && Limbs(8, a) && Limbs(8, b) && AllPacked(a) && AllPacked(b)
    ensures var (r, g) := Chain(Decimal(k, model), 8, a, b, f);
            && AllPacked(r)
            && Exact(k, Hundreds(|a|), DecimalValue(r), Carry(g), DecimalValue(a), DecimalValue(b), Carry(f))
            && (g.z <==> f.z && DecimalValue(r) == 0)
    decreases |a|
  {
    hide DecimalStep, Combine, DecimalValue, Hundreds, Packed, Digits, AllPacked, Pow2;
    HundredsSplit(|a|);
    if a == [] {
      NoDigits();
      NoLimbs(k, Carry(f));
    } else {
      SmallPowers();
      PackedHead(a);
      PackedHead(b);
      DecimalSplit(a);
      DecimalSplit(b);
      var (r0, g0) := DecimalStep(k, model, a[0], b[0], f);
      DecimalDigits(k, model, a[0], b[0], f);
      DecimalChainValue(k, model, a[1..], b[1..], g0);
      var (rest, g) := Chain(Decimal(k, model), 8, a[1..], b[1..], g0);
      PackedJoin(r0, rest);
      ChainAlgebra(k, 100, Digits(r0), Digits(a[0]), Digits(b[0]), Carry(f), Carry(g0),
                   DecimalValue(rest), DecimalValue(a[1..]), DecimalValue(b[1..]), Carry(g) * Hundreds(|a| - 1));
      ZeroDigits(r0);
    }
  }

  lemma NoDigits()
    ensures DecimalValue([]) == 0 && AllPacked([])
  {
  }

  lemma HundredsSplit(n: nat)
    ensures Hundreds(n) == if n == 0 then 1 else 100 * Hundreds(n - 1)
  {
  }
}
