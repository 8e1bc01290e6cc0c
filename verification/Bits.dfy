/**
Bits of natural numbers: what shifts, masks and bitwise operators do to each
one, and that the bits determine the number.
*/
module Bits {
  import opened Words
  import opened Arithmetic

  /** Bit i, counted from the least significant. */
  predicate BitAt(v: nat, i: nat) {
    v / Pow2(i) % 2 == 1
  }

  lemma BitStep(v: nat, i: nat)
    ensures BitAt(v, 0) <==> v % 2 == 1
    ensures i > 0 ==> (BitAt(v, i) <==> BitAt(v / 2, i - 1))
  {
    if i > 0 {
      HalveFirst(v, Pow2(i - 1));
    }
  }

  lemma HalveFirst(v: nat, p: nat)
    requires p > 0
    ensures v / (2 * p) == v / 2 / p
  {
    var q, r := v / 2 / p, v / 2 % p;
    assert v / 2 == p * q + r;
    assert v == 2 * p * q + (2 * r + v % 2);
    QuotientIs(v, 2 * p, q, 2 * r + v % 2);
  }

  /** Every bit of a bitwise result. */
  lemma {:induction false} BitwiseBit(w: nat, f: (bool, bool) -> bool, a: nat, b: nat, i: nat)
    requires i < w
    ensures BitAt(Bitwise(w, f, a, b), i) == f(BitAt(a, i), BitAt(b, i))
  {
    hide BitAt;
    var v, t := Bitwise(w, f, a, b), Bitwise(w - 1, f, a / 2, b / 2);
    DoubleAndAdd(t, if f(a % 2 == 1, b % 2 == 1) then 1 else 0);
    BitStep(a, i);
    BitStep(b, i);
    BitStep(v, i);
    if i > 0 {
      BitwiseBit(w - 1, f, a / 2, b / 2, i - 1);
    }
  }

  lemma DoubleAndAdd(t: nat, e: nat)
    requires e < 2
    ensures (2 * t + e) / 2 == t && (2 * t + e) % 2 == e
  {
  }

  lemma BitsOf(w: nat, a: nat, b: nat, i: nat)
    requires i < w
    ensures BitAt(And(w, a, b), i) == (BitAt(a, i) && BitAt(b, i))
    ensures BitAt(Or(w, a, b), i) == (BitAt(a, i) || BitAt(b, i))
    ensures BitAt(Xor(w, a, b), i) == (BitAt(a, i) != BitAt(b, i))
    ensures BitAt(Not(w, a), i) == !BitAt(a, i)
  {
    BitwiseBit(w, (x, y) => x && y, a, b, i);
    BitwiseBit(w, (x, y) => x || y, a, b, i);
    BitwiseBit(w, (x, y) => x != y, a, b, i);
    BitwiseBit(w, (x, y) => !x, a, 0, i);
  }

  lemma SmallPowers()
    ensures Pow2(0) == 1 && Pow2(1) == 2 && Pow2(2) == 4 && Pow2(3) == 8 && Pow2(4) == 16
    ensures Pow2(5) == 32 && Pow2(6) == 64 && Pow2(7) == 128 && Pow2(8) == 256 && Pow2(9) == 512
  {
    assert Pow2(4) == 16;
  }

  lemma {:induction false} PowSum(m: nat, n: nat)
    ensures Pow2(m + n) == Pow2(m) * Pow2(n)
  {
    if n > 0 {
      PowSum(m, n - 1);
    }
  }

  lemma {:induction false} BitwiseRange(w: nat, f: (bool, bool) -> bool, a: nat, b: nat)
    ensures Bitwise(w, f, a, b) < Pow2(w)
  {
    if w > 0 {
      BitwiseRange(w - 1, f, a / 2, b / 2);
    }
  }

  lemma RangesOf(w: nat, a: nat, b: nat)
    ensures IsWord(w, And(w, a, b)) && IsWord(w, Or(w, a, b)) && IsWord(w, Xor(w, a, b)) && IsWord(w, Not(w, a))
  {
    BitwiseRange(w, (x, y) => x != y, a, b);
    BitwiseRange(w, (x, y) => x && y, a, b);
    BitwiseRange(w, (x, y) => x || y, a, b);
    BitwiseRange(w, (x, y) => !x, a, 0);
  }

  /** Bits of x * 2^k + y with y below 2^k. */
  lemma {:induction false} JoinBit(x: nat, k: nat, y: nat, i: nat)
    requires y < Pow2(k)
    ensures BitAt(x * Pow2(k) + y, i) == if i < k then BitAt(y, i) else BitAt(x, i - k)
  {
    hide BitAt;
    if k > 0 {
      var v := x * Pow2(k) + y;
      HalfJoin(x, Pow2(k - 1), y);
      assert v / 2 == x * Pow2(k - 1) + y / 2 && v % 2 == y % 2;
      BitStep(v, i);
      BitStep(y, i);
      if i > 0 {
        JoinBit(x, k - 1, y / 2, i - 1);
      }
    } else {
      assert x * Pow2(0) + y == x;
    }
  }

  lemma HalfJoin(x: nat, p: nat, y: nat)
    ensures (x * (2 * p) + y) / 2 == x * p + y / 2 && (x * (2 * p) + y) % 2 == y % 2
  {
    assert x * (2 * p) == 2 * (x * p);
  }

  lemma ShlBit(x: nat, k: nat, i: nat)
    ensures BitAt(x * Pow2(k), i) == (i >= k && BitAt(x, i - k))
  {
    JoinBit(x, k, 0, i);
    ZeroBit(i);
  }

  lemma {:induction false} ZeroBit(i: nat)
    ensures !BitAt(0, i)
  {
  }

  function Shr(v: nat, k: nat): nat {
    DivMod(v, Pow2(k)); v / Pow2(k)
  }

  lemma ShrBit(x: nat, k: nat, i: nat)
    ensures BitAt(Shr(x, k), i) == BitAt(x, i + k)
  {
    hide BitAt, Pow2;
    DivMod(x, Pow2(k));
    var q, r := x / Pow2(k), x % Pow2(k);
    JoinBit(q, k, r, i + k);
  }

  /** Truncation to k bits. */
  lemma LowBit(x: nat, k: nat, i: nat)
    ensures BitAt(x % Pow2(k), i) == (i < k && BitAt(x, i))
  {
    hide BitAt, Pow2;
    DivMod(x, Pow2(k));
    var q, r := x / Pow2(k), x % Pow2(k);
    JoinBit(q, k, r, i);
    SmallBit(r, k, i);
  }

  lemma SmallBit(x: nat, k: nat, i: nat)
    requires x < Pow2(k)
    ensures BitAt(x, i) ==> i < k
  {
    hide BitAt, Pow2;
    JoinBit(0, k, x, i);
    if i >= k {
      ZeroBit(i - k);
    }
  }

  lemma DivMod(x: nat, p: nat)
    requires p > 0
    ensures x == x / p * p + x % p && 0 <= x % p < p && 0 <= x / p
  {
  }

  lemma {:induction false} OnesBit(k: nat, i: nat)
    ensures BitAt(Pow2(k) - 1, i) == (i < k)
  {
    hide BitAt;
    if k == 0 {
      ZeroBit(i);
    } else {
      BitStep(Pow2(k) - 1, i);
      assert (Pow2(k) - 1) / 2 == Pow2(k - 1) - 1 && (Pow2(k) - 1) % 2 == 1;
      if i > 0 {
        OnesBit(k - 1, i - 1);
      }
    }
  }

  /** Numbers below 2^w with the same bits are equal. */
  lemma {:induction false} SameBits(w: nat, a: nat, b: nat)
    requires a < Pow2(w) && b < Pow2(w)
    requires forall i :: 0 <= i < w ==> BitAt(a, i) == BitAt(b, i)
    ensures a == b
  {
    hide BitAt;
    if w > 0 {
      assert BitAt(a, 0) == BitAt(b, 0);
      BitStep(a, 0);
      BitStep(b, 0);
      forall i | 0 <= i < w - 1 ensures BitAt(a / 2, i) == BitAt(b / 2, i) {
        assert BitAt(a, i + 1) == BitAt(b, i + 1);
        BitStep(a, i + 1);
        BitStep(b, i + 1);
      }
      SameBits(w - 1, a / 2, b / 2);
    }
  }
}
