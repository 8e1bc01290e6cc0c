/**
Fixed-width values shared by every component: bytes, 32-bit longs, and the
little-endian integer fields of checkpoint files.
*/
module Words {

  type Byte = b: int | 0 <= b < 256

  const B32: nat := 0x1_0000_0000
  type Long = x: int | 0 <= x < 0x1_0000_0000

  datatype Option<+T> = None | Some(value: T) {
    predicate IsFailure() { None? }
    function PropagateFailure<U>(): Option<U> requires None? { None }
    function Extract(): T requires Some? { value }
  }

  /** Reduction of an unsigned 32-bit computation. */
  function Wrap(x: int): Long {
    x % 0x1_0000_0000
  }

  function Pow256(k: nat): (p: nat)
    ensures p >= 1
  {
    if k == 0 then 1 else 256 * Pow256(k - 1)
  }

  function Pow2(n: nat): (p: nat)
    ensures p >= 1
  {
    if n == 0 then 1 else 2 * Pow2(n - 1)
  }

  /** `memcpy` of a k-byte unsigned host integer (little-endian hosts). */
  function LeBytes(n: nat, k: nat): (s: seq<Byte>)
    ensures |s| == k
  {
    if k == 0 then [] else [n % 256] + LeBytes(n / 256, k - 1)
  }

  function LeValue(s: seq<Byte>): nat {
    if s == [] then 0 else s[0] + 256 * LeValue(s[1..])
  }

  /** Byte i has weight 256^i. */
  lemma {:induction false} LeByteAt(n: nat, k: nat, i: nat)
    requires i < k
    ensures LeBytes(n, k)[i] == n / Pow256(i) % 256
  {
    if i > 0 {
      LeByteAt(n / 256, k - 1, i - 1);
      NestedQuotient(n, Pow256(i - 1));
    }
  }

  lemma QuotientIs(v: nat, p: nat, q: int, r: nat)
    requires r < p && v == p * q + r
    ensures v / p == q
  {
    var d := v / p - q;
    assert p * (v / p) + v % p == v;
    assert p * d == r - v % p;
    Multiple(p, d);
  }

  lemma Multiple(p: nat, d: int)
    ensures d >= 1 ==> p * d >= p
    ensures d <= -1 ==> p * d + p <= 0
  {
    if d >= 1 {
      assert p * (d - 1) >= 0;
    } else if d <= -1 {
      assert p * (-1 - d) >= 0;
    }
  }

  lemma NestedQuotient(n: nat, p: nat)
    requires p > 0
    ensures n / (256 * p) == n / 256 / p
  {
    var q, r := n / 256 / p, n / 256 % p;
    assert n / 256 == p * q + r;
    var low := 256 * r + n % 256;
    assert n == (256 * p) * q + low && low < 256 * p;
    QuotientIs(n, 256 * p, q, low);
  }

  lemma {:induction false} LeRoundTrip(n: nat, k: nat)
    requires n < Pow256(k)
    ensures LeValue(LeBytes(n, k)) == n
  {
    if k > 0 {
      LeRoundTrip(n / 256, k - 1);
      assert LeBytes(n, k)[1..] == LeBytes(n / 256, k - 1);
    }
  }

  lemma {:induction false} LeValueBound(s: seq<Byte>)
    ensures LeValue(s) < Pow256(|s|)
  {
    if s != [] {
      LeValueBound(s[1..]);
    }
  }

  lemma Pow256Values()
    ensures Pow256(1) == 0x100 && Pow256(2) == 0x1_0000
    ensures Pow256(4) == 0x1_0000_0000
    ensures Pow256(8) == 0x1_0000_0000_0000_0000
  {
    assert Pow256(3) == 0x100_0000;
    assert Pow256(5) == 0x100_0000_0000 && Pow256(6) == 0x1_0000_0000_0000;
    assert Pow256(7) == 0x100_0000_0000_0000;
  }
}
