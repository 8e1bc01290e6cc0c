/**
Byte memory over 32-bit addresses and the bus in front of it. A sized access
is atomic: it either happens whole or faults, leaving memory alone, recording
the first fault and reading as all ones. User and supervisor accesses go
through separate views, as the two address-translation tables do.
*/
module Memory {
  import opened Words

  type Bytes = map<Long, Byte>

  /** Bytes never written read as zero, so every total memory is a value of Bytes. */
  function Get(m: Bytes, a: Long): Byte {
    if a in m then m[a] else 0
  }

  /** The n bytes from a as a big-endian number; addresses wrap at 2^32. */
  function Peek(m: Bytes, a: int, n: nat): (v: nat)
    ensures v < Pow256(n)
  {
    if n == 0 then 0 else Peek(m, a, n - 1) * 256 + Get(m, Wrap(a + n - 1))
  }

  function Poke(m: Bytes, a: int, n: nat, v: nat): Bytes {
    if n == 0 then m else Poke(m, a, n - 1, v / 256)[Wrap(a + n - 1) := v % 256]
  }

  /** x is one of the n bytes from a. */
  predicate Within(x: Long, a: int, n: nat) {
    Wrap(x - a) < n
  }

  function Span(a: int, n: nat): set<Long> {
    set x: Long | Within(x, a, n)
  }

  lemma SpanMember(a: int, n: nat, i: nat)
    requires i < n
    ensures Wrap(a + i) in Span(a, n)
  {
  }

  lemma {:induction false} PeekSame(m: Bytes, m': Bytes, a: int, n: nat)
    requires forall x :: x in Span(a, n) ==> Get(m, x) == Get(m', x)
    ensures Peek(m, a, n) == Peek(m', a, n)
  {
    if n > 0 {
      assert forall x :: x in Span(a, n - 1) ==> x in Span(a, n);
      PeekSame(m, m', a, n - 1);
      SpanMember(a, n, n - 1);
    }
  }

  lemma {:induction false} PokeOutside(m: Bytes, a: int, n: nat, v: nat, x: Long)
    requires x !in Span(a, n)
    ensures Get(Poke(m, a, n, v), x) == Get(m, x)
  {
    if n > 0 {
      SpanMember(a, n, n - 1);
      PokeOutside(m, a, n - 1, v / 256, x);
    }
  }

  lemma WrapTwice(a: int, i: int)
    ensures Wrap(Wrap(a) + i) == Wrap(a + i)
  {
  }

  lemma {:induction false} PeekWrap(m: Bytes, a: int, n: nat)
    ensures Peek(m, Wrap(a), n) == Peek(m, a, n)
  {
    if n > 0 {
      PeekWrap(m, a, n - 1);
      WrapTwice(a, n - 1);
    }
  }

  lemma {:induction false} PokeWrap(m: Bytes, a: int, n: nat, v: nat)
    ensures Poke(m, Wrap(a), n, v) == Poke(m, a, n, v)
  {
    if n > 0 {
      PokeWrap(m, a, n - 1, v / 256);
      WrapTwice(a, n - 1);
    }
  }

  lemma SpanWrap(a: int, n: nat)
    ensures Span(Wrap(a), n) == Span(a, n)
  {
  }

  /** A store is read back whole. */
  lemma {:induction false} PeekPoke(m: Bytes, a: int, n: nat, v: nat)
    requires n <= B32 && v < Pow256(n)
    ensures Peek(Poke(m, a, n, v), a, n) == v
  {
    hide Wrap, Span;
    if n > 0 {
      var m' := Poke(m, a, n - 1, v / 256);
      PeekPoke(m, a, n - 1, v / 256);
      SpanEnd(a, n - 1);
      SameButOne(m', Wrap(a + n - 1), v % 256, a, n - 1);
    }
  }

  lemma SpanEnd(a: int, n: nat)
    requires n < B32
    ensures Wrap(a + n) !in Span(a, n)
  {
  }

  lemma SameButOne(m: Bytes, x: Long, v: Byte, a: int, n: nat)
    requires x !in Span(a, n)
    ensures Peek(m[x := v], a, n) == Peek(m, a, n)
  {
    PeekSame(m[x := v], m, a, n);
  }

  /** Two fields of one block that do not overlap occupy different addresses. */
  lemma SpansApart(a: int, n: nat, b: int, k: nat)
    requires a + n <= b && b + k <= a + B32
    ensures Span(a, n) !! Span(b, k)
  {
  }

  lemma SpanInside(a: int, n: nat, b: int, k: nat)
    requires a <= b && b + k <= a + n
    ensures Span(b, k) <= Span(a, n)
  {
  }

  /** A store elsewhere does not change what is read. */
  lemma PeekPokeApart(m: Bytes, a: int, n: nat, v: nat, b: int, k: nat)
    requires Span(a, n) !! Span(b, k)
    ensures Peek(Poke(m, a, n, v), b, k) == Peek(m, b, k)
  {
    forall x | x in Span(b, k) ensures Get(Poke(m, a, n, v), x) == Get(m, x) {
      PokeOutside(m, a, n, v, x);
    }
    PeekSame(Poke(m, a, n, v), m, b, k);
  }

  // ---- the bus ----------------------------------------------------------

  datatype View = User | Supervisor
  datatype Access = Access(addr: Long, size: nat, write: bool)

  /**
  `fault` is the pending bus error; `seen` records the bytes successfully
  read, so that a statement can say what an instruction looked at.
  */
  datatype Bus = Bus(
    mem: Bytes,
    userFaults: set<Access>,
    superFaults: set<Access>,
    readView: View,
    writeView: View,
    fault: Option<Access>,
    seen: set<Long>)

  predicate Faults(b: Bus, acc: Access) {
    acc in if (if acc.write then b.writeView else b.readView).Supervisor? then b.superFaults else b.userFaults
  }

  function Raise(b: Bus, acc: Access): Bus {
    if b.fault.None? then b.(fault := Some(acc)) else b
  }

  function Read(b: Bus, a: Long, n: nat): (r: (Bus, nat))
    ensures r.1 < Pow256(n)
  {
    var acc := Access(a, n, false);
    if Faults(b, acc) then (Raise(b, acc), Pow256(n) - 1)
    else (b.(seen := b.seen + Span(a, n)), Peek(b.mem, a, n))
  }

  function Write(b: Bus, a: Long, n: nat, v: nat): Bus {
    var acc := Access(a, n, true);
    if Faults(b, acc) then Raise(b, acc) else b.(mem := Poke(b.mem, a, n, v))
  }

  /** No supervisor access that touches the region faults. */
  predicate Mapped(b: Bus, region: set<Long>) {
    forall acc :: acc in b.superFaults ==> Span(acc.addr, acc.size) !! region
  }

  lemma MappedAccess(b: Bus, region: set<Long>, a: Long, n: nat, write: bool)
    requires Mapped(b, region) && n > 0 && Wrap(a) in region
    requires (if write then b.writeView else b.readView).Supervisor?
    ensures !Faults(b, Access(a, n, write))
  {
    SpanMember(a, n, 0);
  }
}
