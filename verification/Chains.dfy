/**
ADDX, SUBX, ABCD and SBCD -(Ay),-(Ax) as multi-precision arithmetic in memory
(src/core/cpu/cpu_ops.h): n steps on two operands add or subtract the
big-endian binary or packed decimal numbers stored below Ax and Ay.
*/
module Chains {
  import opened Words
  import opened Memory
  import opened Operands
  import opened Nesting
  import opened Arithmetic
  import opened Bits
  import opened Bcd
  import opened LimbChains

  /** Operand bytes of n limbs of 1, 2 or 4 bytes. */
  function Extent(size: nat, n: nat): nat {
    if size == 1 then n else if size == 2 then 2 * n else 4 * n
  }

  predicate OperandSize(size: nat) {
    size == 1 || size == 2 || size == 4
  }

  lemma LimbRadix(size: nat)
    requires OperandSize(size)
    ensures Pow2(8 * size) == Pow256(size)
  {
    Pow256Values();
    assert Pow2(8) == 256;
    assert Pow2(16) == 0x1_0000 by { assert Pow2(12) == 4096; }
    PowSum(16, 16);
  }

  /** ADDX/SUBX/ABCD/SBCD -(Ay),-(Ax): both An come back if any of the three accesses faulted. */
  function ExtendedMem(op: Op, c: Core, f: Ccr, size: nat, x: nat, y: nat): (Core, Ccr)
    requires Suits(op, 8 * size) && x < 8 && y < 8 && OperandSize(size)
  {
    LimbRadix(size);
    var c1 := c.(a := c.a[y := Wrap(c.a[y] as int - Step(size, y))]);
    var (b1, src) := Read(c1.bus, c1.a[y], size);
    var c2 := c1.(bus := b1, a := c1.a[x := Wrap(c1.a[x] as int - Step(size, x))]);
    var (b2, dst) := Read(b1, c2.a[x], size);
    var (r, g) := OneLimb(op, 8 * size, dst, src, f);
    var c3 := c2.(bus := Write(b2, c2.a[x], size, r));
    (if c3.bus.fault.Some? then c3.(a := c3.a[y := c.a[y]][x := c.a[x]]) else c3, g)
  }

  function MemChain(op: Op, c: Core, f: Ccr, size: nat, x: nat, y: nat, n: nat): (Core, Ccr)
    requires Suits(op, 8 * size) && x < 8 && y < 8 && OperandSize(size)
    decreases n
  {
    if n == 0 then (c, f)
    else
      var (c1, g) := ExtendedMem(op, c, f, size, x, y);
      MemChain(op, c1, g, size, x, y, n - 1)
  }

  /** Limbs below top, least significant (highest address) first. */
  function LimbsBelow(m: Bytes, top: int, size: nat, n: nat): (l: seq<nat>)
    requires OperandSize(size)
    ensures |l| == n && Limbs(8 * size, l)
    decreases n
  {
    LimbRadix(size);
    if n == 0 then [] else [Peek(m, top - size, size)] + LimbsBelow(m, top - size, size, n - 1)
  }

  lemma {:induction false} PeekJoin(m: Bytes, a: int, n: nat, k: nat)
    ensures Peek(m, a, n + k) == Peek(m, a, n) * Pow256(k) + Peek(m, a + n, k)
    decreases k
  {
    hide Peek, Pow256, Wrap, Get;
    EmptyPeek(m, a + n);
    if k > 0 {
      PeekJoin(m, a, n, k - 1);
      PeekLast(m, a, n + k);
      PeekLast(m, a + n, k);
      JoinAlgebra(Peek(m, a, n), Pow256(k - 1), Peek(m, a + n, k - 1), Get(m, Wrap(a + n + k - 1)));
    }
  }

  lemma PeekLast(m: Bytes, a: int, n: nat)
    requires n > 0
    ensures Peek(m, a, n) == Peek(m, a, n - 1) * 256 + Get(m, Wrap(a + n - 1))
    ensures Pow256(n) == 256 * Pow256(n - 1)
  {
  }

  lemma JoinAlgebra(h: nat, p: nat, l: nat, b: nat)
    ensures (h * p + l) * 256 + b == h * (256 * p) + (l * 256 + b)
  {
  }

  /** The limbs of a block spell its big-endian number. */
  lemma {:induction false} LimbsAreNumber(m: Bytes, top: int, size: nat, n: nat)
    requires OperandSize(size)
    ensures Value(8 * size, LimbsBelow(m, top, size, n)) == Peek(m, top - Extent(size, n), Extent(size, n))
    ensures Radix(8 * size, n) == Pow256(Extent(size, n))
    decreases n
  {
    hide Peek, Pow2, Pow256, Value, Radix, Extent;
    LimbRadix(size);
    ExtentStep(size, n);
    ValueSplit(8 * size, LimbsBelow(m, top, size, n));
    RadixSplit(8 * size, n);
    if n == 0 {
      EmptyPeek(m, top);
    } else {
      var rest := Extent(size, n - 1);
      LimbsAreNumber(m, top - size, size, n - 1);
      PeekJoin(m, top - size - rest, rest, size);
      assert LimbsBelow(m, top, size, n)[1..] == LimbsBelow(m, top - size, size, n - 1);
      Pow256Add(size, rest);
    }
  }

  lemma ExtentStep(size: nat, n: nat)
    requires OperandSize(size)
    ensures Extent(size, n) == if n == 0 then 0 else Extent(size, n - 1) + size
  {
  }

  lemma EmptyPeek(m: Bytes, a: int)
    ensures Peek(m, a, 0) == 0 && Pow256(0) == 1
  {
  }

  lemma {:induction false} Pow256Add(m: nat, n: nat)
    ensures Pow256(m + n) == Pow256(m) * Pow256(n)
  {
    if m > 0 {
      Pow256Add(m - 1, n);
    }
  }

  lemma {:induction false} LimbsSame(m: Bytes, m': Bytes, top: int, size: nat, n: nat)
    requires OperandSize(size)
    requires forall z :: z in Span(top - Extent(size, n), Extent(size, n)) ==> Get(m, z) == Get(m', z)
    ensures LimbsBelow(m, top, size, n) == LimbsBelow(m', top, size, n)
    decreases n
  {
    hide Peek, Get;
    if n > 0 {
      var l := Extent(size, n);
      SpanInside(top - l, l, top - size, size);
      SpanInside(top - l, l, top - l, l - size);
      PeekSame(m, m', top - size, size);
      LimbsSame(m, m', top - size, size, n - 1);
    }
  }

  // ---- one step, then many ----------------------------------------------

  /** Registers and sizes for which each step moves by exactly the operand size. */
  predicate PlainStep(size: nat, x: nat, y: nat) {
    OperandSize(size) && x < 8 && y < 8 && x != y && (size == 1 ==> x != 7 && y != 7)
  }

  lemma StickyFault(b: Bus, a: Long, n: nat, v: nat)
    ensures Write(b, a, n, v).fault.None? ==> b.fault.None?
    ensures Read(b, a, n).0.fault.None? ==> b.fault.None?
  {
  }

  /** A step that does not fault. */
  lemma StepInMemory(op: Op, c: Core, f: Ccr, size: nat, x: nat, y: nat, top: int, low: int)
    requires Suits(op, 8 * size) && PlainStep(size, x, y) && c.a[x] == Wrap(top) && c.a[y] == Wrap(low)
    requires ExtendedMem(op, c, f, size, x, y).0.bus.fault.None?
    ensures Pow2(8 * size) == Pow256(size)
    ensures var (c', g) := ExtendedMem(op, c, f, size, x, y);
            var (dst, src) := (Peek(c.bus.mem, top - size, size), Peek(c.bus.mem, low - size, size));
            && c'.a == c.a[x := Wrap(top - size)][y := Wrap(low - size)]
            && c.bus.fault.None?
            && (c'.bus.mem, g) == var (r, g') := OneLimb(op, 8 * size, dst, src, f);
                                  (Poke(c.bus.mem, top - size, size, r), g')
  {
    hide Peek, Poke, Wrap, OneLimb, Span;
    LimbRadix(size);
    WrapBelow(top, size);
    WrapBelow(low, size);
    PeekWrap(c.bus.mem, top - size, size);
    PeekWrap(c.bus.mem, low - size, size);
    var c1 := c.(a := c.a[y := Wrap(c.a[y] as int - Step(size, y))]);
    var (b1, src) := Read(c1.bus, c1.a[y], size);
    var (b2, dst) := Read(b1, Wrap(top - size), size);
    var r := OneLimb(op, 8 * size, dst, src, f).0;
    StickyFault(b2, Wrap(top - size), size, r);
    StickyFault(b1, Wrap(top - size), size, 0);
    StickyFault(c.bus, Wrap(low - size), size, 0);
    PokeWrap(c.bus.mem, top - size, size, r);
  }

  lemma WrapBelow(a: int, n: nat)
    ensures Wrap(Wrap(a) as int - n) == Wrap(a - n)
  {
  }

  // ---- a step that faults -----------------------------------------------

  /** Both address registers come back, and only memory and flags can have changed. */
  lemma ExtendedRollback(op: Op, c: Core, f: Ccr, size: nat, x: nat, y: nat)
    requires Suits(op, 8 * size) && x < 8 && y < 8 && OperandSize(size)
    ensures var t := ExtendedMem(op, c, f, size, x, y).0;
            t.d == c.d && (t.bus.fault.Some? ==> t.a == c.a)
  {
    hide Read, Write, Wrap, OneLimb, Pow2, Pow256, Step;
    var t := ExtendedMem(op, c, f, size, x, y).0;
    if t.bus.fault.Some? {
      forall i | 0 <= i < 8 ensures t.a[i] == c.a[i] {
      }
    }
  }

  /** What an operand read gives: all ones when it faults. */
  function Operand(b: Bus, at: int, size: nat): (v: nat)
    ensures v < Pow256(size)
  {
    if Faults(b, Access(Wrap(at), size, false)) then Pow256(size) - 1 else Peek(b.mem, at, size)
  }

  /**
  What a step leaves in memory, whichever of its three accesses fault: the
  result of the operands as they were read is stored unless the store itself
  faults.
  */
  lemma StepStores(op: Op, c: Core, f: Ccr, size: nat, x: nat, y: nat)
    requires PlainStep(size, x, y) && c.bus.fault.None? && Suits(op, 8 * size)
    ensures Pow2(8 * size) == Pow256(size)
    ensures var t := ExtendedMem(op, c, f, size, x, y).0;
            var (at, from) := (c.a[x] as int - size, c.a[y] as int - size);
            var kept := Faults(c.bus, Access(Wrap(at), size, true));
            var r := OneLimb(op, 8 * size, Operand(c.bus, at, size), Operand(c.bus, from, size), f).0;
            && (t.bus.fault.Some? <==> kept || Faults(c.bus, Access(Wrap(at), size, false))
                                       || Faults(c.bus, Access(Wrap(from), size, false)))
            && t.bus.mem == if kept then c.bus.mem else Poke(c.bus.mem, at, size, r)
  {
    hide Poke, Wrap, OneLimb, Pow2, Pow256, Read, Write, Operand, Faults;
    LimbRadix(size);
    var (at, from) := (c.a[x] as int - size, c.a[y] as int - size);
    ReadOperand(c.bus, c.bus, from, size);
    var (b1, src) := Read(c.bus, Wrap(from), size);
    ReadOperand(c.bus, b1, at, size);
    var (b2, dst) := Read(b1, Wrap(at), size);
    WriteResult(c.bus, b2, at, size, OneLimb(op, 8 * size, dst, src, f).0);
  }

  /** A read after others of the same instruction. */
  lemma ReadOperand(b0: Bus, b: Bus, at: int, size: nat)
    requires QuietBus(b0, b)
    ensures var (b', v) := Read(b, Wrap(at), size);
            && v == Operand(b0, at, size) && QuietBus(b0, b')
            && (b'.fault.Some? <==> b.fault.Some? || Faults(b0, Access(Wrap(at), size, false)))
  {
    hide Peek, Span;
    PeekWrap(b.mem, at, size);
  }

  lemma WriteResult(b0: Bus, b: Bus, at: int, size: nat, r: nat)
    requires QuietBus(b0, b)
    ensures var (b', kept) := (Write(b, Wrap(at), size, r), Faults(b0, Access(Wrap(at), size, true)));
            && b'.mem == (if kept then b0.mem else Poke(b0.mem, at, size, r))
            && (b'.fault.Some? <==> b.fault.Some? || kept)
  {
    hide Poke;
    PokeWrap(b.mem, at, size, r);
  }

  /**
  With a source that faults and a destination that is mapped, the step takes all
  ones for the source. The destination keeps its value, so that a restart finds
  it intact, if and only if the step is ADDX or SUBX and X was set; ABCD and
  SBCD never keep it.
  */
  lemma SourceFaultStores(op: Op, c: Core, f: Ccr, size: nat, x: nat, y: nat)
    requires PlainStep(size, x, y) && c.bus.fault.None? && Suits(op, 8 * size)
    requires Faults(c.bus, Access(Wrap(c.a[y] as int - size), size, false))
    requires !Faults(c.bus, Access(Wrap(c.a[x] as int - size), size, false))
    requires !Faults(c.bus, Access(Wrap(c.a[x] as int - size), size, true))
    ensures var t := ExtendedMem(op, c, f, size, x, y).0;
            var at := c.a[x] as int - size;
            && t.bus.fault.Some? && t.a == c.a
            && SameOutside(c.bus.mem, t.bus.mem, Span(at, size))
            && (Peek(t.bus.mem, at, size) == Peek(c.bus.mem, at, size) <==> op.Binary? && f.x)
  {
    hide Peek, Poke, Wrap, OneLimb, Span, SameOutside, ExtendedMem, Pow2, Pow256;
    ExtendedRollback(op, c, f, size, x, y);
    StepStores(op, c, f, size, x, y);
    var at := c.a[x] as int - size;
    var dst := Peek(c.bus.mem, at, size);
    AllOnesLimb(op, 8 * size, dst, f);
    var r := OneLimb(op, 8 * size, dst, Pow256(size) - 1, f).0;
    PeekPoke(c.bus.mem, at, size, r);
    PokeInside(c.bus.mem, at, size, r, at, size);
  }

  /** All ones as the source leaves a limb alone exactly for a binary step with the carry in. */
  lemma AllOnesLimb(op: Op, w: nat, d: nat, f: Ccr)
    requires Suits(op, w) && w >= 8 && IsWord(w, d)
    ensures IsWord(w, Pow2(w) - 1)
    ensures OneLimb(op, w, d, Pow2(w) - 1, f).0 == d <==> op.Binary? && f.x
  {
    hide Extended, DecimalStep, Pow2;
    AtLeastTwo(w);
    if op.Binary? {
      AllOnesStep(op.kind, w, d, f);
    } else {
      SmallPowers();
      DecimalAllOnes(op.kind, op.model, d, f);
    }
  }

  /** Adding or subtracting all ones leaves a word alone exactly with the carry in. */
  lemma AllOnesStep(k: Kind, w: nat, d: nat, f: Ccr)
    requires w >= 8 && IsWord(w, d)
    ensures IsWord(w, Pow2(w) - 1) && IsWord(w, Extended(k, w, d, Pow2(w) - 1, f).0)
    ensures Extended(k, w, d, Pow2(w) - 1, f).0 == d <==> f.x
  {
    hide Extended, Pow2;
    AtLeastTwo(w);
    ExtendedStep(k, w, d, Pow2(w) - 1, f);
  }

  lemma AtLeastTwo(w: nat)
    requires w > 0
    ensures Pow2(w) >= 2
  {
  }

  /** Two operands of n limbs below top and low that do not overlap. */
  predicate Apart(top: int, low: int, len: nat) {
    len <= B32 && Span(top - len, len) !! Span(low - len, len)
  }

  /** A fault-free chain in memory is the chain on limbs, and writes nothing else. */
  lemma {:induction false} MemChainIsChain(
    op: Op, c: Core, f: Ccr, size: nat, x: nat, y: nat, n: nat, top: int, low: int)
    requires Suits(op, 8 * size) && PlainStep(size, x, y) && c.a[x] == Wrap(top) && c.a[y] == Wrap(low)
    requires Apart(top, low, Extent(size, n))
    requires MemChain(op, c, f, size, x, y, n).0.bus.fault.None?
    ensures var (c', g) := MemChain(op, c, f, size, x, y, n);
            var m, m', len := c.bus.mem, c'.bus.mem, Extent(size, n);
            && (LimbsBelow(m', top, size, n), g)
               == Chain(op, 8 * size, LimbsBelow(m, top, size, n), LimbsBelow(m, low, size, n), f)
            && SameOutside(m, m', Span(top - len, len))
            && c'.a == c.a[x := Wrap(top - len)][y := Wrap(low - len)]
    decreases n
  {
    hide *;
    PlainRegisters(size, x, y);
    var m, len := c.bus.mem, Extent(size, n);
    ExtentStep(size, n);
    MemChainHead(op, c, f, size, x, y, n);
    if n == 0 {
      SameOutsideSelf(m, Span(top - len, len));
      NoLimbsBelow(op, m, top, low, size, f);
      assert c.a[x := Wrap(top)][y := Wrap(low)] == c.a;
    } else {
      var (c1, g1) := ExtendedMem(op, c, f, size, x, y);
      FaultSticks(op, c1, g1, size, x, y, n - 1);
      StepInMemory(op, c, f, size, x, y, top, low);
      ShrinkApart(top, low, len, size);
      MemChainIsChain(op, c1, g1, size, x, y, n - 1, top - size, low - size);
      var m' := MemChain(op, c, f, size, x, y, n).0.bus.mem;
      JoinStep(op, m, c1.bus.mem, m', top, low, size, n, f, g1, MemChain(op, c, f, size, x, y, n).1);
    }
  }

  lemma PlainRegisters(size: nat, x: nat, y: nat)
    requires PlainStep(size, x, y)
    ensures OperandSize(size) && x < 8 && y < 8 && x != y
  {
  }

  lemma MemChainHead(op: Op, c: Core, f: Ccr, size: nat, x: nat, y: nat, n: nat)
    requires Suits(op, 8 * size) && x < 8 && y < 8 && OperandSize(size)
    ensures MemChain(op, c, f, size, x, y, n)
         == if n == 0 then (c, f)
            else var (c1, g) := ExtendedMem(op, c, f, size, x, y); MemChain(op, c1, g, size, x, y, n - 1)
  {
  }

  lemma NoLimbsBelow(op: Op, m: Bytes, top: int, low: int, size: nat, f: Ccr)
    requires Suits(op, 8 * size) && OperandSize(size)
    ensures (LimbsBelow(m, top, size, 0), f)
         == Chain(op, 8 * size, LimbsBelow(m, top, size, 0), LimbsBelow(m, low, size, 0), f)
  {
  }

  /** The first step of a chain, then the rest of it. */
  lemma JoinStep(op: Op, m: Bytes, m1: Bytes, m': Bytes, top: int, low: int, size: nat, n: nat,
                 f: Ccr, g1: Ccr, g: Ccr)
    requires Suits(op, 8 * size) && OperandSize(size) && n > 0 && Apart(top, low, Extent(size, n))
    requires Pow2(8 * size) == Pow256(size)
    requires (m1, g1) == var (r, g') := OneLimb(op, 8 * size, Peek(m, top - size, size), Peek(m, low - size, size), f);
                         (Poke(m, top - size, size, r), g')
    requires (LimbsBelow(m', top - size, size, n - 1), g)
          == Chain(op, 8 * size, LimbsBelow(m1, top - size, size, n - 1), LimbsBelow(m1, low - size, size, n - 1), g1)
    requires SameOutside(m1, m', Span(top - Extent(size, n), Extent(size, n) - size))
    ensures (LimbsBelow(m', top, size, n), g)
         == Chain(op, 8 * size, LimbsBelow(m, top, size, n), LimbsBelow(m, low, size, n), f)
    ensures SameOutside(m, m', Span(top - Extent(size, n), Extent(size, n)))
  {
    hide Peek, Poke, Wrap, OneLimb, Span, SameOutside, Extent, Pow2, Pow256;
    ExtentStep(size, n);
    var (d, s) := (Peek(m, top - size, size), Peek(m, low - size, size));
    StepFrame(m, m', top, low, size, Extent(size, n), OneLimb(op, 8 * size, d, s, f).0, n);
    var a, b := LimbsBelow(m, top, size, n), LimbsBelow(m, low, size, n);
    assert a[1..] == LimbsBelow(m, top - size, size, n - 1);
    assert b[1..] == LimbsBelow(m, low - size, size, n - 1);
  }

  lemma ShrinkApart(top: int, low: int, len: nat, size: nat)
    requires Apart(top, low, len) && size <= len
    ensures Apart(top - size, low - size, len - size)
  {
    SpanInside(top - len, len, top - len, len - size);
    SpanInside(low - len, len, low - len, len - size);
  }

  lemma {:induction false} FaultSticks(op: Op, c: Core, f: Ccr, size: nat, x: nat, y: nat, n: nat)
    requires Suits(op, 8 * size) && x < 8 && y < 8 && OperandSize(size)
    ensures MemChain(op, c, f, size, x, y, n).0.bus.fault.None? ==> c.bus.fault.None?
    decreases n
  {
    hide Peek, Poke, Wrap, OneLimb, Span;
    if n > 0 {
      var (c1, g) := ExtendedMem(op, c, f, size, x, y);
      FaultSticks(op, c1, g, size, x, y, n - 1);
    }
  }

  /** What the first store of a chain leaves for the rest, and what the rest leaves of it. */
  lemma StepFrame(m: Bytes, m': Bytes, top: int, low: int, size: nat, len: nat, r: nat, n: nat)
    requires OperandSize(size) && n > 0 && len == Extent(size, n) && r < Pow256(size)
    requires Apart(top, low, len)
    requires SameOutside(Poke(m, top - size, size, r), m', Span(top - len, len - size))
    ensures var m1 := Poke(m, top - size, size, r);
            && LimbsBelow(m1, top - size, size, n - 1) == LimbsBelow(m, top - size, size, n - 1)
            && LimbsBelow(m1, low - size, size, n - 1) == LimbsBelow(m, low - size, size, n - 1)
            && Peek(m', top - size, size) == r
            && SameOutside(m, m', Span(top - len, len))
  {
    hide Peek, Poke, Wrap, Extent;
    ExtentStep(size, n);
    var m1 := Poke(m, top - size, size, r);
    PokeInside(m, top - size, size, r, top - len, len);
    PokeInside(m, top - size, size, r, top - size, size);
    SpansApart(top - len, len - size, top - size, size);
    SpanInside(top - len, len, top - len, len - size);
    SpanInside(top - len, len, top - size, size);
    SpanInside(low - len, len, low - len, len - size);
    LimbsSame(m1, m, top - size, size, n - 1);
    LimbsSame(m1, m, low - size, size, n - 1);
    PeekPoke(m, top - size, size, r);
    PeekSame(m1, m', top - size, size);
  }

  /** Two's-complement reading of a number below an even radix. */
  function SignedBelow(v: nat, radix: nat): int {
    if 2 * v >= radix then v - radix else v
  }

  /** The signed value of limbs is the signed reading of their number. */
  lemma {:induction false} SignedIsNumber(w: nat, a: seq<nat>)
    requires w > 0 && a != [] && Limbs(w, a)
    ensures SignedValue(w, a) == SignedBelow(Value(w, a), Radix(w, |a|))
    ensures Radix(w, |a|) % 2 == 0
    decreases |a|
  {
    hide Value, Radix, Limbs, SignedBelow, Pow2, IsWord;
    ValueSplit(w, a);
    RadixSplit(w, |a|);
    LimbHead(w, a);
    if |a| == 1 {
      ValueSplit(w, a[1..]);
      RadixSplit(w, 0);
      OneLimbSigned(w, a[0]);
    } else {
      SignedIsNumber(w, a[1..]);
      HeadBound(w, a[0]);
      HalfScales(Pow2(w), a[0], Value(w, a[1..]), Radix(w, |a| - 1));
    }
  }

  lemma OneLimbSigned(w: nat, d: nat)
    requires w > 0
    ensures Signed(w, d) == SignedBelow(d + Pow2(w) * 0, Pow2(w) * 1) && Pow2(w) * 1 % 2 == 0
  {
    hide Pow2, SignedBelow;
    TwiceHalf(w);
    HalfReading(d, Pow2(w - 1));
  }

  lemma TwiceHalf(w: nat)
    requires w > 0
    ensures Pow2(w) == 2 * Pow2(w - 1)
  {
  }

  lemma HalfReading(d: nat, h: nat)
    ensures SignedBelow(d + 2 * h * 0, 2 * h * 1) == (if d >= h then d - 2 * h else d) && 2 * h * 1 % 2 == 0
  {
  }

  lemma HeadBound(w: nat, d: nat)
    requires IsWord(w, d)
    ensures d < Pow2(w)
  {
  }

  lemma LimbHead(w: nat, a: seq<nat>)
    requires a != [] && Limbs(w, a)
    ensures IsWord(w, a[0]) && Limbs(w, a[1..])
  {
  }

  lemma HalfScales(p: nat, d: nat, v: nat, r: nat)
    requires d < p && r % 2 == 0
    ensures SignedBelow(d + p * v, p * r) == d + p * SignedBelow(v, r)
    ensures p * r % 2 == 0
  {
    var h := r / 2;
    Doubled(p, h);
    Ordered(p, d, v, h);
    Distributed(p, v, r);
  }

  lemma Doubled(p: nat, h: nat)
    ensures p * (2 * h) == 2 * (p * h) && p * (2 * h) % 2 == 0
  {
  }

  lemma Ordered(p: nat, d: nat, v: nat, h: nat)
    requires d < p
    ensures d + p * v >= p * h <==> v >= h
  {
    Distributed(p, v, h);
    Multiple(p, v - h);
    if v == h {
      assert p * v == p * h;
    }
  }

  lemma Distributed(p: int, v: int, r: int)
    ensures p * (v - r) == p * v - p * r
  {
  }

  /**
  n steps of ADDX (SUBX) -(Ay),-(Ax) add (subtract) the n-limb big-endian
  numbers below Ax and Ay, leave the result below Ax and nothing else changed,
  with X the carry (borrow) out and Z the test of the whole result.
  */
  lemma MemChainAdds(k: Kind, c: Core, f: Ccr, size: nat, x: nat, y: nat, n: nat)
    requires PlainStep(size, x, y) && Apart(c.a[x], c.a[y], Extent(size, n))
    requires MemChain(Binary(k), c, f, size, x, y, n).0.bus.fault.None?
    ensures var (c', g) := MemChain(Binary(k), c, f, size, x, y, n);
            var len := Extent(size, n);
            var (ax, ay) := (c.a[x] as int - len, c.a[y] as int - len);
            && Exact(k, Pow256(len), Peek(c'.bus.mem, ax, len), Carry(g),
                     Peek(c.bus.mem, ax, len), Peek(c.bus.mem, ay, len), Carry(f))
            && (g.z <==> f.z && Peek(c'.bus.mem, ax, len) == 0)
            && SameOutside(c.bus.mem, c'.bus.mem, Span(ax, len))
            && c'.a == c.a[x := Wrap(ax)][y := Wrap(ay)]
  {
    hide *;
    PlainRegisters(size, x, y);
    BinarySuits(k, size);
    WrapLong(c.a[x]);
    WrapLong(c.a[y]);
    MemChainIsChain(Binary(k), c, f, size, x, y, n, c.a[x], c.a[y]);
    var m, m' := c.bus.mem, MemChain(Binary(k), c, f, size, x, y, n).0.bus.mem;
    LimbsAreNumber(m, c.a[x], size, n);
    LimbsAreNumber(m, c.a[y], size, n);
    LimbsAreNumber(m', c.a[x], size, n);
    ChainValue(k, 8 * size, LimbsBelow(m, c.a[x], size, n), LimbsBelow(m, c.a[y], size, n), f);
  }

  /** After the last step V is signed overflow, and N the sign, of the whole number. */
  lemma MemChainOverflow(k: Kind, c: Core, f: Ccr, size: nat, x: nat, y: nat, n: nat)
    requires PlainStep(size, x, y) && n > 0 && Apart(c.a[x], c.a[y], Extent(size, n))
    requires MemChain(Binary(k), c, f, size, x, y, n).0.bus.fault.None?
    ensures var (c', g) := MemChain(Binary(k), c, f, size, x, y, n);
            var len := Extent(size, n);
            var (ax, ay) := (c.a[x] as int - len, c.a[y] as int - len);
            var (r, d) := (SignedPeek(c'.bus.mem, ax, len), SignedPeek(c.bus.mem, ax, len));
            var s := SignedPeek(c.bus.mem, ay, len);
            (g.v <==> r != Combine(k, d, s + Carry(f))) && (g.n <==> r < 0)
  {
    hide *;
    PlainRegisters(size, x, y);
    BinarySuits(k, size);
    WrapLong(c.a[x]);
    WrapLong(c.a[y]);
    MemChainIsChain(Binary(k), c, f, size, x, y, n, c.a[x], c.a[y]);
    var m, m' := c.bus.mem, MemChain(Binary(k), c, f, size, x, y, n).0.bus.mem;
    SignedBlock(m, c.a[x], size, n);
    SignedBlock(m, c.a[y], size, n);
    SignedBlock(m', c.a[x], size, n);
    ChainOverflow(k, 8 * size, LimbsBelow(m, c.a[x], size, n), LimbsBelow(m, c.a[y], size, n), f);
  }

  function SignedPeek(m: Bytes, a: int, len: nat): int {
    SignedBelow(Peek(m, a, len), Pow256(len))
  }

  lemma SignedBlock(m: Bytes, top: int, size: nat, n: nat)
    requires OperandSize(size) && n > 0
    ensures SignedPeek(m, top - Extent(size, n), Extent(size, n)) == SignedValue(8 * size, LimbsBelow(m, top, size, n))
  {
    hide Value, Radix, LimbsBelow, SignedValue, Peek, Pow256;
    LimbsAreNumber(m, top, size, n);
    SignedIsNumber(8 * size, LimbsBelow(m, top, size, n));
  }

  lemma BinarySuits(k: Kind, size: nat)
    requires OperandSize(size)
    ensures Suits(Binary(k), 8 * size)
  {
  }

  // ---- decimal operands in memory ---------------------------------------

  /** The n bytes from a as packed decimal digits, most significant first. */
  function PackedNumber(m: Bytes, a: int, n: nat): nat {
    if n == 0 then 0 else PackedNumber(m, a, n - 1) * 100 + Digits(Get(m, Wrap(a + n - 1)))
  }

  predicate PackedBlock(m: Bytes, a: int, n: nat) {
    forall z :: z in Span(a, n) ==> Packed(Get(m, z))
  }

  lemma {:induction false} PackedLimbs(m: Bytes, top: int, n: nat)
    requires n <= B32
    ensures DecimalValue(LimbsBelow(m, top, 1, n)) == PackedNumber(m, top - n, n)
    ensures PackedBlock(m, top - n, n) <==> AllPacked(LimbsBelow(m, top, 1, n))
    decreases n
  {
    hide Wrap, Span, Packed, Digits, Get;
    if n > 0 {
      var l := LimbsBelow(m, top, 1, n);
      PackedLimbs(m, top - 1, n - 1);
      assert l[1..] == LimbsBelow(m, top - 1, 1, n - 1);
      OneByte(m, top - 1);
      PackedFirst(m, top - n, n);
      BlockEnd(top - n, n);
      PackedSplit(l);
    } else {
      NoBlock(top);
    }
  }

  lemma PackedSplit(l: seq<nat>)
    requires l != []
    ensures AllPacked(l) <==> Packed(l[0]) && AllPacked(l[1..])
  {
    if Packed(l[0]) && AllPacked(l[1..]) {
      assert l == [l[0]] + l[1..];
      PackedJoin(l[0], l[1..]);
    }
  }

  lemma NoBlock(top: int)
    ensures Span(top, 0) == {}
  {
  }

  lemma OneByte(m: Bytes, a: int)
    ensures Peek(m, a, 1) == Get(m, Wrap(a))
  {
    assert Peek(m, a, 0) == 0;
  }

  lemma BlockEnd(a: int, n: nat)
    requires 0 < n <= B32
    ensures Span(a, n) == Span(a, n - 1) + {Wrap(a + n - 1)}
  {
    forall x: Long ensures x in Span(a, n) <==> x in Span(a, n - 1) + {Wrap(a + n - 1)} {
      LastPlace(x, a, n);
    }
  }

  lemma LastPlace(x: Long, a: int, n: nat)
    requires 0 < n <= B32
    ensures Wrap(x - a) == n - 1 <==> x == Wrap(a + n - 1)
  {
  }

  /** The low-order bytes of a packed block lead its number. */
  lemma {:induction false} PackedFirst(m: Bytes, a: int, n: nat)
    requires n > 0
    ensures PackedNumber(m, a, n) == PackedNumber(m, a, n - 1) * 100 + Digits(Get(m, Wrap(a + n - 1)))
  {
  }

  /**
  n steps of ABCD (SBCD) -(Ay),-(Ax) add (subtract) the packed decimal numbers
  of n bytes below Ax and Ay.
  */
  lemma DecimalMemChain(k: Kind, c: Core, f: Ccr, x: nat, y: nat, n: nat)
    requires PlainStep(1, x, y) && Apart(c.a[x], c.a[y], n)
    requires var (ax, ay) := (c.a[x] as int - n, c.a[y] as int - n);
             PackedBlock(c.bus.mem, ax, n) && PackedBlock(c.bus.mem, ay, n)
    requires MemChain(Decimal(k, c.model), c, f, 1, x, y, n).0.bus.fault.None?
    ensures var (c', g) := MemChain(Decimal(k, c.model), c, f, 1, x, y, n);
            var (ax, ay) := (c.a[x] as int - n, c.a[y] as int - n);
            && PackedBlock(c'.bus.mem, ax, n)
            && Exact(k, Hundreds(n), PackedNumber(c'.bus.mem, ax, n), Carry(g),
                     PackedNumber(c.bus.mem, ax, n), PackedNumber(c.bus.mem, ay, n), Carry(f))
            && (g.z <==> f.z && PackedNumber(c'.bus.mem, ax, n) == 0)
            && SameOutside(c.bus.mem, c'.bus.mem, Span(ax, n))
            && c'.a == c.a[x := Wrap(ax)][y := Wrap(ay)]
  {
    hide *;
    PlainRegisters(1, x, y);
    ByteExtent(n);
    ApartBound(c.a[x], c.a[y], n);
    WrapLong(c.a[x]);
    WrapLong(c.a[y]);
    MemChainIsChain(Decimal(k, c.model), c, f, 1, x, y, n, c.a[x], c.a[y]);
    var m, m' := c.bus.mem, MemChain(Decimal(k, c.model), c, f, 1, x, y, n).0.bus.mem;
    PackedLimbs(m, c.a[x], n);
    PackedLimbs(m, c.a[y], n);
    PackedLimbs(m', c.a[x], n);
    DecimalChainValue(k, c.model, LimbsBelow(m, c.a[x], 1, n), LimbsBelow(m, c.a[y], 1, n), f);
  }

  lemma ByteExtent(n: nat)
    ensures Extent(1, n) == n
    ensures forall k: Kind, model: Model :: Suits(Decimal(k, model), 8)
  {
  }

  lemma ApartBound(top: int, low: int, n: nat)
    requires Apart(top, low, n)
    ensures n <= B32
  {
  }
}
