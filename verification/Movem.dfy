/**
MOVEM (src/core/cpu/cpu_internal.h): storing a register list below an address
register, loading it back, and what a fault in the middle leaves behind.
Registers are numbered 0-7 for D0-D7 and 8-15 for A0-A7.
*/
module Movem {
  import opened Words
  import opened Memory
  import opened Operands
  import opened Nesting
  import opened Bits

  type RegList = s: seq<bool> | |s| == 16 witness seq(16, _ => false)

  /** The list a mask selects; the predecrement form numbers its bits from A7 down. */
  function ListUp(mask: nat): RegList {
    seq(16, i requires 0 <= i < 16 => BitAt(mask, i))
  }

  function ListDown(mask: nat): RegList {
    seq(16, i requires 0 <= i < 16 => BitAt(mask, 15 - i))
  }

  /** The low n bits in reverse order. */
  function Reverse(v: nat, n: nat): nat {
    if n == 0 then 0 else (if v % 2 == 1 then Pow2(n - 1) else 0) + Reverse(v / 2, n - 1)
  }

  lemma {:induction false} ReverseBound(v: nat, n: nat)
    ensures Reverse(v, n) < Pow2(n)
  {
    if n > 0 {
      ReverseBound(v / 2, n - 1);
    }
  }

  lemma {:induction false} ReverseBits(v: nat, n: nat, i: nat)
    requires i < n
    ensures BitAt(Reverse(v, n), i) == BitAt(v, n - 1 - i)
  {
    hide BitAt;
    var t := Reverse(v / 2, n - 1);
    ReverseBound(v / 2, n - 1);
    BitStep(v, n - 1 - i);
    var top := if v % 2 == 1 then 1 else 0;
    JoinBit(top, n - 1, t, i);
    BitStep(top, 0);
    if i < n - 1 {
      ReverseBits(v / 2, n - 1, i);
    }
  }

  /** The load mask of the same list is the store mask bit-reversed. */
  lemma MasksMirror(mask: nat)
    ensures ListUp(Reverse(mask, 16)) == ListDown(mask)
  {
    forall i | 0 <= i < 16 ensures ListUp(Reverse(mask, 16))[i] == ListDown(mask)[i] {
      ReverseBits(mask, 16, i);
    }
  }

  // ---- transfers --------------------------------------------------------

  function Reg(c: Core, r: nat): Long
    requires r < 16
  {
    if r < 8 then c.d[r] else c.a[r - 8]
  }

  /** What a store to -(An) writes for register r; the 68030 stores An itself already stepped. */
  function Stored(c: Core, r: nat, step: nat, an: nat): (v: nat)
    requires r < 16 && an < 8
    ensures v < Pow256(step)
  {
    (if r == 8 + an && c.model.M68030? then Wrap(c.a[an] as int - step) else Reg(c, r)) % Pow256(step)
  }

  /** Registers k-1 down to 0, each one step lower; stops at a fault. */
  function StoreDown(c: Core, l: RegList, step: nat, an: nat, k: nat, b: Bus, at: Long): (Bus, Long)
    requires k <= 16 && an < 8
    decreases k
  {
    if k == 0 || b.fault.Some? then (b, at)
    else if !l[k - 1] then StoreDown(c, l, step, an, k - 1, b, at)
    else
      var next := Wrap(at as int - step);
      StoreDown(c, l, step, an, k - 1, Write(b, next, step, Stored(c, k - 1, step, an)), next)
  }

  /** `movem_from_register` to -(An): An moves only if every store succeeded. */
  function MovemStore(c: Core, an: nat, step: nat): Core
    requires an < 8
  {
    var (c1, mask) := Fetch(c, 2, true);
    if c1.bus.fault.Some? then c1
    else
      var (b, at) := StoreDown(c1, ListDown(mask), step, an, 16, c1.bus, c1.a[an]);
      if b.fault.Some? then c1.(bus := b) else c1.(bus := b, a := c1.a[an := at])
  }

  /** A loaded word is sign-extended. */
  function Extend(step: nat, v: nat): Long {
    if step == 2 then Wrap(S16(v)) else Wrap(v)
  }

  /** Registers k to 15, staged in `vals`; stops at a fault. */
  function LoadUp(l: RegList, step: nat, k: nat, b: Bus, ea: Long, vals: seq<Long>): (r: (Bus, seq<Long>, Long))
    requires k <= 16 && |vals| == 16
    ensures |r.1| == 16
    decreases 16 - k
  {
    if k == 16 || b.fault.Some? then (b, vals, ea)
    else if !l[k] then LoadUp(l, step, k + 1, b, ea, vals)
    else
      var (b', v) := Read(b, ea, step);
      LoadUp(l, step, k + 1, b', Wrap(ea + step), vals[k := Extend(step, v)])
  }

  /** `movem_to_register`: registers are committed only if every load succeeded. */
  function MovemLoad(c: Core, mode: nat, reg: nat, step: nat): Core
    requires reg < 8
  {
    var (c1, mask) := Fetch(c, 2, true);
    if c1.bus.fault.Some? then c1
    else
      var (c2, ea) := CalcEa(c1, 4, mode, reg, true);
      var (b, vals, end) := LoadUp(ListUp(mask), step, 0, c2.bus, ea, c2.d + c2.a);
      if b.fault.Some? then c2.(bus := b)
      else
        var a := vals[8..];
        c2.(bus := b, d := vals[..8], a := if mode == 3 then a[reg := end] else a)
  }

  // ---- addresses of the slots -------------------------------------------

  /** Listed registers below k. */
  function Below(l: RegList, k: nat): (n: nat)
    requires k <= 16
    ensures n <= k
  {
    if k == 0 then 0 else Below(l, k - 1) + if l[k - 1] then 1 else 0
  }

  /** n steps of two or four bytes. */
  function Steps(step: nat, n: int): int {
    if step == 2 then 2 * n else 4 * n
  }

  /** Every listed register below k is in its slot, counted down from top. */
  predicate SlotsHold(m: Bytes, c: Core, l: RegList, step: nat, an: nat, top: int, k: nat)
    requires k <= 16 && an < 8
  {
    forall r :: 0 <= r < k && l[r] ==>
      Peek(m, top - Steps(step, Below(l, k) - Below(l, r)), step) == Stored(c, r, step, an)
  }

  lemma {:induction false} BelowMonotone(l: RegList, j: nat, k: nat)
    requires j <= k <= 16
    ensures Below(l, j) <= Below(l, k)
  {
    if j < k {
      BelowMonotone(l, j, k - 1);
    }
  }

  lemma WriteCases(b: Bus, a: int, n: nat, v: nat)
    requires b.fault.None?
    ensures var b' := Write(b, Wrap(a), n, v);
            && (b'.fault.None? ==> b' == b.(mem := Poke(b.mem, a, n, v)))
            && (b'.fault.Some? ==> b' == b.(fault := b'.fault))
  {
    PokeWrap(b.mem, a, n, v);
  }

  /** A completed store fills each slot and touches nothing else. */
  lemma {:induction false} StoreDownFills(c: Core, l: RegList, step: nat, an: nat, k: nat, b: Bus, top: int)
    requires k <= 16 && an < 8 && (step == 2 || step == 4) && b.fault.None?
    ensures var (b', at) := StoreDown(c, l, step, an, k, b, Wrap(top));
            var n := Steps(step, Below(l, k));
            && b' == b.(mem := b'.mem, fault := b'.fault)
            && SameOutside(b.mem, b'.mem, Span(top - n, n))
            && (b'.fault.None? ==> at == Wrap(top - n) && SlotsHold(b'.mem, c, l, step, an, top, k))
    decreases k
  {
    hide Peek, Poke, Write, Wrap, Span, SameOutside, Stored, SlotsHold;
    var n := Steps(step, Below(l, k));
    SameOutsideSelf(b.mem, Span(top - n, n));
    if k > 0 && l[k - 1] {
      var next, v := top - step, Stored(c, k - 1, step, an);
      var rest := Steps(step, Below(l, k - 1));
      assert next - rest == top - n && n == rest + step;
      WrapMinus(top, step);
      WriteCases(b, next, step, v);
      var b1 := Write(b, Wrap(next), step, v);
      PokeInside(b.mem, next, step, v, top - n, n);
      if b1.fault.None? {
        StoreDownFills(c, l, step, an, k - 1, b1, next);
        var b' := StoreDown(c, l, step, an, k - 1, b1, Wrap(next)).0;
        Widen(b1.mem, b'.mem, next - rest, rest, n);
        SameOutsideChain(b.mem, b1.mem, b'.mem, Span(top - n, n));
        LastSlot(b.mem, b'.mem, next, step, v, rest);
        if b'.fault.None? {
          SlotsExtend(b'.mem, c, l, step, an, top, k);
        }
      }
    } else if k > 0 {
      StoreDownFills(c, l, step, an, k - 1, b, top);
      SlotsSkip(StoreDown(c, l, step, an, k - 1, b, Wrap(top)).0.mem, c, l, step, an, top, k);
    } else {
      NoSlots(c, l, step, an, top);
    }
  }

  lemma SlotsExtend(m: Bytes, c: Core, l: RegList, step: nat, an: nat, top: int, k: nat)
    requires 0 < k <= 16 && an < 8 && (step == 2 || step == 4) && l[k - 1]
    requires SlotsHold(m, c, l, step, an, top - step, k - 1)
    requires Peek(m, top - step, step) == Stored(c, k - 1, step, an)
    ensures SlotsHold(m, c, l, step, an, top, k)
  {
    hide Peek, Stored;
    forall r | 0 <= r < k && l[r]
      ensures Peek(m, top - Steps(step, Below(l, k) - Below(l, r)), step) == Stored(c, r, step, an)
    {
      assert top - Steps(step, Below(l, k) - Below(l, r)) == (top - step) - Steps(step, Below(l, k - 1) - Below(l, r));
    }
  }

  lemma SlotsSkip(m: Bytes, c: Core, l: RegList, step: nat, an: nat, top: int, k: nat)
    requires 0 < k <= 16 && an < 8 && !l[k - 1]
    ensures SlotsHold(m, c, l, step, an, top, k - 1) ==> SlotsHold(m, c, l, step, an, top, k)
  {
    hide Peek, Stored;
    assert Below(l, k) == Below(l, k - 1);
  }

  lemma NoSlots(c: Core, l: RegList, step: nat, an: nat, top: int)
    requires an < 8
    ensures forall m :: SlotsHold(m, c, l, step, an, top, 0)
  {
  }

  lemma WrapMinus(x: int, n: nat)
    ensures Wrap(Wrap(x) as int - n) == Wrap(x - n)
  {
  }

  lemma Widen(m: Bytes, m': Bytes, a: int, n: nat, k: nat)
    requires SameOutside(m, m', Span(a, n)) && n <= k
    ensures SameOutside(m, m', Span(a, k))
  {
    SpanInside(a, k, a, n);
  }

  /** Later, lower stores do not disturb the slot at next. */
  lemma LastSlot(m: Bytes, m': Bytes, next: int, step: nat, v: nat, rest: nat)
    requires (step == 2 || step == 4) && v < Pow256(step) && rest <= 64
    requires SameOutside(Poke(m, next, step, v), m', Span(next - rest, rest))
    ensures Peek(m', next, step) == v
  {
    hide Peek, Poke;
    PeekPoke(m, next, step, v);
    SpansApart(next - rest, rest, next, step);
    PeekSame(Poke(m, next, step, v), m', next, step);
  }

  // ---- loading back -----------------------------------------------------

  lemma ReadCases(b: Bus, a: int, n: nat)
    requires b.fault.None?
    ensures var (b', v) := Read(b, Wrap(a), n);
            && b' == b.(fault := b'.fault, seen := b'.seen)
            && (b'.fault.None? ==> v == Peek(b.mem, a, n))
  {
    PeekWrap(b.mem, a, n);
  }

  lemma {:induction false} LoadStops(l: RegList, step: nat, k: nat, b: Bus, ea: Long, vals: seq<Long>)
    requires k <= 16 && |vals| == 16 && b.fault.Some?
    ensures LoadUp(l, step, k, b, ea, vals).0 == b
  {
  }

  /** A completed load reads consecutive slots upwards from base. */
  lemma {:induction false} LoadUpReads(l: RegList, step: nat, k: nat, b: Bus, base: int, vals: seq<Long>)
    requires k <= 16 && |vals| == 16 && (step == 2 || step == 4) && b.fault.None?
    ensures var (b', vals', end) := LoadUp(l, step, k, b, Wrap(base + Steps(step, Below(l, k))), vals);
            && b' == b.(fault := b'.fault, seen := b'.seen)
            && (b'.fault.None? ==>
                && end == Wrap(base + Steps(step, Below(l, 16)))
                && forall r :: 0 <= r < 16 ==>
                     vals'[r] == if k <= r && l[r] then Extend(step, Peek(b.mem, base + Steps(step, Below(l, r)), step))
                                 else vals[r])
    decreases 16 - k
  {
    hide Peek, Read, Wrap, Extend;
    if k < 16 && l[k] {
      var at := base + Steps(step, Below(l, k));
      ReadCases(b, at, step);
      var (b1, v) := Read(b, Wrap(at), step);
      WrapTwice(at, step);
      assert Below(l, k + 1) == Below(l, k) + 1;
      assert at + step == base + Steps(step, Below(l, k + 1));
      if b1.fault.None? {
        LoadUpReads(l, step, k + 1, b1, base, vals[k := Extend(step, v)]);
      } else {
        LoadStops(l, step, k + 1, b1, Wrap(at + step), vals[k := Extend(step, v)]);
      }
    } else if k < 16 {
      assert Below(l, k + 1) == Below(l, k);
      LoadUpReads(l, step, k + 1, b, base, vals);
    }
  }

  /** What a register comes back as: itself, or its low word sign-extended. */
  function Restored(step: nat, v: Long): Long {
    if step == 2 then Wrap(S16(v)) else v
  }

  lemma ExtendStored(step: nat, v: Long)
    requires step == 2 || step == 4
    ensures Extend(step, v % Pow256(step)) == Restored(step, v)
  {
    Pow256Values();
  }

  /**
  Saving any register list to -(An) and loading the bit-reversed list from
  (An)+ gives back every listed register and An, also when An is in the list,
  on both models; unlisted registers keep what they had.
  */
  lemma SaveRestore(c: Core, an: nat, step: nat, mask: nat, pc: Long)
    requires an < 8 && (step == 2 || step == 4) && c.bus.fault.None?
    requires Fetch(c, 2, true).1 == mask
    requires var s := MovemStore(c, an, step);
             && s.bus.fault.None?
             && Fetch(s.(pc := pc), 2, true).1 == Reverse(mask, 16)
             && MovemLoad(s.(pc := pc), 3, an, step).bus.fault.None?
    ensures var t := MovemLoad(MovemStore(c, an, step).(pc := pc), 3, an, step);
            var l := ListDown(mask);
            && (forall r :: 0 <= r < 16 && r != 8 + an ==>
                  Reg(t, r) == if l[r] then Restored(step, Reg(c, r)) else Reg(c, r))
            && t.a[an] == c.a[an]
            && t.bus.mem == MovemStore(c, an, step).bus.mem
  {
    hide Peek, Wrap, StoreDown, LoadUp, Read, BitAt, Reverse, ListUp, ListDown, Span, SameOutside, Extend,
         Restored, Below;
    var l, top := ListDown(mask), c.a[an] as int;
    MasksMirror(mask);
    var c1 := Fetch(c, 2, true).0;
    ReadQuiet(c.bus, c.pc, 2);
    WrapLong(top);
    StoreDownFills(c1, l, step, an, 16, c1.bus, top);
    var s := MovemStore(c, an, step).(pc := pc);
    var s1 := Fetch(s, 2, true).0;
    ReadQuiet(s.bus, pc, 2);
    var base := top - Steps(step, Below(l, 16));
    var s2 := CalcEa(s1, 4, 3, an, true).0;
    BelowZero(l);
    LoadUpReads(l, step, 0, s2.bus, base, s2.d + s2.a);
    var t := MovemLoad(s, 3, an, step);
    forall r | 0 <= r < 16 && r != 8 + an
      ensures Reg(t, r) == if l[r] then Restored(step, Reg(c, r)) else Reg(c, r)
    {
      assert base + Steps(step, Below(l, r)) == top - Steps(step, Below(l, 16) - Below(l, r));
      ExtendStored(step, Reg(c, r));
    }
  }

  lemma BelowZero(l: RegList)
    ensures Below(l, 0) == 0
  {
  }

  // ---- faults -----------------------------------------------------------

  /**
  A load that faults commits no register. Only (An)+ moves its An, by four, and
  only once the register mask has been fetched: the address computation comes
  before the first load.
  */
  lemma LoadFault(c: Core, mode: nat, reg: nat, step: nat)
    requires reg < 8 && (step == 2 || step == 4) && c.bus.fault.None? && mode != 4
    ensures var t := MovemLoad(c, mode, reg, step);
            t.bus.fault.Some? ==>
              && t.d == c.d && t.bus.mem == c.bus.mem
              && t.a == (if mode == 3 && !Faults(c.bus, Access(c.pc, 2, false))
                         then c.a[reg := Wrap(c.a[reg] as int + 4)] else c.a)
              && (t.a == c.a <==> mode != 3 || Faults(c.bus, Access(c.pc, 2, false)))
  {
    hide LoadUp, Wrap, Peek, Below, BitAt, FullEa, IndexValue, Span;
    var (c1, mask) := Fetch(c, 2, true);
    ReadQuiet(c.bus, c.pc, 2);
    CalcEaQuiet(c1, 4, mode, reg, true);
    var (c2, ea) := CalcEa(c1, 4, mode, reg, true);
    if c2.bus.fault.Some? {
      LoadStops(ListUp(mask), step, 0, c2.bus, ea, c2.d + c2.a);
    } else {
      BelowZero(ListUp(mask));
      WrapLong(ea);
      LoadUpReads(ListUp(mask), step, 0, c2.bus, ea, c2.d + c2.a);
    }
    FourOn(c.a[reg]);
    assert c.a[reg := Wrap(c.a[reg] as int + 4)][reg] != c.a[reg];
  }

  lemma FourOn(x: Long)
    ensures Wrap(x as int + 4) != x
  {
  }

  /** Hence a load through (An)+ is restarted from the wrong address after every fault of its data. */
  lemma PostincrementLoadNotRestartable(c: Core, reg: nat, step: nat)
    requires reg < 8 && (step == 2 || step == 4) && c.bus.fault.None?
    requires !Faults(c.bus, Access(c.pc, 2, false)) && MovemLoad(c, 3, reg, step).bus.fault.Some?
    ensures MovemLoad(c, 3, reg, step).a != c.a
  {
    hide MovemLoad;
    LoadFault(c, 3, reg, step);
  }

  /** A machine that meets this: MOVEM.L (A0)+,D0 with the long at A0 missing. */
  function MissingLong(): Core {
    var missing := {Access(0x2000, 4, false)};
    Core([0, 0, 0, 0, 0, 0, 0, 0], [0x2000, 0, 0, 0, 0, 0, 0, 0], 0x1000,
         Bus(map[0x1000 := 0, 0x1001 := 1], missing, missing, Supervisor, Supervisor, None, {}), M68030)
  }

  lemma FaultingLoadMovesBase()
    ensures var (c, t) := (MissingLong(), MovemLoad(MissingLong(), 3, 0, 4));
            && c.bus.fault.None? && !Faults(c.bus, Access(c.pc, 2, false))
            && t.bus.fault == Some(Access(0x2000, 4, false)) && t.a[0] == 0x2004
  {
    var c := MissingLong();
    var (c1, mask) := Fetch(c, 2, true);
    assert Peek(c.bus.mem, 0x1000, 0) == 0;
    assert Peek(c.bus.mem, 0x1000, 1) == 0;
    assert mask == 1;
    var (c2, ea) := CalcEa(c1, 4, 3, 0, true);
    assert ea == 0x2000 && c2.a[0] == 0x2004;
    BitStep(1, 0);
    var l := ListUp(mask);
    assert l[0];
    var (b, v) := Read(c2.bus, ea, 4);
    assert b.fault == Some(Access(0x2000, 4, false));
    LoadStops(l, 4, 1, b, Wrap(ea + 4), (c2.d + c2.a)[0 := Extend(4, v)]);
  }

  /** Bytes a store to -(An) will write. */
  function StoreRegion(c: Core, an: nat, step: nat, mask: nat): set<Long>
    requires an < 8
  {
    var n := Steps(step, Below(ListDown(mask), 16));
    Span(c.a[an] as int - n, n)
  }

  /** A faulting store has changed only memory it would write anyway. */
  lemma StoreFault(c: Core, an: nat, step: nat)
    requires an < 8 && (step == 2 || step == 4) && c.bus.fault.None?
    ensures var t := MovemStore(c, an, step);
            t.bus.fault.Some? ==>
              && t.d == c.d && t.a == c.a && t.model == c.model
              && t.bus == c.bus.(mem := t.bus.mem, fault := t.bus.fault, seen := t.bus.seen)
              && SameOutside(c.bus.mem, t.bus.mem, StoreRegion(c, an, step, Peek(c.bus.mem, c.pc, 2)))
  {
    hide StoreDown, Wrap, Peek, Below, BitAt, Span, SameOutside;
    var (c1, mask) := Fetch(c, 2, true);
    SameOutsideSelf(c.bus.mem, StoreRegion(c, an, step, Peek(c.bus.mem, c.pc, 2)));
    if c1.bus.fault.None? {
      WrapLong(c.a[an]);
      StoreDownFills(c1, ListDown(mask), step, an, 16, c1.bus, c.a[an]);
    }
  }

  lemma PokeCovers(m: Bytes, m': Bytes, a: int, n: nat, v: nat, top: int, k: nat, region: set<Long>)
    requires n <= k && a == top - n && SameOutside(m, m', region + Span(top - k, k))
    ensures SameOutside(Poke(m, a, n, v), Poke(m', a, n, v), region + Span(top - k, k - n))
  {
    hide Poke;
    forall x: Long | x !in region + Span(top - k, k - n)
      ensures Get(Poke(m, a, n, v), x) == Get(Poke(m', a, n, v), x)
    {
      if x in Span(top - k, k) {
        SplitSpan(top, n, k, x);
      }
      PokeFixes(m, m', a, n, v, x);
    }
  }

  lemma SplitSpan(top: int, n: nat, k: nat, x: Long)
    requires n <= k && x in Span(top - k, k)
    ensures x in Span(top - k, k - n) || x in Span(top - n, n)
  {
  }

  lemma StepsBelow(l: RegList, step: nat, k: nat)
    requires k <= 16 && (step == 2 || step == 4)
    ensures 0 <= Steps(step, Below(l, k))
    ensures k == 0 ==> Steps(step, Below(l, k)) == 0
    ensures k > 0 ==> Steps(step, Below(l, k)) == Steps(step, Below(l, k - 1)) + if l[k - 1] then step else 0
    ensures k > 0 ==> 0 <= Steps(step, Below(l, k - 1))
  {
  }

  /** One store of the loop, from memories that differ in bytes still to be written. */
  lemma StoreStepCovers(b: Bus, b': Bus, top: int, step: nat, v: nat, n: nat, region: set<Long>)
    requires b' == b.(mem := b'.mem) && b.fault.None? && step <= n
    requires SameOutside(b.mem, b'.mem, region + Span(top - n, n))
    ensures var (t, t') := (Write(b, Wrap(top - step), step, v), Write(b', Wrap(top - step), step, v));
            && t' == t.(mem := t'.mem)
            && (t.fault.None? ==> SameOutside(t.mem, t'.mem, region + Span(top - n, n - step)))
  {
    hide Peek, Poke, Wrap, Span, SameOutside;
    WriteCases(b, top - step, step, v);
    WriteCases(b', top - step, step, v);
    PokeCovers(b.mem, b'.mem, top - step, step, v, top, n, region);
  }

  /** Two runs of the store loop that differ only in bytes it will write end alike. */
  lemma {:induction false} StoreDownCovers(
    c: Core, l: RegList, step: nat, an: nat, k: nat, b: Bus, b': Bus, top: int, region: set<Long>)
    requires k <= 16 && an < 8 && (step == 2 || step == 4) && b' == b.(mem := b'.mem) && b.fault.None?
    requires var n := Steps(step, Below(l, k)); SameOutside(b.mem, b'.mem, region + Span(top - n, n))
    requires StoreDown(c, l, step, an, k, b, Wrap(top)).0.fault.None?
    ensures var (r, r') := (StoreDown(c, l, step, an, k, b, Wrap(top)), StoreDown(c, l, step, an, k, b', Wrap(top)));
            && r'.0 == r.0.(mem := r'.0.mem) && r'.1 == r.1
            && SameOutside(r.0.mem, r'.0.mem, region)
    decreases k
  {
    hide Peek, Write, Wrap, Span, SameOutside, Stored, Below, Steps;
    var n := Steps(step, Below(l, k));
    StepsBelow(l, step, k);
    if k > 0 && l[k - 1] {
      var next, v := top - step, Stored(c, k - 1, step, an);
      WrapMinus(top, step);
      StoreStepCovers(b, b', top, step, v, n, region);
      assert next - Steps(step, Below(l, k - 1)) == top - n;
      var (b1, b1') := (Write(b, Wrap(next), step, v), Write(b', Wrap(next), step, v));
      StoreDownCovers(c, l, step, an, k - 1, b1, b1', next, region);
    } else if k > 0 {
      StoreDownCovers(c, l, step, an, k - 1, b, b', top, region);
    } else {
      EmptySpan(top, region);
    }
  }

  lemma EmptySpan(top: int, region: set<Long>)
    ensures region + Span(top, 0) == region
  {
  }

  /** A completed store, from memories that differ in a dead region and in the bytes to be written. */
  lemma MovemStoreCovers(c: Core, c': Core, an: nat, step: nat, region: set<Long>)
    requires an < 8 && (step == 2 || step == 4) && c.bus.fault.None?
    requires c' == c.(bus := c.bus.(mem := c'.bus.mem))
    requires var mask := Peek(c.bus.mem, c.pc, 2);
             && SameOutside(c.bus.mem, c'.bus.mem, region + StoreRegion(c, an, step, mask))
             && Span(c.pc, 2) !! region + StoreRegion(c, an, step, mask)
    requires MovemStore(c, an, step).bus.fault.None?
    ensures SameCore(MovemStore(c, an, step), MovemStore(c', an, step), region)
  {
    hide StoreDown, Wrap, Peek, Below, BitAt, Span, Poke;
    PeekSame(c.bus.mem, c'.bus.mem, c.pc, 2);
    var (c1, mask) := Fetch(c, 2, true);
    var c1' := Fetch(c', 2, true).0;
    WrapLong(c.a[an]);
    StoreIgnoresBus(c1, c1', ListDown(mask), step, an, 16, c1'.bus, Wrap(c.a[an]));
    StoreDownCovers(c1, ListDown(mask), step, an, 16, c1.bus, c1'.bus, c.a[an], region);
  }

  /** The values stored come from the registers alone. */
  lemma {:induction false} StoreIgnoresBus(c: Core, c': Core, l: RegList, step: nat, an: nat, k: nat, b: Bus, at: Long)
    requires k <= 16 && an < 8 && c' == c.(bus := c'.bus)
    ensures StoreDown(c, l, step, an, k, b, at) == StoreDown(c', l, step, an, k, b, at)
    decreases k
  {
    hide Write, Wrap;
    if k > 0 && b.fault.None? {
      if l[k - 1] {
        var next := Wrap(at as int - step);
        StoreIgnoresBus(c, c', l, step, an, k - 1, Write(b, next, step, Stored(c, k - 1, step, an)), next);
      } else {
        StoreIgnoresBus(c, c', l, step, an, k - 1, b, at);
      }
    }
  }
}
