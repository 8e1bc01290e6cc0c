/**
Why restart excludes a MOVE that indexes its source by the register it loads:
a fault leaves all ones in that register and the retry looks elsewhere. For
every such encoding, brief or full, direct or memory-indirect, there is a
machine on which the retry loads the wrong value.
*/
module SelfIndex {
  import opened Words
  import opened Memory
  import opened Operands
  import opened Bits
  import Nesting
  import opened Restart

  const CODE: Long := 0x1000_0000
  const BASE: Long := 0x2000_0000
  const INDEX: Long := 0x1000

  // ---- the loads --------------------------------------------------------

  function WithFaults(c: Core, f: set<Access>): Core {
    c.(bus := c.bus.(userFaults := f, superFaults := f))
  }

  /** The value a load gets: all ones when the access faults. */
  function Loaded(c: Core, op: nat, ea: Long): nat {
    var size := MoveSize(op);
    if Faults(c.bus, Access(ea, size, false)) then Pow256(size) - 1 else Peek(c.bus.mem, ea, size)
  }

  /** Evaluating the source address reaches ea and leaves the machine as it was but for PC and what was seen. */
  predicate Reaches(c: Core, op: nat, ea: Long) {
    var (c1, e) := CalcEa(c, MoveSize(op), SrcMode(op), SrcReg(op), true);
    e == ea && c1 == c.(pc := c1.pc, bus := c.bus.(seen := c1.bus.seen))
  }

  lemma LoadAt(c: Core, op: nat, ea: Long)
    requires LoadsRegister(op) && c.bus.fault.None? && Reaches(c, op, ea)
    ensures var c' := Move(c, op).0;
            var acc := Access(ea, MoveSize(op), false);
            var r := DstReg(op);
            && c'.d == c.d[r := Merge(c.d[r], MoveSize(op), Loaded(c, op, ea))]
            && c'.bus.fault == (if Faults(c.bus, acc) then Some(acc) else None)
            && c'.bus.mem == c.bus.mem
            && (!AutoStep(SrcMode(op)) ==> c'.a == c.a)
  {
    hide CalcEa, Peek, Merge, MoveSize, SrcReg, DstReg;
  }

  /** The top byte of a number in memory is its first. */
  lemma {:induction false} TopByte(m: Bytes, a: int, n: nat)
    requires n > 0
    ensures Peek(m, a, n) / Pow256(n - 1) == Get(m, Wrap(a))
    decreases n
  {
    hide Get, Wrap;
    if n == 1 {
      assert Peek(m, a, 0) == 0 && Pow256(0) == 1;
    } else {
      TopByte(m, a, n - 1);
      var p, h, l := Pow256(n - 2), Peek(m, a, n - 1), Get(m, Wrap(a + n - 1));
      DropByte(h, l, p);
    }
  }

  lemma DropByte(h: nat, l: Byte, p: nat)
    requires p > 0
    ensures (h * 256 + l) / (256 * p) == h / p
  {
    var q, r := h / p, h % p;
    assert h == p * q + r;
    assert h * 256 + l == (256 * p) * q + (256 * r + l);
    QuotientIs(h * 256 + l, 256 * p, q, 256 * r + l);
  }

  lemma DifferentLoads(x: Long, y: Long, size: nat, v: nat, w: nat)
    requires (size == 1 || size == 2 || size == 4) && v < Pow256(size) && w < Pow256(size) && v != w
    ensures Merge(x, size, v) != Merge(y, size, w)
  {
    MergeLow(x, size, v);
    MergeLow(y, size, w);
  }

  lemma MergeLow(x: Long, size: nat, v: nat)
    requires (size == 1 || size == 2 || size == 4) && v < Pow256(size)
    ensures Merge(x, size, v) % Pow256(size) == v
  {
    hide Pow256, Wrap;
    Pow256Values();
    LowPart(x, Pow256(size), v);
  }

  lemma LowPart(x: Long, p: nat, v: nat)
    requires (p == 0x100 || p == 0x1_0000 || p == 0x1_0000_0000) && v < p
    ensures Wrap(x / p * p + v % p) % p == v
  {
    if p == 0x100 {
      LowByte(x / 0x100, v);
    } else if p == 0x1_0000 {
      LowWord(x / 0x1_0000, v);
    } else {
      assert x / 0x1_0000_0000 == 0;
    }
  }

  lemma LowByte(q: nat, v: nat)
    requires q < 0x100_0000 && v < 0x100
    ensures Wrap(q * 0x100 + v % 0x100) % 0x100 == v
  {
    assert q * 0x100 + v < B32;
  }

  lemma LowWord(q: nat, v: nat)
    requires q < 0x1_0000 && v < 0x1_0000
    ensures Wrap(q * 0x1_0000 + v % 0x1_0000) % 0x1_0000 == v
  {
    assert q * 0x1_0000 + v < B32;
  }

  // ---- addresses --------------------------------------------------------

  /** The index an extension word takes from a data register. */
  function Scaled(ext: nat, x: Long): Long {
    var v := if Bit(ext, 0x800) then x else S16(x);
    var scale := ext / 0x200 % 4;
    if scale == 0 then Wrap(v) else if scale == 1 then Wrap(2 * v) else if scale == 2 then Wrap(4 * v) else Wrap(8 * v)
  }

  predicate IsFull(ext: nat) { Bit(ext, 0x100) }
  predicate PreIndexed(ext: nat) { IsFull(ext) && 1 <= ext % 8 <= 3 }
  predicate PostIndexed(ext: nat) { IsFull(ext) && 5 <= ext % 8 }

  function BaseOf(op: nat, ext: nat): Long {
    if IsFull(ext) && Bit(ext, 0x80) then 0 else if SrcMode(op) == 6 then BASE else CODE
  }

  function Offset(ext: nat): int {
    if IsFull(ext) then 0 else S8(ext)
  }

  /** The source address with zero displacement words, An = BASE, PC = CODE and x in the index register. */
  function Target(m: Bytes, op: nat, ext: nat, x: Long): Long {
    var i := Scaled(ext, x);
    if PreIndexed(ext) then Wrap(Peek(m, Wrap(BaseOf(op, ext) + i), 4))
    else if PostIndexed(ext) then Wrap(Peek(m, BaseOf(op, ext), 4) + i)
    else Wrap(BaseOf(op, ext) + Offset(ext) + i)
  }

  /** Where an indirect form finds its pointer. */
  function PointerAt(op: nat, ext: nat, x: Long): Long {
    if PreIndexed(ext) then Wrap(BaseOf(op, ext) + Scaled(ext, x)) else BaseOf(op, ext)
  }

  lemma {:induction false} PeekZero(m: Bytes, a: int, n: nat)
    requires forall x :: x in Span(a, n) ==> Get(m, x) == 0
    ensures Peek(m, a, n) == 0
  {
    if n > 0 {
      SpanInside(a, n, a, n - 1);
      SpanMember(a, n, n - 1);
      PeekZero(m, a, n - 1);
    }
  }

  /** The words after the extension word are zero. */
  predicate ZeroAfter(m: Bytes) {
    forall x: Long :: CODE + 2 <= x < CODE + 10 ==> Get(m, x) == 0
  }

  /** At most one access faults, and it is none of the instruction's own. */
  predicate OnlyFault(b: Bus, load: Access) {
    && b.userFaults <= {load} && b.superFaults <= {load} && b.fault.None?
    && !(CODE <= load.addr < CODE + 10)
  }

  lemma ZeroWords(m: Bytes, pos: Long)
    requires ZeroAfter(m) && CODE + 2 <= pos <= CODE + 6
    ensures Peek(m, pos, 2) == 0 && Peek(m, pos, 4) == 0
  {
    hide Peek;
    forall x | x in Span(pos, 4) ensures Get(m, x) == 0 {
      assert CODE + 2 <= x < CODE + 10;
    }
    SpanInside(pos, 4, pos, 2);
    PeekZero(m, pos, 2);
    PeekZero(m, pos, 4);
  }

  lemma ZeroDisplacement(b: Bus, load: Access, pos: Long, sel: nat)
    requires ZeroAfter(b.mem) && OnlyFault(b, load) && CODE + 2 <= pos <= CODE + 6
    ensures var (b', v, next) := Displacement(b, pos, sel);
            b' == b.(seen := b'.seen) && v == 0 && pos <= next <= pos + 4
  {
    hide Peek, Span;
    ZeroWords(b.mem, pos);
  }

  lemma IndexIs(c: Core, ext: nat, r: nat)
    requires r < 8 && IndexedBy(ext, r) && c.model.M68030?
    ensures IndexValue(c, ext) == Scaled(ext, c.d[r])
  {
    hide Wrap, S16;
  }

  /** A full extension word with zero displacements. */
  lemma FullTarget(c: Core, op: nat, ext: nat, load: Access)
    requires SelfIndexed(op, ext) && IsFull(ext) && c.model.M68030?
    requires ZeroAfter(c.bus.mem) && OnlyFault(c.bus, load)
    requires PreIndexed(ext) || PostIndexed(ext) ==> load.addr != PointerAt(op, ext, c.d[DstReg(op)])
    ensures var base := if SrcMode(op) == 6 then BASE else CODE;
            var (b, ea, _) := FullEa(c, ext, base, CODE + 2);
            b == c.bus.(seen := b.seen) && ea == Target(c.bus.mem, op, ext, c.d[DstReg(op)])
  {
    hide Peek, Scaled, Displacement, ZeroAfter, IsMove, SrcReg, DstReg, SrcMode, IndexValue;
    IndexIs(c, ext, DstReg(op));
    var x := c.d[DstReg(op)];
    ZeroDisplacement(c.bus, load, CODE + 2, ext / 0x10 % 4);
    var (b1, bd, p1) := Displacement(c.bus, CODE + 2, ext / 0x10 % 4);
    WrapSmall(BaseOf(op, ext));
    if Indirect(ext) {
      var at := PointerAt(op, ext, x);
      var b2 := Read(b1, at, 4).0;
      ZeroDisplacement(b2, load, p1, OuterSelector(ext));
    }
  }

  lemma WrapSmall(x: Long)
    ensures Wrap(x) == x
  {
  }

  /** The whole evaluation of the source address. */
  lemma Evaluates(c: Core, op: nat, ext: nat, load: Access)
    requires SelfIndexed(op, ext) && c.model.M68030? && c.pc == CODE && c.a[SrcReg(op)] == BASE
    requires Peek(c.bus.mem, CODE, 2) == ext && ZeroAfter(c.bus.mem) && OnlyFault(c.bus, load)
    requires PreIndexed(ext) || PostIndexed(ext) ==> load.addr != PointerAt(op, ext, c.d[DstReg(op)])
    ensures Reaches(c, op, Target(c.bus.mem, op, ext, c.d[DstReg(op)]))
  {
    hide Peek, Scaled, ZeroAfter, IsMove, SrcReg, DstReg, FullEa, IndexValue, MoveSize, S8;
    var base := if SrcMode(op) == 6 then BASE else CODE;
    var (c1, e) := Fetch(c, 2, true);
    assert e == ext && c1 == c.(pc := CODE + 2, bus := c.bus.(seen := c1.bus.seen));
    IndexIs(c1, ext, DstReg(op));
    if IsFull(ext) {
      FullTarget(c1, op, ext, load);
    }
  }

  // ---- the machine ------------------------------------------------------

  /** One of three bytes that is neither of two others. */
  function Unlike(a: Byte, b: Byte, c: Byte, hi: Byte, lo: Byte): (r: Byte)
    requires a != b && b != c && a != c
    ensures r != hi && r != lo && (r == a || r == b || r == c)
  {
    if a != hi && a != lo then a else if b != hi && b != lo then b else c
  }

  function Hi(ext: nat): Byte requires ext < 0x1_0000 { ext / 0x100 }
  function Lo(ext: nat): Byte { ext % 0x100 }
  function Mark(ext: nat): Byte requires ext < 0x1_0000 { Unlike(3, 4, 5, Hi(ext), Lo(ext)) }
  function FarMark(ext: nat): Byte requires ext < 0x1_0000 { Unlike(6, 7, 8, Hi(ext), Lo(ext)) }

  function Code(ext: nat): Bytes
    requires ext < 0x1_0000
  {
    map[CODE := Hi(ext), CODE + 1 := Lo(ext)]
  }

  /** The marked byte: the operand itself, or the first byte of a pointer to it. */
  function Spot(op: nat, ext: nat): Long
    requires ext < 0x1_0000
  {
    var i := Scaled(ext, INDEX);
    if PostIndexed(ext) then Wrap((if BaseOf(op, ext) == CODE then ext * 0x1_0000 else 0) + i)
    else Wrap(BaseOf(op, ext) + Offset(ext) + i)
  }

  function Far(ext: nat): Long
    requires ext < 0x1_0000
  {
    Mark(ext) * 0x100_0000
  }

  function Image(op: nat, ext: nat): Bytes
    requires ext < 0x1_0000
  {
    var near := Code(ext)[Spot(op, ext) := Mark(ext)];
    if PreIndexed(ext) then near[Far(ext) := FarMark(ext)] else near
  }

  /** Where the operand is, and the byte it begins with. */
  function Operand(op: nat, ext: nat): Long
    requires ext < 0x1_0000
  {
    if PreIndexed(ext) then Far(ext) else Spot(op, ext)
  }

  function OperandMark(ext: nat): Byte
    requires ext < 0x1_0000
  {
    if PreIndexed(ext) then FarMark(ext) else Mark(ext)
  }

  function Witness(op: nat, ext: nat): Core
    requires ext < 0x1_0000
  {
    Core(seq(8, _ => INDEX), seq(8, _ => BASE), CODE,
         Bus(Image(op, ext), {}, {}, Supervisor, Supervisor, None, {}), M68030)
  }

  lemma IndexRange(ext: nat)
    ensures var i := Scaled(ext, INDEX); i == 0x1000 || i == 0x2000 || i == 0x4000 || i == 0x8000
  {
  }

  /** The register after the faulting load: all ones in the operand's bytes. */
  function Ones(size: nat): Long { Merge(INDEX, size, Pow256(size) - 1) }

  lemma OnesValue(size: nat)
    requires size == 1 || size == 2 || size == 4
    ensures Ones(size) == if size == 1 then 0x10FF else if size == 2 then 0xFFFF else 0xFFFF_FFFF
  {
    Pow256Values();
  }

  lemma IndexMoves(ext: nat, size: nat)
    requires size == 1 || size == 2 || size == 4
    ensures Scaled(ext, Ones(size)) != Scaled(ext, INDEX)
  {
    hide Ones;
    OnesValue(size);
    IndexRange(ext);
  }

  /** s and the three bytes after it keep clear of the code, of both bases and of zero. */
  predicate Clear(s: int) {
    4 <= s && s + 4 <= B32 && (s + 4 <= CODE || CODE + 10 <= s) && (s + 4 <= BASE || BASE + 4 <= s)
  }

  /** The marked byte lies away from everything else. */
  lemma SpotApart(op: nat, ext: nat)
    requires ext < 0x1_0000
    ensures var s := Spot(op, ext);
            && Clear(s)
            && (PreIndexed(ext) ==> s == Wrap(BaseOf(op, ext) + Scaled(ext, INDEX)) && !(s <= Far(ext) < s + 4))
  {
    hide Scaled, Wrap, Far, S8, IsFull;
    IndexRange(ext);
    OffsetRange(ext);
    FarRange(ext);
    var i := Scaled(ext, INDEX);
    if PostIndexed(ext) {
      PageClear(if BaseOf(op, ext) == CODE then ext else 0, i);
    } else {
      NearClear(BaseOf(op, ext), Offset(ext) + i);
      PreOffset(ext);
    }
  }

  lemma PreOffset(ext: nat)
    ensures PreIndexed(ext) ==> Offset(ext) == 0
  {
  }

  lemma PageClear(page: nat, i: nat)
    requires page < 0x1_0000 && 0x1000 <= i <= 0x8000
    ensures Clear(Wrap(page * 0x1_0000 + i))
  {
    hide Wrap;
    var s := page * 0x1_0000 + i;
    WrapSmall(s);
    PageOf(page, i, 0x1000);
    PageOf(page, i, 0x2000);
  }

  /** An address inside a page is away from the start of any page. */
  lemma PageOf(page: nat, i: nat, other: nat)
    requires 0x1000 <= i <= 0x8000
    ensures var s := page * 0x1_0000 + i; s + 4 <= other * 0x1_0000 || other * 0x1_0000 + 10 <= s
  {
    if page < other {
      assert (other - page) * 0x1_0000 >= 0x1_0000;
    } else {
      assert (page - other) * 0x1_0000 >= 0;
    }
  }

  lemma NearClear(b: Long, i: int)
    requires (b == 0 || b == BASE || b == CODE) && 0xF80 <= i <= 0x8080
    ensures Clear(Wrap(b + i)) && Wrap(b + i) == b + i
  {
  }

  lemma FarRange(ext: nat)
    requires ext < 0x1_0000
    ensures 0x300_0000 <= Far(ext) <= 0x500_0000 && Far(ext) == Mark(ext) * 0x100_0000
    ensures Mark(ext) != FarMark(ext) && Mark(ext) != 0 && FarMark(ext) != 0
    ensures Mark(ext) != Hi(ext) && Mark(ext) != Lo(ext) && FarMark(ext) != Hi(ext) && FarMark(ext) != Lo(ext)
  {
  }

  lemma OffsetRange(ext: nat)
    ensures -0x80 <= Offset(ext) < 0x80
  {
  }

  // ---- what the machine holds -------------------------------------------

  lemma ImageBytes(op: nat, ext: nat, x: Long)
    requires ext < 0x1_0000
    ensures Get(Image(op, ext), x)
         == if PreIndexed(ext) && x == Far(ext) then FarMark(ext)
            else if x == Spot(op, ext) then Mark(ext)
            else if x == CODE then Hi(ext) else if x == CODE + 1 then Lo(ext) else 0
  {
    hide Spot, Mark, FarMark;
  }

  lemma FourBytes(m: Bytes, a: int)
    ensures Peek(m, a, 2) == Get(m, Wrap(a)) * 0x100 + Get(m, Wrap(a + 1))
    ensures Peek(m, a, 4) == Peek(m, a, 2) * 0x1_0000 + Get(m, Wrap(a + 2)) * 0x100 + Get(m, Wrap(a + 3))
  {
    hide Get, Wrap;
    assert Peek(m, a, 0) == 0;
    assert Peek(m, a, 1) == Get(m, Wrap(a + 0));
    assert Peek(m, a, 3) == Peek(m, a, 2) * 256 + Get(m, Wrap(a + 2));
  }

  lemma CodeHeld(op: nat, ext: nat)
    requires ext < 0x1_0000
    ensures Peek(Image(op, ext), CODE, 2) == ext && ZeroAfter(Image(op, ext))
    ensures Peek(Image(op, ext), CODE, 4) == ext * 0x1_0000
  {
    hide Image, Spot, Far, Peek, Get, Mark, FarMark;
    var m := Image(op, ext);
    SpotApart(op, ext);
    FarRange(ext);
    FourBytes(m, CODE);
    forall x: Long | CODE <= x < CODE + 10
      ensures Get(m, x) == if x == CODE then Hi(ext) else if x == CODE + 1 then Lo(ext) else 0
    {
      ImageBytes(op, ext, x);
    }
  }

  /** The pointer of the postindexed form, from any of the three bases. */
  lemma PointerHeld(op: nat, ext: nat)
    requires ext < 0x1_0000 && PostIndexed(ext)
    ensures Peek(Image(op, ext), BaseOf(op, ext), 4) == if BaseOf(op, ext) == CODE then ext * 0x1_0000 else 0
  {
    hide Image, Spot, Far, Peek, Get, Mark, FarMark;
    var (m, b) := (Image(op, ext), BaseOf(op, ext));
    CodeHeld(op, ext);
    if b != CODE {
      SpotApart(op, ext);
      FourBytes(m, b);
      forall x: Long | b <= x < b + 4 ensures Get(m, x) == 0 {
        ImageBytes(op, ext, x);
      }
    }
  }

  /** The undisturbed run finds the marked operand. */
  lemma FirstTarget(op: nat, ext: nat)
    requires ext < 0x1_0000
    ensures Target(Image(op, ext), op, ext, INDEX) == Operand(op, ext)
    ensures Get(Image(op, ext), Operand(op, ext)) == OperandMark(ext)
  {
    hide Image, Far, Peek, Get, Mark, FarMark, Scaled, Wrap;
    ImageBytes(op, ext, Operand(op, ext));
    FarRange(ext);
    WrapSmall(Far(ext));
    if PreIndexed(ext) {
      FarPointer(op, ext);
    } else if PostIndexed(ext) {
      PointerHeld(op, ext);
    }
  }

  lemma FarPointer(op: nat, ext: nat)
    requires ext < 0x1_0000 && PreIndexed(ext)
    ensures Peek(Image(op, ext), Wrap(BaseOf(op, ext) + Scaled(ext, INDEX)), 4) == Far(ext)
  {
    hide Image, Far, Peek, Get, Mark, FarMark, Scaled, Wrap, Spot, PreIndexed, BaseOf;
    var (m, s) := (Image(op, ext), Spot(op, ext));
    SpotApart(op, ext);
    FarRange(ext);
    FourBytes(m, s);
    WrapNear(s);
    forall x: Long | s <= x < s + 4 ensures Get(m, x) == if x == s then Mark(ext) else 0 {
      ImageBytes(op, ext, x);
    }
    var k: int := s;
    assert Get(m, k + 1) == 0 && Get(m, k + 2) == 0 && Get(m, k + 3) == 0;
  }

  lemma WrapNear(s: Long)
    requires s + 4 <= B32
    ensures var k: int := s; Wrap(k) == k && Wrap(k + 1) == k + 1 && Wrap(k + 2) == k + 2 && Wrap(k + 3) == k + 3
  {
  }

  /** With another index the retry finds something else. */
  lemma OtherTarget(op: nat, ext: nat, x: Long)
    requires ext < 0x1_0000 && Scaled(ext, x) != Scaled(ext, INDEX)
    ensures Get(Image(op, ext), Target(Image(op, ext), op, ext, x)) != OperandMark(ext)
  {
    hide Image, Far, Peek, Get, Mark, FarMark, Scaled;
    var m := Image(op, ext);
    var ea := Target(m, op, ext, x);
    FarRange(ext);
    ImageBytes(op, ext, ea);
    SpotApart(op, ext);
    if PreIndexed(ext) {
      var slot := Wrap(BaseOf(op, ext) + Scaled(ext, x));
      ShiftedApart(BaseOf(op, ext), Scaled(ext, x), Scaled(ext, INDEX));
      ImageBytes(op, ext, slot);
      FourBytes(m, slot);
      WrapSmall(slot);
      var k: int := slot;
      TopDiffers(Get(m, slot), Get(m, Wrap(k + 1)), Get(m, Wrap(k + 2)), Get(m, Wrap(k + 3)), Mark(ext));
    } else if PostIndexed(ext) {
      PointerHeld(op, ext);
      ShiftedApart(Peek(m, BaseOf(op, ext), 4), Scaled(ext, x), Scaled(ext, INDEX));
    } else {
      ShiftedApart(BaseOf(op, ext) + Offset(ext), Scaled(ext, x), Scaled(ext, INDEX));
    }
  }

  lemma ShiftedApart(b: int, i: Long, j: Long)
    requires i != j
    ensures Wrap(b + i) != Wrap(b + j)
  {
  }

  lemma TopDiffers(a: Byte, b: Byte, c: Byte, d: Byte, mark: Byte)
    requires a != mark
    ensures Wrap((a * 0x100 + b) * 0x1_0000 + c * 0x100 + d) != mark * 0x100_0000
  {
  }

  // ---- the failure ------------------------------------------------------

  /** On any machine of this shape the operand loaded is the one at the target. */
  lemma RunsTo(c: Core, op: nat, ext: nat, load: Access)
    requires ext < 0x1_0000 && SelfIndexed(op, ext) && c.model.M68030? && c.pc == CODE && c.a[SrcReg(op)] == BASE
    requires c.bus.mem == Image(op, ext) && OnlyFault(c.bus, load)
    requires PreIndexed(ext) || PostIndexed(ext) ==> load.addr != PointerAt(op, ext, c.d[DstReg(op)])
    ensures var ea := Target(c.bus.mem, op, ext, c.d[DstReg(op)]);
            var c' := Move(c, op).0;
            var acc := Access(ea, MoveSize(op), false);
            var r := DstReg(op);
            && c'.d == c.d[r := Merge(c.d[r], MoveSize(op), Loaded(c, op, ea))]
            && c'.bus.fault == (if Faults(c.bus, acc) then Some(acc) else None)
            && c'.a == c.a && c'.bus.mem == c.bus.mem
  {
    hide Image, Peek, Target, Move, Merge, MoveSize, SrcReg, DstReg, Reaches, ZeroAfter, Loaded;
    CodeHeld(op, ext);
    Evaluates(c, op, ext, load);
    LoadAt(c, op, Target(c.bus.mem, op, ext, c.d[DstReg(op)]));
  }

  /** The operand is away from everything else the instruction reads. */
  lemma OperandApart(op: nat, ext: nat)
    requires ext < 0x1_0000
    ensures !(CODE <= Operand(op, ext) < CODE + 10)
    ensures PreIndexed(ext) || PostIndexed(ext) ==> Operand(op, ext) != PointerAt(op, ext, INDEX)
  {
    hide Spot, Far, Mark, Scaled;
    SpotApart(op, ext);
    FarRange(ext);
  }

  /**
  For every self-indexed encoding there is a machine on which the restart goes
  wrong: the load faults, nothing but the register is left changed, and the
  retry with every page present loads another value than an undisturbed run.
  */
  lemma SelfIndexedFails(op: nat, ext: nat)
    requires ext < 0x1_0000 && SelfIndexed(op, ext)
    ensures var c := Witness(op, ext);
            var load := Access(Operand(op, ext), MoveSize(op), false);
            var once := Move(c, op).0;
            var faulted := Move(WithFaults(c, {load}), op).0;
            var retried := Move(c.(d := faulted.d), op).0;
            && Peek(c.bus.mem, c.pc, 2) == ext
            && faulted.bus.fault == Some(load) && faulted.a == c.a && faulted.bus.mem == c.bus.mem
            && once.bus.fault.None? && retried.bus.fault.None? && retried.d != once.d
  {
    hide Image, Peek, Target, Move, Merge, MoveSize, SrcReg, DstReg, Operand, OperandMark, Scaled, SelfIndexed,
         PointerAt, Loaded, Get;
    var c := Witness(op, ext);
    var (size, r) := (MoveSize(op), DstReg(op));
    var load := Access(Operand(op, ext), size, false);
    MoveSizes(op);
    CodeHeld(op, ext);
    OperandApart(op, ext);
    FirstTarget(op, ext);
    RunsTo(c, op, ext, load);
    RunsTo(WithFaults(c, {load}), op, ext, load);
    var faulted := Move(WithFaults(c, {load}), op).0;
    AllOnes(WithFaults(c, {load}), op, Operand(op, ext));
    var x := Ones(size);
    assert faulted.d == c.d[r := x];
    IndexMoves(ext, size);
    OtherTarget(op, ext, x);
    var c2 := c.(d := faulted.d);
    var none := NoLoad(PointerAt(op, ext, x));
    RunsTo(c2, op, ext, none);
    TwoLoads(c, c2, op, ext, x);
    var (e1, e2) := (Operand(op, ext), Target(Image(op, ext), op, ext, x));
    assert Move(c, op).0.d[r] == Merge(c.d[r], size, Loaded(c, op, e1));
    assert Move(c2, op).0.d[r] == Merge(c2.d[r], size, Loaded(c2, op, e2));
  }

  /** An access that is none of the instruction's. */
  function NoLoad(at: Long): Access { Access(if at == 0 then 4 else 0, 0, false) }

  lemma AllOnes(c: Core, op: nat, ea: Long)
    requires Faults(c.bus, Access(ea, MoveSize(op), false)) && c.d[DstReg(op)] == INDEX
    ensures Merge(c.d[DstReg(op)], MoveSize(op), Loaded(c, op, ea)) == Ones(MoveSize(op))
  {
  }

  /** The two loads differ in their first byte, so in the register. */
  lemma TwoLoads(c: Core, c2: Core, op: nat, ext: nat, x: Long)
    requires ext < 0x1_0000 && c.bus.mem == Image(op, ext) && c2.bus == c.bus
    requires c.bus.userFaults == {} && c.bus.superFaults == {}
    requires Get(Image(op, ext), Target(Image(op, ext), op, ext, x)) != OperandMark(ext)
    ensures var (e1, e2) := (Operand(op, ext), Target(Image(op, ext), op, ext, x));
            forall a: Long, b: Long ::
              Merge(a, MoveSize(op), Loaded(c, op, e1)) != Merge(b, MoveSize(op), Loaded(c2, op, e2))
  {
    hide Image, Peek, Target, Merge, MoveSize, Operand, OperandMark, Get;
    MoveSizes(op);
    FirstTarget(op, ext);
    var (e1, e2, size) := (Operand(op, ext), Target(Image(op, ext), op, ext, x), MoveSize(op));
    TopByte(c.bus.mem, e1, size);
    TopByte(c.bus.mem, e2, size);
    WrapSmall(e1);
    WrapSmall(e2);
    forall a: Long, b: Long ensures Merge(a, size, Loaded(c, op, e1)) != Merge(b, size, Loaded(c2, op, e2)) {
      DifferentLoads(a, b, size, Loaded(c, op, e1), Loaded(c2, op, e2));
    }
  }

  // ---- the exact condition ----------------------------------------------

  /** A load with every page present: the machine after it and the value, which sets the flags. */
  function Once(c: Core, op: nat): (Core, nat) { Move(WithFaults(c, {}), op) }

  /** The same with some pages missing, and again afterwards with all of them. */
  function Faulted(c: Core, op: nat, f: set<Access>): Core { Move(WithFaults(c, f), op).0 }
  function Retried(c: Core, op: nat, f: set<Access>): (Core, nat) { Once(c.(d := Faulted(c, op, f).d), op) }

  /** The machines an encoding can meet. */
  predicate Holding(c: Core, ext: nat) {
    c.model.M68030? && c.bus.fault.None? && Peek(c.bus.mem, c.pc, 2) == ext
  }

  /**
  Whatever faulted, only the register has changed, and the retry ends with the
  registers, program counter, memory and moved value of one run.
  */
  ghost predicate RestartsEverywhere(op: nat, ext: nat) {
    forall c: Core, f: set<Access> :: Holding(c, ext) && Faulted(c, op, f).bus.fault.Some? ==>
      && Faulted(c, op, f).a == c.a && Faulted(c, op, f).bus.mem == c.bus.mem
      && Retried(c, op, f) == Once(c, op)
  }

  /**
  The exact condition: MOVE from memory to a data register restarts as one
  undisturbed run on every machine if and only if the register it loads does
  not index its source.
  */
  lemma ExactlySelfIndexed(op: nat, ext: nat)
    requires LoadsRegister(op) && ext < 0x1_0000
    ensures RestartsEverywhere(op, ext) <==> !SelfIndexed(op, ext)
  {
    hide Move, Peek, SelfIndexed, Image, Operand, MoveSize;
    if SelfIndexed(op, ext) {
      var c := Witness(op, ext);
      var f := {Access(Operand(op, ext), MoveSize(op), false)};
      SelfIndexedFails(op, ext);
      Unfaulted(c);
      Unfaulted(c.(d := Faulted(c, op, f).d));
      assert Holding(c, ext) && Faulted(c, op, f).bus.fault.Some?;
      assert Retried(c, op, f).0.d != Once(c, op).0.d;
    } else {
      forall c: Core, f: set<Access> | Holding(c, ext) && Faulted(c, op, f).bus.fault.Some?
        ensures && Faulted(c, op, f).a == c.a && Faulted(c, op, f).bus.mem == c.bus.mem
                && Retried(c, op, f) == Once(c, op)
      {
        OtherwiseSafe(c, op, ext, f);
      }
    }
  }

  lemma Unfaulted(c: Core)
    ensures c.bus.userFaults == {} && c.bus.superFaults == {} ==> WithFaults(c, {}) == c
  {
  }

  lemma OtherwiseSafe(c: Core, op: nat, ext: nat, f: set<Access>)
    requires LoadsRegister(op) && !SelfIndexed(op, ext) && Holding(c, ext) && Faulted(c, op, f).bus.fault.Some?
    ensures Faulted(c, op, f).a == c.a && Faulted(c, op, f).bus.mem == c.bus.mem
    ensures Retried(c, op, f) == Once(c, op)
  {
    hide Move, Peek, SelfIndexed, RegistersKept, IsMove;
    MoveUndone(WithFaults(c, f), op);
    var c0 := WithFaults(c, {});
    NothingFaults(c0, op);
    var c' := WithFaults(c.(d := Faulted(c, op, f).d), {});
    NoRegion(c0, op);
    LoadSame(c0, c', op, {});
    MoveLoadUndone(c0, op);
    MoveLoadUndone(c', op);
  }

  lemma NoRegion(c: Core, op: nat)
    ensures Move(c, op).0.bus.seen !! {} && forall m: Bytes :: Nesting.SameOutside(m, m, {})
  {
  }

  /** Without missing pages nothing faults. */
  lemma NothingFaults(c: Core, op: nat)
    requires c.bus.userFaults == {} && c.bus.superFaults == {} && c.bus.fault.None? && LoadsRegister(op)
    ensures Move(c, op).0.bus.fault.None?
  {
    hide ReadEa, MoveSize, SrcReg, SrcMode, DstReg, Merge;
    ReadEaFree(c, MoveSize(op), SrcMode(op), SrcReg(op), true);
  }

  predicate Free(b: Bus) { b.userFaults == {} && b.superFaults == {} && b.fault.None? }

  lemma ReadEaFree(c: Core, size: nat, mode: nat, reg: nat, inc: bool)
    requires reg < 8 && Free(c.bus)
    ensures Free(ReadEa(c, size, mode, reg, inc).0.bus)
  {
    hide FullEa, IndexValue, Wrap, Peek, Span, S8, S16;
    var (c1, ext) := Fetch(c, 2, inc);
    FullEaFree(c1, ext, c.a[reg], Wrap(c.pc + 2));
    FullEaFree(c1, ext, c.pc, Wrap(c.pc + 2));
  }

  lemma FullEaFree(c: Core, ext: nat, base: Long, pos: Long)
    requires Free(c.bus)
    ensures Free(FullEa(c, ext, base, pos).0)
  {
    hide IndexValue, Wrap, Peek, Span, S16, Bit;
  }

  // ---- one instance -----------------------------------------------------

  /**
  With a data register as destination nothing is rolled back: MOVE.L
  (0,A0,D0.L),D0 whose load faults leaves all ones in D0, and the retry then
  indexes by them. It ends as an undisturbed run would only if the long at
  A0-1 happens to equal the one at A0+D0.
  */
  lemma IndexedLoadRestart(c: Core)
    requires c.bus.fault.None? && Peek(c.bus.mem, c.pc, 2) == 0x0800
    requires Wrap(c.a[0] as int + c.d[0]) != c.pc
    ensures var load := Access(Wrap(c.a[0] as int + c.d[0]), 4, false);
            var once := Move(WithFaults(c, {}), 0x2030).0;
            var faulted := Move(WithFaults(c, {load}), 0x2030).0;
            var retried := Move(WithFaults(c.(d := faulted.d), {}), 0x2030).0;
            && faulted.bus.fault == Some(load) && faulted.d == c.d[0 := 0xFFFF_FFFF]
            && once.d == c.d[0 := Peek(c.bus.mem, Wrap(c.a[0] as int + c.d[0]), 4)]
            && retried.d == c.d[0 := Peek(c.bus.mem, Wrap(c.a[0] as int - 1), 4)]
            && (retried.d == once.d <==>
                Peek(c.bus.mem, Wrap(c.a[0] as int - 1), 4) == Peek(c.bus.mem, Wrap(c.a[0] as int + c.d[0]), 4))
  {
    hide Move, Peek, Wrap;
    Pow256Values();
    WrapFacts(c.a[0], c.d[0]);
    LoadIndexed(WithFaults(c, {}));
    var load := Access(Wrap(c.a[0] as int + c.d[0]), 4, false);
    LoadIndexed(WithFaults(c, {load}));
    var faulted := Move(WithFaults(c, {load}), 0x2030).0;
    LoadIndexed(WithFaults(c.(d := faulted.d), {}));
    var x, y := Peek(c.bus.mem, Wrap(c.a[0] as int - 1), 4), Peek(c.bus.mem, Wrap(c.a[0] as int + c.d[0]), 4);
    assert c.d[0 := x][0] == x && c.d[0 := y][0] == y;
  }

  lemma WrapFacts(a: Long, d: Long)
    ensures Wrap(a + 0xFFFF_FFFF) == Wrap(a - 1) && Wrap(d) == d
  {
  }

  lemma LoadIndexed(c: Core)
    requires c.bus.fault.None? && Peek(c.bus.mem, c.pc, 2) == 0x0800
    requires !Faults(c.bus, Access(c.pc, 2, false))
    ensures var (c', v) := Move(c, 0x2030);
            var ea := Wrap(c.a[0] as int + c.d[0]);
            && v < B32 && c'.d == c.d[0 := v]
            && (if Faults(c.bus, Access(ea, 4, false))
                then v == 0xFFFF_FFFF && c'.bus.fault == Some(Access(ea, 4, false))
                else v == Peek(c.bus.mem, ea, 4))
  {
    hide Peek, IndexedEa, Wrap, Merge;
    Pow256Values();
    assert SrcMode(0x2030) == 6 && SrcReg(0x2030) == 0 && DstMode(0x2030) == 0 && DstReg(0x2030) == 0;
    assert MoveSize(0x2030) == 4;
    BriefIndex(c);
    MergeLong(c.d[0], Move(c, 0x2030).1);
  }

  lemma BriefIndex(c: Core)
    requires c.bus.fault.None? && Peek(c.bus.mem, c.pc, 2) == 0x0800
    requires !Faults(c.bus, Access(c.pc, 2, false))
    ensures var (c', ea) := IndexedEa(c, c.a[0], true);
            c' == c.(pc := c'.pc, bus := c.bus.(seen := c'.bus.seen)) && ea == Wrap(c.a[0] as int + c.d[0])
  {
    hide Peek;
    var (c1, ext) := Fetch(c, 2, true);
    assert ext == 0x0800;
    WrapFacts(c.a[0], c.d[0]);
    assert IndexValue(c1, 0x0800) == Wrap(c.d[0]);
  }

  lemma MergeLong(old_: Long, v: nat)
    requires v < B32
    ensures Merge(old_, 4, v) == v
  {
    Pow256Values();
  }
}
