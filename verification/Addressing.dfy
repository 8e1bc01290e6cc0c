/**
What an operand is, read off the registers and the words of the instruction:
the address each addressing mode names, the bytes it takes in the instruction
stream, and the value found there. The operand routines of the execution core
compute these, and MOVE moves the one operand to the other.
*/
module Addressing {
  import opened Words
  import opened Memory
  import opened Operands
  import opened Nesting

  // ---- addresses --------------------------------------------------------

  /** A two's-complement number whose sign bit has weight `half`. */
  function SignedBy(half: nat, v: nat): int {
    if v < half then v else v - 2 * half
  }

  /** The index an extension word names: 0-7 are D0-D7, 8-15 A0-A7; scaled except on the 68000. */
  function Index(c: Core, ext: nat): int
    requires ext < 0x1_0000
  {
    var r := ext / 0x1000;
    var reg := if r < 8 then c.d[r] else c.a[r - 8];
    var v := if ext / 0x800 % 2 == 1 then reg else SignedBy(0x8000, reg % 0x1_0000);
    if c.model.M68000? then v
    else match ext / 0x200 % 4
         case 0 => v
         case 1 => 2 * v
         case 2 => 4 * v
         case _ => 8 * v
  }

  /** A displacement in the instruction stream: size code 2 is a word, 3 a long. */
  function OffsetAt(m: Bytes, at: int, code: nat): int {
    match code
    case 2 => SignedBy(0x8000, Peek(m, at, 2))
    case 3 => Peek(m, at, 4)
    case _ => 0
  }

  function OffsetBytes(code: nat): nat {
    match code
    case 2 => 2
    case 3 => 4
    case _ => 0
  }

  /** The word at an address, as an extension word. */
  function Word(m: Bytes, at: int): (w: nat)
    ensures w < 0x1_0000
  {
    Pow256Values();
    Peek(m, at, 2)
  }

  /** The full format, on the 68030 only. */
  predicate FullFormat(model: Model, ext: nat) {
    model.M68030? && ext / 0x100 % 2 == 1
  }

  /** Memory indirection: a non-null low field, whose upper half asks for an index after the pointer. */
  predicate ThroughMemory(ext: nat) {
    ext % 4 != 0 && (ext / 4 % 2 == 1 ==> ext / 0x40 % 2 == 0)
  }

  /** Address of an indexed operand whose extension word is at `at`; bits 7 and 6 suppress base and index. */
  function IndexedAddress(c: Core, at: int, base: int): int {
    var (m, ext) := (c.bus.mem, Word(c.bus.mem, at));
    if !FullFormat(c.model, ext) then base + SignedBy(0x80, ext % 0x100) + Index(c, ext)
    else
      var b := if ext / 0x80 % 2 == 1 then 0 else base;
      var x := if ext / 0x40 % 2 == 1 then 0 else Index(c, ext);
      var bd := OffsetAt(m, at + 2, ext / 0x10 % 4);
      var od := OffsetAt(m, at + 2 + OffsetBytes(ext / 0x10 % 4), ext % 4);
      if !ThroughMemory(ext) then b + bd + x
      else if ext / 4 % 2 == 0 then Peek(m, b + bd + x, 4) + od
      else Peek(m, b + bd, 4) + x + od
  }

  /** Bytes of an indexed operand in the instruction stream. */
  function IndexedBytes(c: Core, at: int): nat {
    var ext := Word(c.bus.mem, at);
    if !FullFormat(c.model, ext) then 2
    else 2 + OffsetBytes(ext / 0x10 % 4) + if ThroughMemory(ext) then OffsetBytes(ext % 4) else 0
  }

  /** A byte operand of (A7)+ or -(A7) takes two. */
  function Stride(size: nat, reg: nat): nat {
    if size == 1 && reg == 7 then 2 else size
  }

  /** Memory operands of an instruction: (An) to (d8,An,Xn) and the five forms of mode 7. */
  predicate IsMemoryMode(mode: nat, reg: nat) {
    reg < 8 && (2 <= mode <= 6 || (mode == 7 && reg <= 4))
  }

  /** The address an operand names, modulo 2^32; its extension words start at PC. */
  function Address(c: Core, size: nat, mode: nat, reg: nat): int
    requires reg < 8
  {
    var (m, pc) := (c.bus.mem, c.pc);
    match mode
    case 2 => c.a[reg]
    case 3 => c.a[reg]
    case 4 => c.a[reg] - Stride(size, reg)
    case 5 => c.a[reg] + SignedBy(0x8000, Peek(m, pc, 2))
    case 6 => IndexedAddress(c, pc, c.a[reg])
    case _ =>
      match reg {
        case 0 => SignedBy(0x8000, Peek(m, pc, 2))
        case 1 => Peek(m, pc, 4)
        case 2 => pc + SignedBy(0x8000, Peek(m, pc, 2))
        case 3 => IndexedAddress(c, pc, pc)
        case _ => if size == 1 then pc + 1 else pc
      }
  }

  /** Bytes the operand takes in the instruction stream. */
  function ExtensionBytes(c: Core, size: nat, mode: nat, reg: nat): nat {
    match mode
    case 5 => 2
    case 6 => IndexedBytes(c, c.pc)
    case 7 =>
      match reg {
        case 1 => 4
        case 3 => IndexedBytes(c, c.pc)
        case 4 => if size == 4 then 4 else 2
        case _ => 2
      }
    case _ => 0
  }

  /** Registers and PC once the operand has been used: (An)+ and -(An) step, PC is past the words. */
  function Past(c: Core, size: nat, mode: nat, reg: nat): Core
    requires reg < 8
  {
    var a := if mode == 3 then c.a[reg := Wrap(c.a[reg] + Stride(size, reg))]
             else if mode == 4 then c.a[reg := Wrap(c.a[reg] - Stride(size, reg))]
             else c.a;
    c.(a := a, pc := Wrap(c.pc + ExtensionBytes(c, size, mode, reg)))
  }

  /** The operand itself: the low bytes of a register, the immediate word or long, or the bytes addressed. */
  function OperandValue(c: Core, size: nat, mode: nat, reg: nat): nat
    requires reg < 8
  {
    if mode == 0 then c.d[reg] % Pow256(size)
    else if mode == 1 then c.a[reg] % Pow256(size)
    else if mode == 7 && reg == 4 && size == 1 then Peek(c.bus.mem, c.pc, 2) % 0x100
    else Peek(c.bus.mem, Address(c, size, mode, reg), size)
  }

  // ---- the routines compute them ----------------------------------------

  lemma IndexIs(c: Core, ext: nat)
    requires ext < 0x1_0000
    ensures IndexValue(c, ext) == Wrap(Index(c, ext))
  {
    hide Wrap;
    IndexRegister(ext);
  }

  lemma IndexRegister(ext: nat)
    requires ext < 0x1_0000
    ensures var r := ext / 0x1000; Bit(ext, 0x8000) == (r >= 8) && ext / 0x1000 % 8 == if r < 8 then r else r - 8
  {
    assert ext / 0x8000 == ext / 0x1000 / 8;
  }

  /** A read that did not fault gives the bytes there. */
  lemma ReadIs(b: Bus, a: int, n: nat)
    requires b.fault.None? && Read(b, Wrap(a), n).0.fault.None?
    ensures Read(b, Wrap(a), n).1 == Peek(b.mem, a, n)
  {
    PeekWrap(b.mem, a, n);
  }

  lemma OffsetIs(b: Bus, at: int, code: nat)
    requires b.fault.None? && Displacement(b, Wrap(at), code).0.fault.None?
    ensures var (b', v, next) := Displacement(b, Wrap(at), code);
            v == OffsetAt(b.mem, at, code) && next == Wrap(at + OffsetBytes(code)) && b'.mem == b.mem
  {
    hide Read, Peek, Wrap;
    WrapTwice(at, 2);
    WrapTwice(at, 4);
    Pow256Values();
    if code == 2 {
      ReadIs(b, at, 2);
      ReadQuiet(b, Wrap(at), 2);
      SignedWord(Peek(b.mem, at, 2));
    } else if code == 3 {
      ReadIs(b, at, 4);
      ReadQuiet(b, Wrap(at), 4);
    }
  }

  lemma SignedWord(v: nat)
    requires v < 0x1_0000
    ensures S16(v) == SignedBy(0x8000, v)
  {
  }

  lemma SignedByte(v: nat)
    ensures S8(v) == SignedBy(0x80, v % 0x100)
  {
  }

  lemma FullFields(ext: nat)
    requires ext < 0x1_0000
    ensures Bit(ext, 0x100) == (ext / 0x100 % 2 == 1) && Bit(ext, 0x80) == (ext / 0x80 % 2 == 1)
    ensures Bit(ext, 0x40) == (ext / 0x40 % 2 == 1)
    ensures Indirect(ext) == ThroughMemory(ext)
    ensures ThroughMemory(ext) ==> OuterSelector(ext) == ext % 4 && (ext % 8 >= 5) == (ext / 4 % 2 == 1)
  {
    assert ext == 4 * (ext / 4) + ext % 4 && ext / 4 == 2 * (ext / 8) + ext / 4 % 2;
  }

  lemma FullIs(c: Core, at: int, base: Long)
    requires var (ext, pos) := (Word(c.bus.mem, at), Wrap(at + 2));
             && c.bus.fault.None? && FullFormat(c.model, ext) && FullEa(c, ext, base, pos).0.fault.None?
    ensures var (b, ea, pos) := FullEa(c, Word(c.bus.mem, at), base, Wrap(at + 2));
            ea == Wrap(IndexedAddress(c, at, base)) && pos == Wrap(at + IndexedBytes(c, at))
  {
    hide Read, Peek, Wrap, IndexValue, Index, Displacement, OffsetAt, OffsetBytes, Word, Bit, OuterSelector, Indirect,
         ThroughMemory;
    var (m, ext) := (c.bus.mem, Word(c.bus.mem, at));
    FullFields(ext);
    IndexIs(c, ext);
    var b := if Bit(ext, 0x80) then 0 else base as int;
    var x := if Bit(ext, 0x40) then 0 else Index(c, ext);
    var v := if Bit(ext, 0x40) then 0 else IndexValue(c, ext);
    DisplacementQuiet(c.bus, Wrap(at + 2), ext / 0x10 % 4);
    var (b1, bd, p1) := Displacement(c.bus, Wrap(at + 2), ext / 0x10 % 4);
    if Indirect(ext) {
      var post := ext % 8 >= 5;
      var ptr := Wrap(b + bd + if post then 0 else v);
      ReadQuiet(b1, ptr, 4);
      var b2 := Read(b1, ptr, 4).0;
      DisplacementQuiet(b2, p1, OuterSelector(ext));
      OffsetIs(c.bus, at + 2, ext / 0x10 % 4);
      SumWraps(b + bd, x, v);
      ReadIs(b1, b + bd + if post then 0 else x, 4);
      OffsetIs(b2, at + 2 + OffsetBytes(ext / 0x10 % 4), ext % 4);
      SumWraps(Read(b1, ptr, 4).1 + OffsetAt(m, at + 2 + OffsetBytes(ext / 0x10 % 4), ext % 4), x, v);
    } else {
      OffsetIs(c.bus, at + 2, ext / 0x10 % 4);
      SumWraps(b + bd, x, v);
    }
  }

  /** Reducing an index first does not matter. */
  lemma SumWraps(y: int, x: int, v: int)
    requires v == Wrap(x) || v == x
    ensures Wrap(y + v) == Wrap(y + x)
  {
  }

  lemma IndexedIs(c: Core, base: Long)
    requires c.bus.fault.None? && IndexedEa(c, base, true).0.bus.fault.None?
    ensures var (t, ea) := IndexedEa(c, base, true);
            ea == Wrap(IndexedAddress(c, c.pc, base)) && t.pc == Wrap(c.pc + IndexedBytes(c, c.pc))
  {
    hide Read, Peek, Wrap, IndexValue, Index, FullEa, S8, Bit, OffsetAt, OffsetBytes, ThroughMemory;
    Pow256Values();
    var (c1, ext) := Fetch(c, 2, true);
    ReadQuiet(c.bus, c.pc, 2);
    WrapLong(c.pc);
    FullEaQuiet(c1, ext, base, Wrap(c.pc + 2));
    ReadIs(c.bus, c.pc, 2);
    FullFields(ext);
    if Bit(ext, 0x100) && c.model.M68030? {
      SameIndexed(c, c1, c.pc, base);
      FullIs(c1, c.pc, base);
    } else {
      SignedByte(ext);
      IndexIs(c1, ext);
      SameIndex(c, c1, ext);
      SumWraps(base + S8(ext), Index(c, ext), IndexValue(c1, ext));
    }
  }

  /** Only registers, memory and the model matter. */
  lemma SameIndex(c: Core, c1: Core, ext: nat)
    requires ext < 0x1_0000 && c1.d == c.d && c1.a == c.a && c1.model == c.model
    ensures Index(c1, ext) == Index(c, ext)
  {
  }

  lemma SameIndexed(c: Core, c1: Core, at: int, base: int)
    requires c1.d == c.d && c1.a == c.a && c1.model == c.model && c1.bus.mem == c.bus.mem
    ensures IndexedAddress(c1, at, base) == IndexedAddress(c, at, base)
    ensures IndexedBytes(c1, at) == IndexedBytes(c, at)
  {
    hide Peek, OffsetAt, OffsetBytes, Index;
    SameIndex(c, c1, Word(c.bus.mem, at));
  }

  predicate IsSize(size: nat) { size == 1 || size == 2 || size == 4 }

  /** A fault-free address computation arrives at the operand's address and steps past it. */
  lemma CalcEaIs(c: Core, size: nat, mode: nat, reg: nat)
    requires IsMemoryMode(mode, reg) && IsSize(size)
    requires CalcEa(c, size, mode, reg, true).0.bus.fault.None?
    ensures var (t, ea) := CalcEa(c, size, mode, reg, true);
            && ea == Wrap(Address(c, size, mode, reg))
            && t == Past(c, size, mode, reg).(bus := t.bus) && QuietBus(c.bus, t.bus) && c.bus.fault.None?
  {
    hide Read, Peek, Wrap, IndexedEa, S16, IndexedAddress, IndexedBytes;
    Pow256Values();
    CalcEaQuiet(c, size, mode, reg, true);
    WrapLong(c.pc);
    WrapLong(c.a[reg]);
    if mode == 6 {
      IndexedIs(c, c.a[reg]);
    } else if mode == 7 && reg == 3 {
      IndexedIs(c, c.pc);
    } else if mode == 5 || (mode == 7 && (reg == 0 || reg == 2)) {
      ReadIs(c.bus, c.pc, 2);
      SignedWord(Peek(c.bus.mem, c.pc, 2));
    } else if mode == 7 && reg == 1 {
      ReadIs(c.bus, c.pc, 4);
    }
  }

  /** A fault-free operand read yields the operand and steps past it. */
  lemma ReadEaIs(c: Core, size: nat, mode: nat, reg: nat)
    requires reg < 8 && (mode < 2 || IsMemoryMode(mode, reg)) && IsSize(size)
    requires ReadEa(c, size, mode, reg, true).0.bus.fault.None?
    ensures var (t, v) := ReadEa(c, size, mode, reg, true);
            && v == OperandValue(c, size, mode, reg)
            && t == Past(c, size, mode, reg).(bus := t.bus) && QuietBus(c.bus, t.bus) && c.bus.fault.None?
  {
    hide Read, Peek, Wrap, CalcEa, Address, ExtensionBytes;
    WrapLong(c.pc);
    if mode >= 2 {
      CalcEaQuiet(c, size, mode, reg, true);
      var (c1, ea) := CalcEa(c, size, mode, reg, true);
      ReadQuiet(c1.bus, ea, size);
      CalcEaIs(c, size, mode, reg);
      ReadIs(c1.bus, Address(c, size, mode, reg), size);
      ByteOfWord(c.bus.mem, c.pc);
      ImmediateByte(c, mode, reg);
    } else {
      NoExtension(c, size, mode, reg);
    }
  }

  /** The address does not depend on whether the operand is stepped past. */
  lemma SameEa(c: Core, size: nat, mode: nat, reg: nat)
    requires reg < 8
    ensures var ((t, ea), (t', ea')) := (CalcEa(c, size, mode, reg, false), CalcEa(c, size, mode, reg, true));
            ea == ea' && t.bus == t'.bus
  {
    hide Read, FullEa, IndexValue, Wrap;
    var (c1, c2) := (Fetch(c, 2, false).0, Fetch(c, 2, true).0);
    FullOnBus(c1, c2, Fetch(c, 2, false).1, c.a[reg], Wrap(c.pc + 2));
    FullOnBus(c1, c2, Fetch(c, 2, false).1, c.pc, Wrap(c.pc + 2));
    SameIndexValue(c1, c2, Fetch(c, 2, false).1);
  }

  lemma FullOnBus(c: Core, c': Core, ext: nat, base: Long, pos: Long)
    requires c' == c.(pc := c'.pc)
    ensures FullEa(c, ext, base, pos) == FullEa(c', ext, base, pos)
  {
    hide Read, Displacement, Wrap;
    SameIndexValue(c, c', ext);
  }

  lemma SameIndexValue(c: Core, c': Core, ext: nat)
    requires c' == c.(pc := c'.pc)
    ensures IndexValue(c, ext) == IndexValue(c', ext)
  {
  }

  /** A read without stepping yields the operand and leaves the registers. */
  lemma ReadEaPeeks(c: Core, size: nat, mode: nat, reg: nat)
    requires reg < 8 && (mode < 2 || IsMemoryMode(mode, reg)) && IsSize(size)
    requires ReadEa(c, size, mode, reg, false).0.bus.fault.None?
    ensures var (t, v) := ReadEa(c, size, mode, reg, false);
            && v == OperandValue(c, size, mode, reg)
            && t == c.(bus := t.bus) && QuietBus(c.bus, t.bus) && c.bus.fault.None?
  {
    hide Read, CalcEa, OperandValue, Past;
    ReadEaQuiet(c, size, mode, reg, false);
    if mode >= 2 {
      SameEa(c, size, mode, reg);
    }
    ReadEaIs(c, size, mode, reg);
  }

  lemma NoExtension(c: Core, size: nat, mode: nat, reg: nat)
    requires mode < 5
    ensures ExtensionBytes(c, size, mode, reg) == 0
  {
  }

  lemma ImmediateByte(c: Core, mode: nat, reg: nat)
    requires reg < 8
    ensures mode == 7 && reg == 4 ==> Address(c, 1, mode, reg) == c.pc + 1
  {
  }

  /** The low byte of a word is its second. */
  lemma ByteOfWord(m: Bytes, at: int)
    ensures Peek(m, at, 2) % 0x100 == Peek(m, at + 1, 1)
  {
    assert Peek(m, at + 1, 1) == Peek(m, at + 1, 0) * 256 + Get(m, Wrap(at + 1));
  }

  /** Addresses and steps depend on registers, PC, model and memory only. */
  lemma SameOperand(c: Core, c1: Core, size: nat, mode: nat, reg: nat)
    requires reg < 8 && c1 == c.(bus := c1.bus) && c1.bus.mem == c.bus.mem
    ensures Address(c1, size, mode, reg) == Address(c, size, mode, reg)
    ensures Past(c1, size, mode, reg) == Past(c, size, mode, reg).(bus := c1.bus)
  {
    hide Peek, Wrap, IndexedAddress, IndexedBytes;
    SameIndexed(c, c1, c.pc, c.a[reg]);
    SameIndexed(c, c1, c.pc, c.pc);
  }

  /** v is stored in the size bytes from at, and nothing else of memory changes. */
  predicate StoredAt(m: Bytes, m': Bytes, at: int, size: nat, v: nat) {
    Peek(m', at, size) == v && SameOutside(m, m', Span(at, size))
  }

  /** The low `size` bytes of a register become v and the rest stays. */
  predicate LowBytes(r: Long, r': Long, size: nat, v: nat) {
    r' % Pow256(size) == v && r' / Pow256(size) == r / Pow256(size)
  }

  /** The operand becomes v: a data register in its low bytes, or the bytes addressed, which are stepped past. */
  predicate Replaced(c: Core, t: Core, size: nat, mode: nat, reg: nat, v: nat)
    requires reg < 8
  {
    if mode == 0 then
      && t == c.(d := c.d[reg := t.d[reg]], bus := t.bus) && t.bus.mem == c.bus.mem
      && LowBytes(c.d[reg], t.d[reg], size, v)
    else
      && t == Past(c, size, mode, reg).(bus := t.bus)
      && StoredAt(c.bus.mem, t.bus.mem, Address(c, size, mode, reg), size, v)
  }

  lemma MergeIs(r: Long, size: nat, v: nat)
    requires IsSize(size) && v < Pow256(size)
    ensures LowBytes(r, Merge(r, size, v), size, v)
  {
    Pow256Values();
    if size == 1 {
      MergeByte(r, v);
    } else if size == 2 {
      MergeWord(r, v);
    }
  }

  lemma MergeByte(r: Long, v: nat)
    requires v < 0x100
    ensures Merge(r, 1, v) % 0x100 == v && Merge(r, 1, v) / 0x100 == r / 0x100
  {
    Pow256Values();
    WrapLong(r / 0x100 * 0x100 + v);
  }

  lemma MergeWord(r: Long, v: nat)
    requires v < 0x1_0000
    ensures Merge(r, 2, v) % 0x1_0000 == v && Merge(r, 2, v) / 0x1_0000 == r / 0x1_0000
  {
    Pow256Values();
    WrapLong(r / 0x1_0000 * 0x1_0000 + v);
  }

  lemma WriteStores(b: Bus, at: int, size: nat, v: nat)
    requires b.fault.None? && Write(b, Wrap(at), size, v).fault.None? && IsSize(size) && v < Pow256(size)
    ensures StoredAt(b.mem, Write(b, Wrap(at), size, v).mem, at, size, v)
  {
    hide Peek, Poke, Wrap, Span, SameOutside;
    PokeWrap(b.mem, at, size, v);
    PeekPoke(b.mem, at, size, v);
    PokeInside(b.mem, at, size, v, at, size);
  }

  /** A fault-free operand store puts the value at the operand's address and steps past it. */
  lemma WriteEaIs(c: Core, size: nat, mode: nat, reg: nat, v: nat)
    requires IsMemoryMode(mode, reg) && IsSize(size) && v < Pow256(size)
    requires WriteEa(c, size, mode, reg, v).bus.fault.None?
    ensures var t := WriteEa(c, size, mode, reg, v);
            && StoredAt(c.bus.mem, t.bus.mem, Address(c, size, mode, reg), size, v)
            && t == Past(c, size, mode, reg).(bus := t.bus) && c.bus.fault.None?
  {
    hide Peek, Poke, Wrap, CalcEa, Address, Past, StoredAt, Write;
    var (c1, ea) := CalcEa(c, size, mode, reg, true);
    CalcEaIs(c, size, mode, reg);
    WriteStores(c1.bus, Address(c, size, mode, reg), size, v);
  }

  // ---- MOVE -------------------------------------------------------------

  /** MOVE of a size: the line is 1 for bytes, 3 for words and 2 for longs; the destination comes register first. */
  function MoveOpcode(size: nat, smode: nat, sreg: nat, dmode: nat, dreg: nat): nat {
    (if size == 1 then 0x1000 else if size == 2 then 0x3000 else 0x2000)
    + 0x200 * dreg + 0x40 * dmode + 8 * smode + sreg
  }

  /** Operands MOVE accepts: any source but a byte of An; Dn or alterable memory as destination. */
  predicate MoveOperands(size: nat, smode: nat, sreg: nat, dmode: nat, dreg: nat) {
    && IsSize(size) && sreg < 8 && dreg < 8
    && (smode == 0 || (smode == 1 && size > 1) || IsMemoryMode(smode, sreg))
    && (dmode == 0 || (IsMemoryMode(dmode, dreg) && (dmode == 7 ==> dreg < 2)))
  }

  lemma MoveDecodes(size: nat, smode: nat, sreg: nat, dmode: nat, dreg: nat)
    requires IsSize(size) && smode < 8 && sreg < 8 && dmode < 8 && dreg < 8
    ensures var op := MoveOpcode(size, smode, sreg, dmode, dreg);
            && MoveSize(op) == size && SrcMode(op) == smode && SrcReg(op) == sreg
            && DstMode(op) == dmode && DstReg(op) == dreg
            && (IsMove(op) <==> MoveOperands(size, smode, sreg, dmode, dreg))
  {
    hide MoveOpcode;
    var line := if size == 1 then 1 else if size == 2 then 3 else 2;
    var op := MoveOpcode(size, smode, sreg, dmode, dreg);
    assert op == 0x1000 * line + 0x200 * dreg + 0x40 * dmode + 8 * smode + sreg by {
      MoveFields(size, smode, sreg, dmode, dreg);
    }
    Fields(line, dreg, dmode, smode, sreg);
  }

  lemma MoveFields(size: nat, smode: nat, sreg: nat, dmode: nat, dreg: nat)
    requires IsSize(size)
    ensures MoveOpcode(size, smode, sreg, dmode, dreg)
         == 0x1000 * (if size == 1 then 1 else if size == 2 then 3 else 2) + 0x200 * dreg + 0x40 * dmode
            + 8 * smode + sreg
  {
  }

  /** The five fields of an opcode. */
  lemma Fields(line: nat, dreg: nat, dmode: nat, smode: nat, sreg: nat)
    requires smode < 8 && sreg < 8 && dmode < 8 && dreg < 8
    ensures var op := 0x1000 * line + 0x200 * dreg + 0x40 * dmode + 8 * smode + sreg;
            && op / 0x1000 == line && op / 0x200 % 8 == dreg && op / 0x40 % 8 == dmode
            && op / 8 % 8 == smode && op % 8 == sreg
  {
    var op := 0x1000 * line + 0x200 * dreg + 0x40 * dmode + 8 * smode + sreg;
    assert op / 8 == 8 * (64 * line + 8 * dreg + dmode) + smode;
    assert op / 0x40 == 8 * (8 * line + dreg) + dmode;
    assert op / 0x200 == 8 * line + dreg;
  }

  /**
  A MOVE that does not fault moves its source operand to its destination:
  memory changes in the destination's bytes only, or one data register in its
  low bytes only; both operands have stepped and PC is past their words.
  */
  lemma MoveMoves(c: Core, size: nat, smode: nat, sreg: nat, dmode: nat, dreg: nat)
    requires MoveOperands(size, smode, sreg, dmode, dreg)
    requires Move(c, MoveOpcode(size, smode, sreg, dmode, dreg)).0.bus.fault.None?
    ensures var (t, v) := Move(c, MoveOpcode(size, smode, sreg, dmode, dreg));
            && v == OperandValue(c, size, smode, sreg)
            && Replaced(Past(c, size, smode, sreg), t, size, dmode, dreg, v)
  {
    hide ReadEa, WriteEa, MoveOpcode, Past, Address, OperandValue, Merge, LowBytes, StoredAt, MoveSize, SrcMode,
         SrcReg, DstMode, DstReg;
    MoveDecodes(size, smode, sreg, dmode, dreg);
    var (c1, v) := ReadEa(c, size, smode, sreg, true);
    ValueBound(c, size, smode, sreg);
    if dmode == 0 {
      RegisterStore(c1, size, dreg, v);
      ReadEaIs(c, size, smode, sreg);
      MergeIs(c.d[dreg], size, v);
      PastKeeps(c, size, smode, sreg);
    } else {
      WriteEaRollback(c1, size, dmode, dreg, v);
      ReadEaIs(c, size, smode, sreg);
      WriteEaIs(c1, size, dmode, dreg, v);
      PastKeeps(c, size, smode, sreg);
      SameOperand(Past(c, size, smode, sreg), c1, size, dmode, dreg);
    }
  }

  lemma RegisterStore(c: Core, size: nat, reg: nat, v: nat)
    requires reg < 8
    ensures WriteEa(c, size, 0, reg, v) == c.(d := c.d[reg := Merge(c.d[reg], size, v)])
  {
  }

  lemma ValueBound(c: Core, size: nat, mode: nat, reg: nat)
    requires reg < 8 && IsSize(size)
    ensures ReadEa(c, size, mode, reg, true).1 < Pow256(size)
  {
    hide CalcEa, Peek;
  }

  lemma PastKeeps(c: Core, size: nat, mode: nat, reg: nat)
    requires reg < 8
    ensures var t := Past(c, size, mode, reg); t.d == c.d && t.bus == c.bus && t.model == c.model
  {
  }
}
