/**
Operand addressing of the execution core: effective addresses, operand reads
and writes, and MOVE (src/core/cpu/cpu_internal.h, src/core/cpu/cpu_ops.h).

An access that faults does not stop the instruction; it runs on with all ones
and the pending fault is looked at later, so restart depends on what each
routine undoes.
*/
module Operands {
  import opened Words
  import opened Memory

  type Regs = s: seq<Long> | |s| == 8 witness [0, 0, 0, 0, 0, 0, 0, 0]
  datatype Model = M68000 | M68030

  datatype Core = Core(d: Regs, a: Regs, pc: Long, bus: Bus, model: Model)

  function S8(v: int): int {
    var y := v % 0x100; if y >= 0x80 then y - 0x100 else y
  }

  function S16(v: int): int {
    var y := v % 0x1_0000; if y >= 0x8000 then y - 0x1_0000 else y
  }

  predicate Bit(v: int, weight: nat)
    requires weight > 0
  {
    v / weight % 2 == 1
  }

  // ---- fetches ----------------------------------------------------------

  /** `fetch_16`/`fetch_32`: n bytes at PC, optionally advancing it. */
  function Fetch(c: Core, n: nat, inc: bool): (Core, nat) {
    var (b, v) := Read(c.bus, c.pc, n);
    (c.(bus := b, pc := if inc then Wrap(c.pc + n) else c.pc), v)
  }

  /** The decoders' opcode fetch: a long at PC, its first word the opcode. */
  function FetchOpcode(c: Core): (Core, nat) {
    var (b, word) := Read(c.bus, c.pc, 4);
    (c.(bus := b, pc := Wrap(c.pc + 2)), word)
  }

  /** `ea_index_value`: the index register, sign-extended and scaled. */
  function IndexValue(c: Core, ext: nat): Long {
    var r := ext / 0x1000 % 8;
    var full := if Bit(ext, 0x8000) then c.a[r] else c.d[r];
    var v := if Bit(ext, 0x800) then full else S16(full);
    var scale := ext / 0x200 % 4;
    if c.model.M68000? || scale == 0 then Wrap(v)
    else if scale == 1 then Wrap(2 * v)
    else if scale == 2 then Wrap(4 * v)
    else Wrap(8 * v)
  }

  /** A displacement in the instruction stream: 2 selects a word, 3 a long, others none. */
  function Displacement(b: Bus, pos: Long, sel: nat): (Bus, int, Long) {
    if sel == 2 then
      var (b', v) := Read(b, pos, 2); (b', S16(v), Wrap(pos + 2))
    else if sel == 3 then
      var (b', v) := Read(b, pos, 4); (b', v, Wrap(pos + 4))
    else (b, 0, pos)
  }

  /** Size selector of the outer displacement in a full extension word. */
  function OuterSelector(ext: nat): nat {
    var iis := ext % 8;
    if Bit(ext, 0x40) then (if iis <= 3 then iis else 0)
    else if iis <= 3 then iis else iis - 4
  }

  /** Whether a full extension word fetches a pointer from memory. */
  predicate Indirect(ext: nat) {
    var iis := ext % 8;
    1 <= iis <= 3 || (!Bit(ext, 0x40) && 5 <= iis)
  }

  /**
  `calculate_ea_full`: base and outer displacements around an optional pointer
  fetch; pos is just past the extension word.
  */
  function FullEa(c: Core, ext: nat, reg: Long, pos: Long): (Bus, Long, Long) {
    var base := if Bit(ext, 0x80) then 0 else reg;
    var index := if Bit(ext, 0x40) then 0 else IndexValue(c, ext);
    var (b1, bd, p1) := Displacement(c.bus, pos, ext / 0x10 % 4);
    if !Indirect(ext) then (b1, Wrap(base + index + bd), p1)
    else
      var post := ext % 8 >= 5;
      var (b2, ptr) := Read(b1, Wrap(base + bd + if post then 0 else index), 4);
      var (b3, od, p2) := Displacement(b2, p1, OuterSelector(ext));
      (b3, Wrap(ptr + od + if post then index else 0), p2)
  }

  /** (d8,base,Xn), or the full format on the 68030; base may be An or PC. */
  function IndexedEa(c: Core, base: Long, inc: bool): (Core, Long) {
    var (c1, ext) := Fetch(c, 2, inc);
    if Bit(ext, 0x100) && c.model.M68030? then
      var (b, ea, pos) := FullEa(c1, ext, base, Wrap(c.pc + 2));
      (c1.(bus := b, pc := if inc then pos else c.pc), ea)
    else (c1, Wrap(base + S8(ext) + IndexValue(c1, ext)))
  }

  /** Step of (An)+ and -(An): byte accesses keep A7 even. */
  function Step(size: nat, reg: nat): nat {
    if reg == 7 && size == 1 then 2 else size
  }

  /** `calculate_ea` and `calculate_ea_slow`. */
  function CalcEa(c: Core, size: nat, mode: nat, reg: nat, inc: bool): (Core, Long)
    requires reg < 8
  {
    match mode
    case 2 => (c, c.a[reg])
    case 3 =>
      (if inc then c.(a := c.a[reg := Wrap(c.a[reg] + Step(size, reg))]) else c, c.a[reg])
    case 4 =>
      var ea := Wrap(c.a[reg] - Step(size, reg));
      (if inc then c.(a := c.a[reg := ea]) else c, ea)
    case 5 => var (c1, v) := Fetch(c, 2, inc); (c1, Wrap(c.a[reg] + S16(v)))
    case 6 => IndexedEa(c, c.a[reg], inc)
    case 7 => SpecialEa(c, size, reg, inc)
    case _ => (c, B32 - 1)
  }

  /** Mode 7: absolute, PC-relative and immediate. */
  function SpecialEa(c: Core, size: nat, reg: nat, inc: bool): (Core, Long) {
    match reg
    case 0 => var (c1, v) := Fetch(c, 2, inc); (c1, Wrap(S16(v)))
    case 1 => var (c1, v) := Fetch(c, 4, inc); (c1, Wrap(v))
    case 2 => var (c1, v) := Fetch(c, 2, inc); (c1, Wrap(c.pc + S16(v)))
    case 3 => IndexedEa(c, c.pc, inc)
    case 4 =>
      (c.(pc := if inc then Wrap(c.pc + if size == 1 then 2 else size) else c.pc),
       if size == 1 then Wrap(c.pc + 1) else c.pc)
    case _ => (c, 0)
  }

  /** `read_ea_8/16/32`. */
  function ReadEa(c: Core, size: nat, mode: nat, reg: nat, inc: bool): (Core, nat)
    requires reg < 8
  {
    if mode == 0 then (c, c.d[reg] % Pow256(size))
    else if mode == 1 then (c, c.a[reg] % Pow256(size))
    else
      var (c1, ea) := CalcEa(c, size, mode, reg, inc);
      var (b, v) := Read(c1.bus, ea, size);
      (c1.(bus := b), v)
  }

  /** Low `size` bytes of a register replaced. */
  function Merge(old_: Long, size: nat, v: nat): Long {
    var p := Pow256(size); Wrap(old_ / p * p + v % p)
  }

  /** `write_ea_8/16/32`: An is put back when the address or the store faulted. */
  function WriteEa(c: Core, size: nat, mode: nat, reg: nat, v: nat): Core
    requires reg < 8
  {
    if mode == 0 then c.(d := c.d[reg := Merge(c.d[reg], size, v)])
    else if mode == 1 then c.(a := c.a[reg := Merge(c.a[reg], size, v)])
    else
      var (c1, ea) := CalcEa(c, size, mode, reg, true);
      if c1.bus.fault.Some? then Rollback(c1, mode, reg, c.a[reg])
      else
        var c2 := c1.(bus := Write(c1.bus, ea, size, v));
        if c2.bus.fault.Some? then Rollback(c2, mode, reg, c.a[reg]) else c2
  }

  predicate AutoStep(mode: nat) {
    mode == 3 || mode == 4
  }

  function Rollback(c: Core, mode: nat, reg: nat, saved: Long): Core
    requires reg < 8
  {
    if AutoStep(mode) then c.(a := c.a[reg := saved]) else c
  }

  // ---- MOVE -------------------------------------------------------------

  function SrcMode(op: nat): nat { op / 8 % 8 }
  function SrcReg(op: nat): (r: nat) ensures r < 8 { op % 8 }
  function DstMode(op: nat): nat { op / 64 % 8 }
  function DstReg(op: nat): (r: nat) ensures r < 8 { op / 512 % 8 }

  /** Operand size of a MOVE opcode in bytes. */
  function MoveSize(op: nat): nat {
    if op / 0x1000 == 1 then 1 else if op / 0x1000 == 3 then 2 else 4
  }

  /** Index of an addressing mode in the validity masks (`ea_mode_t`). */
  function ModeIndex(mode: nat, reg: nat): nat {
    if mode == 7 then 7 + reg else mode
  }

  /** MOVE.B/W/L with addressing modes the executor accepts. */
  predicate IsMove(op: nat) {
    && 0x1000 <= op < 0x4000
    && ModeIndex(SrcMode(op), SrcReg(op)) < 12
    && (MoveSize(op) == 1 ==> SrcMode(op) != 1)
    && DstMode(op) != 1 && ModeIndex(DstMode(op), DstReg(op)) < 9
  }

  /** The MOVE macros, without the flags, which depend only on the value moved. */
  function Move(c: Core, op: nat): (Core, nat) {
    var size := MoveSize(op);
    var (c1, v) := ReadEa(c, size, SrcMode(op), SrcReg(op), true);
    var c2 := WriteEa(c1, size, DstMode(op), DstReg(op), v);
    (if c2.bus.fault.Some? then Rollback(c2, SrcMode(op), SrcReg(op), c.a[SrcReg(op)]) else c2, v)
  }

  // ---- what address computation leaves alone ----------------------------

  /** Only the fault and the bytes seen may have grown. */
  predicate QuietBus(b: Bus, b': Bus) {
    && b' == b.(fault := b'.fault, seen := b'.seen)
    && (b.fault.Some? ==> b'.fault == b.fault)
    && b.seen <= b'.seen
  }

  lemma ReadQuiet(b: Bus, a: Long, n: nat)
    ensures QuietBus(b, Read(b, a, n).0)
  {
  }

  lemma DisplacementQuiet(b: Bus, pos: Long, sel: nat)
    ensures QuietBus(b, Displacement(b, pos, sel).0)
  {
  }

  lemma FullEaQuiet(c: Core, ext: nat, reg: Long, pos: Long)
    ensures QuietBus(c.bus, FullEa(c, ext, reg, pos).0)
  {
    hide Read, Wrap, IndexValue, Displacement;
    var base := if Bit(ext, 0x80) then 0 else reg;
    var index := if Bit(ext, 0x40) then 0 else IndexValue(c, ext);
    DisplacementQuiet(c.bus, pos, ext / 0x10 % 4);
    var (b1, bd, p1) := Displacement(c.bus, pos, ext / 0x10 % 4);
    if Indirect(ext) {
      var at := Wrap(base + bd + if ext % 8 >= 5 then 0 else index);
      ReadQuiet(b1, at, 4);
      DisplacementQuiet(Read(b1, at, 4).0, p1, OuterSelector(ext));
    }
  }

  /** Address computation changes PC, the stepped An and nothing else of the machine. */
  lemma CalcEaQuiet(c: Core, size: nat, mode: nat, reg: nat, inc: bool)
    requires reg < 8
    ensures var c' := CalcEa(c, size, mode, reg, inc).0;
            && QuietBus(c.bus, c'.bus)
            && c' == c.(a := c'.a, pc := c'.pc, bus := c'.bus)
            && c'.a == c.a[reg := c'.a[reg]]
            && (!inc || !AutoStep(mode) ==> c'.a == c.a)
            && (!inc ==> c'.pc == c.pc)
            && (AutoStep(mode) ==> c'.bus == c.bus)
  {
    hide FullEa, Wrap, IndexValue, Read;
    ReadQuiet(c.bus, c.pc, 2);
    ReadQuiet(c.bus, c.pc, 4);
    var (c1, ext) := Fetch(c, 2, inc);
    FullEaQuiet(c1, ext, c.a[reg], Wrap(c.pc + 2));
    FullEaQuiet(c1, ext, c.pc, Wrap(c.pc + 2));
  }

  lemma ReadEaQuiet(c: Core, size: nat, mode: nat, reg: nat, inc: bool)
    requires reg < 8
    ensures var c' := ReadEa(c, size, mode, reg, inc).0;
            && QuietBus(c.bus, c'.bus)
            && c' == c.(a := c'.a, pc := c'.pc, bus := c'.bus)
            && c'.a == c.a[reg := c'.a[reg]]
            && (!inc || !AutoStep(mode) ==> c'.a == c.a)
            && (!inc ==> c'.pc == c.pc)
  {
    hide CalcEa, Read;
    if mode >= 2 {
      CalcEaQuiet(c, size, mode, reg, inc);
      var (c1, ea) := CalcEa(c, size, mode, reg, inc);
      ReadQuiet(c1.bus, ea, size);
    }
  }

  /** A store that faults, or follows a fault, leaves registers and memory alone. */
  lemma WriteEaRollback(c: Core, size: nat, mode: nat, reg: nat, v: nat)
    requires 2 <= mode && reg < 8
    ensures var c' := WriteEa(c, size, mode, reg, v);
            && c'.d == c.d && c'.model == c.model
            && (c.bus.fault.Some? ==> c'.bus.fault.Some?)
            && (c'.bus.fault.Some? ==> c'.a == c.a && QuietBus(c.bus, c'.bus))
  {
    hide CalcEa, Poke;
    CalcEaQuiet(c, size, mode, reg, true);
    var c1 := CalcEa(c, size, mode, reg, true).0;
    assert c1.a[reg := c.a[reg]] == c.a;
  }

  /**
  Rollback of MOVE: with a memory destination, a fault on any access leaves
  every register and all of memory as they were.
  */
  lemma MoveRollback(c: Core, op: nat)
    requires DstMode(op) >= 2 && c.bus.fault.None?
    ensures var c' := Move(c, op).0;
            c'.bus.fault.Some? ==>
              c'.d == c.d && c'.a == c.a && c'.model == c.model && QuietBus(c.bus, c'.bus)
  {
    hide ReadEa, WriteEa, MoveSize, SrcMode, SrcReg, DstMode, DstReg;
    var size := MoveSize(op);
    ReadEaQuiet(c, size, SrcMode(op), SrcReg(op), true);
    var (c1, v) := ReadEa(c, size, SrcMode(op), SrcReg(op), true);
    WriteEaRollback(c1, size, DstMode(op), DstReg(op), v);
    assert c1.a[SrcReg(op) := c.a[SrcReg(op)]] == c.a;
  }

  /** MOVE into a data register changes the low bytes of that register and rolls back the source. */
  lemma MoveLoadUndone(c: Core, op: nat)
    requires DstMode(op) == 0 && c.bus.fault.None?
    ensures var (c', v) := Move(c, op);
            var r := DstReg(op);
            && c'.d == c.d[r := Merge(c.d[r], MoveSize(op), v)] && c'.model == c.model
            && QuietBus(c.bus, c'.bus) && (SrcMode(op) < 2 ==> c'.bus == c.bus)
            && (c'.bus.fault.Some? ==> c'.a == c.a)
  {
    hide ReadEa, MoveSize, SrcReg, DstReg, Merge;
    var size := MoveSize(op);
    ReadEaQuiet(c, size, SrcMode(op), SrcReg(op), true);
    var c1 := ReadEa(c, size, SrcMode(op), SrcReg(op), true).0;
    RegisterOperand(c, size, SrcMode(op), SrcReg(op));
    assert c1.a[SrcReg(op) := c.a[SrcReg(op)]] == c.a;
  }

  lemma RegisterOperand(c: Core, size: nat, mode: nat, reg: nat)
    requires reg < 8
    ensures mode < 2 ==> ReadEa(c, size, mode, reg, true).0 == c
  {
  }

  // ---- what an instruction looks at -------------------------------------

  /** Equal but for the contents of a region of memory. */
  predicate SameBus(b: Bus, b': Bus, region: set<Long>) {
    && b' == b.(mem := b'.mem)
    && forall x: Long :: x !in region ==> Get(b.mem, x) == Get(b'.mem, x)
  }

  predicate SameCore(c: Core, c': Core, region: set<Long>) {
    c' == c.(bus := c'.bus) && SameBus(c.bus, c'.bus, region)
  }

  lemma ReadSame(b: Bus, b': Bus, region: set<Long>, a: Long, n: nat)
    requires SameBus(b, b', region) && Read(b, a, n).0.seen !! region
    ensures SameBus(Read(b, a, n).0, Read(b', a, n).0, region)
    ensures Read(b, a, n).1 == Read(b', a, n).1
  {
    if !Faults(b, Access(a, n, false)) {
      assert Span(a, n) <= Read(b, a, n).0.seen;
      PeekSame(b.mem, b'.mem, a, n);
    }
  }

  lemma DisplacementSame(b: Bus, b': Bus, region: set<Long>, pos: Long, sel: nat)
    requires SameBus(b, b', region) && Displacement(b, pos, sel).0.seen !! region
    ensures var (r, r') := (Displacement(b, pos, sel), Displacement(b', pos, sel));
            SameBus(r.0, r'.0, region) && r.1 == r'.1 && r.2 == r'.2
  {
    hide Read;
    if sel == 2 {
      ReadSame(b, b', region, pos, 2);
    } else if sel == 3 {
      ReadSame(b, b', region, pos, 4);
    }
  }

  lemma FullEaSame(c: Core, c': Core, region: set<Long>, ext: nat, reg: Long, pos: Long)
    requires SameCore(c, c', region) && FullEa(c, ext, reg, pos).0.seen !! region
    ensures var (r, r') := (FullEa(c, ext, reg, pos), FullEa(c', ext, reg, pos));
            SameBus(r.0, r'.0, region) && r.1 == r'.1 && r.2 == r'.2
  {
    hide Read, Displacement, Wrap, SameBus;
    var base := if Bit(ext, 0x80) then 0 else reg;
    var index := if Bit(ext, 0x40) then 0 else IndexValue(c, ext);
    var (b1, bd, p1) := Displacement(c.bus, pos, ext / 0x10 % 4);
    if Indirect(ext) {
      var at := Wrap(base + bd + if ext % 8 >= 5 then 0 else index);
      var b2 := Read(b1, at, 4).0;
      DisplacementQuiet(b2, p1, OuterSelector(ext));
      ReadQuiet(b1, at, 4);
      DisplacementSame(c.bus, c'.bus, region, pos, ext / 0x10 % 4);
      var b1' := Displacement(c'.bus, pos, ext / 0x10 % 4).0;
      ReadSame(b1, b1', region, at, 4);
      DisplacementSame(b2, Read(b1', at, 4).0, region, p1, OuterSelector(ext));
    } else {
      DisplacementSame(c.bus, c'.bus, region, pos, ext / 0x10 % 4);
    }
  }

  lemma FetchSame(c: Core, c': Core, region: set<Long>, n: nat, inc: bool)
    requires SameCore(c, c', region) && Fetch(c, n, inc).0.bus.seen !! region
    ensures SameCore(Fetch(c, n, inc).0, Fetch(c', n, inc).0, region)
    ensures Fetch(c, n, inc).1 == Fetch(c', n, inc).1
  {
    hide Read, SameBus;
    ReadSame(c.bus, c'.bus, region, c.pc, n);
  }

  lemma IndexedEaSame(c: Core, c': Core, region: set<Long>, base: Long, inc: bool)
    requires SameCore(c, c', region) && IndexedEa(c, base, inc).0.bus.seen !! region
    ensures SameCore(IndexedEa(c, base, inc).0, IndexedEa(c', base, inc).0, region)
    ensures IndexedEa(c, base, inc).1 == IndexedEa(c', base, inc).1
  {
    hide Read, FullEa, SameBus, Wrap;
    var (c1, ext) := Fetch(c, 2, inc);
    FullEaQuiet(c1, ext, base, Wrap(c.pc + 2));
    FetchSame(c, c', region, 2, inc);
    var c1' := Fetch(c', 2, inc).0;
    if Bit(ext, 0x100) && c.model.M68030? {
      FullEaSame(c1, c1', region, ext, base, Wrap(c.pc + 2));
    }
  }

  lemma CalcEaSame(c: Core, c': Core, region: set<Long>, size: nat, mode: nat, reg: nat, inc: bool)
    requires reg < 8 && SameCore(c, c', region) && CalcEa(c, size, mode, reg, inc).0.bus.seen !! region
    ensures SameCore(CalcEa(c, size, mode, reg, inc).0, CalcEa(c', size, mode, reg, inc).0, region)
    ensures CalcEa(c, size, mode, reg, inc).1 == CalcEa(c', size, mode, reg, inc).1
  {
    hide Fetch, IndexedEa, SameBus, Wrap;
    match mode
    case 5 => FetchSame(c, c', region, 2, inc);
    case 6 => IndexedEaSame(c, c', region, c.a[reg], inc);
    case 7 =>
      match reg {
        case 0 => FetchSame(c, c', region, 2, inc);
        case 1 => FetchSame(c, c', region, 4, inc);
        case 2 => FetchSame(c, c', region, 2, inc);
        case 3 => IndexedEaSame(c, c', region, c.pc, inc);
        case _ =>
      }
    case _ =>
  }

  lemma ReadEaSame(c: Core, c': Core, region: set<Long>, size: nat, mode: nat, reg: nat, inc: bool)
    requires reg < 8 && SameCore(c, c', region) && ReadEa(c, size, mode, reg, inc).0.bus.seen !! region
    ensures SameCore(ReadEa(c, size, mode, reg, inc).0, ReadEa(c', size, mode, reg, inc).0, region)
    ensures ReadEa(c, size, mode, reg, inc).1 == ReadEa(c', size, mode, reg, inc).1
  {
    hide CalcEa, Read, SameBus;
    if mode >= 2 {
      var (c1, ea) := CalcEa(c, size, mode, reg, inc);
      ReadQuiet(c1.bus, ea, size);
      CalcEaSame(c, c', region, size, mode, reg, inc);
      ReadSame(c1.bus, CalcEa(c', size, mode, reg, inc).0.bus, region, ea, size);
    }
  }

  lemma {:induction false} PokeSame(m: Bytes, m': Bytes, a: int, n: nat, v: nat, x: Long)
    requires Get(m, x) == Get(m', x)
    ensures Get(Poke(m, a, n, v), x) == Get(Poke(m', a, n, v), x)
  {
    if n > 0 {
      PokeSame(m, m', a, n - 1, v / 256, x);
    }
  }

  lemma WriteSame(b: Bus, b': Bus, region: set<Long>, a: Long, n: nat, v: nat)
    requires SameBus(b, b', region)
    ensures SameBus(Write(b, a, n, v), Write(b', a, n, v), region)
  {
    hide Poke;
    forall x: Long | x !in region
      ensures Get(Poke(b.mem, a, n, v), x) == Get(Poke(b'.mem, a, n, v), x)
    {
      PokeSame(b.mem, b'.mem, a, n, v, x);
    }
  }

  lemma WriteEaSame(c: Core, c': Core, region: set<Long>, size: nat, mode: nat, reg: nat, v: nat)
    requires reg < 8 && SameCore(c, c', region) && WriteEa(c, size, mode, reg, v).bus.seen !! region
    ensures SameCore(WriteEa(c, size, mode, reg, v), WriteEa(c', size, mode, reg, v), region)
  {
    hide CalcEa, Get, Poke;
    if mode >= 2 {
      var (c1, ea) := CalcEa(c, size, mode, reg, true);
      var c1' := CalcEa(c', size, mode, reg, true).0;
      WriteKeepsSeen(c1.bus, ea, size, v);
      CalcEaSame(c, c', region, size, mode, reg, true);
      WriteSame(c1.bus, c1'.bus, region, ea, size, v);
    }
  }

  lemma WriteKeepsSeen(b: Bus, a: Long, n: nat, v: nat)
    ensures Write(b, a, n, v).seen == b.seen
  {
  }

  /** MOVE depends on memory only through the bytes it has seen. */
  lemma MoveSame(c: Core, c': Core, region: set<Long>, op: nat)
    requires SameCore(c, c', region) && Move(c, op).0.bus.seen !! region
    ensures SameCore(Move(c, op).0, Move(c', op).0, region)
    ensures Move(c, op).1 == Move(c', op).1
  {
    hide ReadEa, WriteEa, Get, MoveSize, SrcMode, SrcReg, DstMode, DstReg;
    var size := MoveSize(op);
    var (c1, v) := ReadEa(c, size, SrcMode(op), SrcReg(op), true);
    var c1' := ReadEa(c', size, SrcMode(op), SrcReg(op), true).0;
    WriteEaSeen(c1, size, DstMode(op), DstReg(op), v);
    ReadEaSame(c, c', region, size, SrcMode(op), SrcReg(op), true);
    WriteEaSame(c1, c1', region, size, DstMode(op), DstReg(op), v);
  }

  lemma WriteEaSeen(c: Core, size: nat, mode: nat, reg: nat, v: nat)
    requires reg < 8
    ensures c.bus.seen <= WriteEa(c, size, mode, reg, v).bus.seen
  {
    hide CalcEa, Poke;
    CalcEaQuiet(c, size, mode, reg, true);
  }

  // ---- what a store settles ---------------------------------------------

  /** A store fixes its bytes whatever they were. */
  lemma {:induction false} PokeFixes(m: Bytes, m': Bytes, a: int, n: nat, v: nat, x: Long)
    requires x in Span(a, n) || Get(m, x) == Get(m', x)
    ensures Get(Poke(m, a, n, v), x) == Get(Poke(m', a, n, v), x)
  {
    if n > 0 && x != Wrap(a + n - 1) {
      PokeFixes(m, m', a, n - 1, v / 256, x);
    }
  }

  lemma WriteFixes(b: Bus, b': Bus, region: set<Long>, a: Long, n: nat, v: nat)
    requires SameBus(b, b', region) && !Faults(b, Access(a, n, true))
    ensures SameBus(Write(b, a, n, v), Write(b', a, n, v), region - Span(a, n))
  {
    hide Poke, Span;
    forall x: Long | x !in region - Span(a, n)
      ensures Get(Poke(b.mem, a, n, v), x) == Get(Poke(b'.mem, a, n, v), x)
    {
      PokeFixes(b.mem, b'.mem, a, n, v, x);
    }
  }

  /** A completed operand store agrees on its own bytes too. */
  lemma WriteEaFixes(c: Core, c': Core, region: set<Long>, size: nat, mode: nat, reg: nat, v: nat)
    requires reg < 8 && mode >= 2 && SameCore(c, c', region)
    requires WriteEa(c, size, mode, reg, v).bus.seen !! region && WriteEa(c, size, mode, reg, v).bus.fault.None?
    ensures SameCore(WriteEa(c, size, mode, reg, v), WriteEa(c', size, mode, reg, v),
                     region - Span(CalcEa(c, size, mode, reg, true).1, size))
  {
    hide CalcEa, Get, Poke, Span;
    var (c1, ea) := CalcEa(c, size, mode, reg, true);
    var c1' := CalcEa(c', size, mode, reg, true).0;
    WriteKeepsSeen(c1.bus, ea, size, v);
    CalcEaSame(c, c', region, size, mode, reg, true);
    WriteFixes(c1.bus, c1'.bus, region, ea, size, v);
  }

  /** The bytes MOVE stores. */
  function MoveStores(c: Core, op: nat): set<Long> {
    if DstMode(op) < 2 then {}
    else
      var c1 := ReadEa(c, MoveSize(op), SrcMode(op), SrcReg(op), true).0;
      Span(CalcEa(c1, MoveSize(op), DstMode(op), DstReg(op), true).1, MoveSize(op))
  }

  /** A completed MOVE depends on memory only through what it read, and settles what it wrote. */
  lemma MoveSettles(c: Core, c': Core, region: set<Long>, op: nat)
    requires SameCore(c, c', region) && Move(c, op).0.bus.seen !! region && Move(c, op).0.bus.fault.None?
    ensures SameCore(Move(c, op).0, Move(c', op).0, region - MoveStores(c, op))
    ensures Move(c, op).1 == Move(c', op).1
  {
    hide ReadEa, WriteEa, CalcEa, Get, MoveSize, SrcMode, SrcReg, DstReg, Span;
    MoveSame(c, c', region, op);
    var size := MoveSize(op);
    var (c1, v) := ReadEa(c, size, SrcMode(op), SrcReg(op), true);
    var c1' := ReadEa(c', size, SrcMode(op), SrcReg(op), true).0;
    if DstMode(op) >= 2 {
      WriteEaSeen(c1, size, DstMode(op), DstReg(op), v);
      ReadEaSame(c, c', region, size, SrcMode(op), SrcReg(op), true);
      WriteEaFixes(c1, c1', region, size, DstMode(op), DstReg(op), v);
    } else {
      assert region - {} == region;
    }
  }

  // ---- data registers an address does not use ----------------------------

  /** The index register of an extension word is Dr, and the word uses it. */
  predicate IndexedBy(ext: nat, r: nat) {
    !Bit(ext, 0x8000) && ext / 0x1000 % 8 == r && !(Bit(ext, 0x100) && Bit(ext, 0x40))
  }

  predicate IsIndexed(mode: nat, reg: nat) {
    mode == 6 || (mode == 7 && reg == 3)
  }

  function WithDn(c: Core, r: nat, x: Long): Core
    requires r < 8
  {
    c.(d := c.d[r := x])
  }

  lemma FullEaIgnores(c: Core, r: nat, x: Long, ext: nat, base: Long, pos: Long)
    requires r < 8 && Bit(ext, 0x100) && !IndexedBy(ext, r)
    ensures FullEa(WithDn(c, r, x), ext, base, pos) == FullEa(c, ext, base, pos)
  {
    hide Read, Displacement, Wrap, Bit, OuterSelector;
    IndexIgnores(c, r, x, ext);
  }

  lemma IndexIgnores(c: Core, r: nat, x: Long, ext: nat)
    requires r < 8
    ensures Bit(ext, 0x8000) || ext / 0x1000 % 8 != r ==> IndexValue(WithDn(c, r, x), ext) == IndexValue(c, ext)
  {
    hide Bit, Wrap, S16;
  }

  lemma IndexedEaIgnores(c: Core, r: nat, x: Long, base: Long, inc: bool)
    requires r < 8 && c.model.M68030? && !IndexedBy(Fetch(c, 2, inc).1, r)
    ensures var (t, ea) := IndexedEa(c, base, inc); IndexedEa(WithDn(c, r, x), base, inc) == (WithDn(t, r, x), ea)
  {
    hide Read, FullEa, Wrap, Bit, S8, IndexValue;
    var (c1, ext) := Fetch(c, 2, inc);
    IndexIgnores(c1, r, x, ext);
    if Bit(ext, 0x100) {
      FullEaIgnores(c1, r, x, ext, base, Wrap(c.pc + 2));
    }
  }

  lemma CalcEaIgnores(c: Core, r: nat, x: Long, size: nat, mode: nat, reg: nat, inc: bool)
    requires r < 8 && reg < 8 && c.model.M68030?
    requires IsIndexed(mode, reg) ==> !IndexedBy(Fetch(c, 2, inc).1, r)
    ensures var (t, ea) := CalcEa(c, size, mode, reg, inc);
            CalcEa(WithDn(c, r, x), size, mode, reg, inc) == (WithDn(t, r, x), ea)
  {
    hide Read, IndexedEa, Wrap, S16, IndexedBy;
    if IsIndexed(mode, reg) {
      IndexedEaIgnores(c, r, x, if mode == 6 then c.a[reg] else c.pc, inc);
    }
  }

  /** An operand read from memory does not depend on a data register that does not index it. */
  lemma ReadEaIgnores(c: Core, r: nat, x: Long, size: nat, mode: nat, reg: nat, inc: bool)
    requires r < 8 && reg < 8 && mode >= 2 && c.model.M68030?
    requires IsIndexed(mode, reg) ==> !IndexedBy(Fetch(c, 2, inc).1, r)
    ensures var (t, v) := ReadEa(c, size, mode, reg, inc);
            ReadEa(WithDn(c, r, x), size, mode, reg, inc) == (WithDn(t, r, x), v)
  {
    hide Read, CalcEa, IndexedBy, Fetch;
    CalcEaIgnores(c, r, x, size, mode, reg, inc);
  }
}
