/**
Exception entries and returns, nested to any depth: what a frame holds, and
that a well-nested sequence gives the interrupted program back its status
register, program counter, registers and all three stack pointers.
*/
module Nesting {
  import opened Words
  import opened Memory
  import opened Operands
  import opened System

  datatype Entry =
    | Trap(vector: nat, pc: Long)              // exception() with the current status register
    | Interrupt(level: nat)                    // cpu_check_interrupt()
    | Retry(addr: Long, read: bool, fc: nat)   // exception_bus_error_retry()
    | Skip(addr: Long, read: bool, fc: nat)    // exception_bus_error()

  /** Taking an entry; a device drops its request once the interrupt is taken. */
  function Enter(u: Cpu, e: Entry): Cpu {
    match e
    case Trap(vector, pc) => Exception(u, vector, pc, GetSr(u))
    case Interrupt(level) => CheckInterrupt(u.(ipl := level)).(ipl := 0)
    case Retry(addr, read, fc) => BusErrorRetry(u, addr, read, fc)
    case Skip(addr, read, fc) => BusErrorSkip(u, addr, read, fc)
  }

  function StackedPc(pc: Long, ipc: Long, e: Entry): Long {
    match e
    case Trap(_, p) => p
    case Interrupt(_) => pc
    case Retry(_, _, _) => ipc
    case Skip(_, _, _) => pc
  }

  function VectorOf(e: Entry): nat {
    match e
    case Trap(v, _) => v
    case Interrupt(level) => 0x60 + 4 * level
    case _ => 8
  }

  /** Format nibble of the 68030 frame. */
  function FormatOf(e: Entry): nat {
    if e.Retry? || e.Skip? then 0xB else if LongFormat(VectorOf(e)) then 2 else 0
  }

  function SizeOf(model: Model, e: Entry): nat {
    if model.M68000? then 6
    else if FormatOf(e) == 0xB then 92 else if FormatOf(e) == 2 then 12 else 8
  }

  /** Frames with the instruction's address: divide by zero, CHK, TRAPV, trace and the floating-point exceptions. */
  lemma LongFrames(vector: nat)
    requires vector % 4 == 0
    ensures FormatOf(Trap(vector, 0)) ==
            if vector == 0x14 || vector == 0x18 || vector == 0x1C || vector == 0x24 || 0xC0 <= vector <= 0xD8
            then 2 else 0
  {
  }

  /** Top of the supervisor stack an entry pushes on. */
  function Top(u: Cpu): Long {
    ToSupervisor(u).core.a[7]
  }

  function Frame(u: Cpu, e: Entry): set<Long> {
    Span(Top(u) - SizeOf(u.core.model, e), SizeOf(u.core.model, e))
  }

  function VectorAddress(u: Cpu, e: Entry): Long {
    if u.core.model.M68030? then Wrap(u.vbr + VectorOf(e)) else Wrap(VectorOf(e))
  }

  /** The entry is one this model takes, and its frame and vector are mapped. */
  predicate CanEnter(u: Cpu, e: Entry) {
    && u.core.bus.fault.None?
    && Mapped(u.core.bus, Frame(u, e) + Span(VectorAddress(u, e), 4))
    && (e.Retry? || e.Skip? ==> u.core.model.M68030?)
    && (e.Skip? ==> !Repeated(u))
    && (e.Interrupt? ==> e.level < 8 && InterruptDue(e.level, u.mask))
  }

  // ---- frames in memory -------------------------------------------------

  /** A frame of n bytes at b: status word, program counter and, on the 68030, a format. */
  predicate Holds(m: Bytes, b: int, sr: nat, pc: Long, model: Model, format: nat) {
    && Peek(m, b, 2) == sr
    && Peek(m, b + 2, 4) == pc
    && (model.M68030? ==> Peek(m, b + 6, 2) / 0x1000 == format)
  }

  predicate SameOutside(m: Bytes, m': Bytes, region: set<Long>) {
    forall x: Long :: x !in region ==> Get(m, x) == Get(m', x)
  }

  lemma PokeInside(m: Bytes, a: int, n: nat, v: nat, b: int, k: nat)
    requires b <= a && a + n <= b + k
    ensures SameOutside(m, Poke(m, a, n, v), Span(b, k))
  {
    SpanInside(b, k, a, n);
    forall x: Long | x !in Span(b, k) ensures Get(m, x) == Get(Poke(m, a, n, v), x) {
      PokeOutside(m, a, n, v, x);
    }
  }

  lemma SameOutsideChain(m0: Bytes, m1: Bytes, m2: Bytes, region: set<Long>)
    requires SameOutside(m0, m1, region) && SameOutside(m1, m2, region)
    ensures SameOutside(m0, m2, region)
  {
  }

  /** The three stores every frame ends with, in the order of `exception`. */
  lemma FrameStores(m: Bytes, b: int, word: nat, pc: Long, sr: nat, n: nat)
    requires word < 0x1_0000 && sr < 0x1_0000 && 8 <= n <= 92
    ensures var m' := Poke(Poke(Poke(m, b + 6, 2, word), b + 2, 4, pc), b, 2, sr);
            && Peek(m', b, 2) == sr && Peek(m', b + 2, 4) == pc && Peek(m', b + 6, 2) == word
            && SameOutside(m, m', Span(b, n))
  {
    hide Peek, Poke;
    Pow256Values();
    var m1 := Poke(m, b + 6, 2, word);
    var m2 := Poke(m1, b + 2, 4, pc);
    SpansApart(b, 2, b + 2, 4);
    SpansApart(b, 2, b + 6, 2);
    SpansApart(b + 2, 4, b + 6, 2);
    PeekPoke(m, b + 6, 2, word);
    PeekPoke(m1, b + 2, 4, pc);
    PeekPoke(m2, b, 2, sr);
    PeekPokeApart(m1, b + 2, 4, pc, b + 6, 2);
    PeekPokeApart(m2, b, 2, sr, b + 6, 2);
    PeekPokeApart(m2, b, 2, sr, b + 2, 4);
    PokeInside(m, b + 6, 2, word, b, n);
    PokeInside(m1, b + 2, 4, pc, b, n);
    PokeInside(m2, b, 2, sr, b, n);
  }

  /** The 68000 frame: program counter, then status word. */
  lemma ShortFrameStores(m: Bytes, b: int, pc: Long, sr: nat)
    requires sr < 0x1_0000
    ensures var m' := Poke(Poke(m, b + 2, 4, pc), b, 2, sr);
            Peek(m', b, 2) == sr && Peek(m', b + 2, 4) == pc && SameOutside(m, m', Span(b, 6))
  {
    hide Peek, Poke;
    Pow256Values();
    var m2 := Poke(m, b + 2, 4, pc);
    SpansApart(b, 2, b + 2, 4);
    PeekPoke(m, b + 2, 4, pc);
    PeekPoke(m2, b, 2, sr);
    PeekPokeApart(m2, b, 2, sr, b + 2, 4);
    PokeInside(m, b + 2, 4, pc, b, 6);
    PokeInside(m2, b, 2, sr, b, 6);
  }

  // ---- stores that cannot fault -----------------------------------------

  /** A supervisor bus with nothing pending and a mapped region. */
  predicate Ready(b: Bus, region: set<Long>) {
    b.fault.None? && b.writeView.Supervisor? && b.readView.Supervisor? && Mapped(b, region)
  }

  lemma WriteReady(b: Bus, region: set<Long>, a: int, n: nat, v: nat)
    requires Ready(b, region) && n > 0 && Wrap(a) in region
    ensures Write(b, Wrap(a), n, v) == b.(mem := Poke(b.mem, a, n, v))
    ensures Ready(Write(b, Wrap(a), n, v), region)
  {
    assert Wrap(Wrap(a)) == Wrap(a);
    MappedAccess(b, region, Wrap(a), n, true);
    PokeWrap(b.mem, a, n, v);
  }

  lemma ReadReady(b: Bus, region: set<Long>, a: int, n: nat)
    requires Ready(b, region) && n > 0 && Wrap(a) in region
    ensures Read(b, Wrap(a), n).1 == Peek(b.mem, a, n)
    ensures Read(b, Wrap(a), n).0 == b.(seen := Read(b, Wrap(a), n).0.seen)
    ensures Ready(Read(b, Wrap(a), n).0, region)
  {
    assert Wrap(Wrap(a)) == Wrap(a);
    MappedAccess(b, region, Wrap(a), n, false);
    PeekWrap(b.mem, a, n);
  }

  lemma PushReady(c: Core, region: set<Long>, sp: int, n: nat, v: nat)
    requires Ready(c.bus, region) && n > 0 && c.a[7] == Wrap(sp) && Wrap(sp - n) in region
    ensures Push(c, n, v) == c.(a := c.a[7 := Wrap(sp - n)], bus := c.bus.(mem := Poke(c.bus.mem, sp - n, n, v)))
    ensures Ready(Push(c, n, v).bus, region)
  {
    var k: int := n;
    WrapTwice(sp, -k);
    WriteReady(c.bus, region, sp - n, n, v);
  }

  // ---- entries ----------------------------------------------------------

  /** What an entry does to the machine, given the size and format of its frame. */
  predicate Entered(u: Cpu, t: Cpu, n: nat, format: nat, sr: nat, pc: Long) {
    var s := ToSupervisor(u);
    var base := s.core.a[7] - n;
    && t == s.(core := t.core, trace := 0, lastFault := t.lastFault)
    && t.core == s.core.(a := s.core.a[7 := Wrap(base)], bus := t.core.bus, pc := t.core.pc)
    && t.core.bus == s.core.bus.(mem := t.core.bus.mem, seen := t.core.bus.seen)
    && Holds(t.core.bus.mem, base, sr, pc, u.core.model, format)
    && SameOutside(u.core.bus.mem, t.core.bus.mem, Span(base, n))
  }

  /**
  Where an entry arrives and what else its frame of n bytes says: PC comes from
  the vector, the format word names the vector, and a long frame carries the
  address of the instruction.
  */
  predicate Vectored(u: Cpu, t: Cpu, n: nat, format: nat, vector: nat) {
    var base := ToSupervisor(u).core.a[7] - n;
    && t.core.pc == Peek(t.core.bus.mem, if u.core.model.M68030? then u.vbr + vector else vector, 4)
    && (u.core.model.M68030? ==> Peek(t.core.bus.mem, base + 6, 2) == format * 0x1000 + vector % 0x1000)
    && (u.core.model.M68030? && format == 2 ==> Peek(t.core.bus.mem, base + 8, 4) == u.ipc)
  }

  /** Distances below the top of stack lie in the frame. */
  lemma InFrame(top: int, n: nat, o: nat, extra: set<Long>)
    requires 0 < o <= n <= 92
    ensures Wrap(top - o) in Span(top - n, n) + extra
  {
    SpanMember(top - n, n, n - o);
  }

  /** The pushes of a 68030 `exception`. */
  lemma ModernPushes(c: Core, vector: nat, ipc: Long, pc: Long, sr: nat, extra: set<Long>)
    requires sr < 0x1_0000
    requires var n := if LongFormat(vector) then 12 else 8;
             Ready(c.bus, Span(c.a[7] as int - n, n) + extra)
    ensures var n := if LongFormat(vector) then 12 else 8;
            var word := (if LongFormat(vector) then 0x2000 else 0) + vector % 0x1000;
            var c1 := if LongFormat(vector) then Push(c, 4, ipc) else c;
            var c' := Push(Push(Push(c1, 2, word), 4, pc), 2, sr);
            var base := c.a[7] as int - n;
            && c' == c.(a := c.a[7 := Wrap(base)], bus := c.bus.(mem := c'.bus.mem))
            && Ready(c'.bus, Span(base, n) + extra)
            && Holds(c'.bus.mem, base, sr, pc, M68030, word / 0x1000)
            && SameOutside(c.bus.mem, c'.bus.mem, Span(base, n))
            && Peek(c'.bus.mem, base + 6, 2) == word
            && (LongFormat(vector) ==> Peek(c'.bus.mem, base + 8, 4) == ipc)
  {
    hide Push, Peek, Poke, Ready, Span, Wrap, LongFormat, SameOutside;
    var long := LongFormat(vector);
    var n := if long then 12 else 8;
    var top: int := c.a[7];
    var word := (if long then 0x2000 else 0) + vector % 0x1000;
    var region := Span(top - n, n) + extra;
    InFrame(top, n, n, extra);
    InFrame(top, n, n - 2, extra);
    InFrame(top, n, n - 6, extra);
    WrapLong(top);
    if long {
      InFrame(top, n, 4, extra);
      PushReady(c, region, top, 4, ipc);
      PokeInside(c.bus.mem, top - 4, 4, ipc, top - n, n);
      AboveFrame(c.bus.mem, top - n, word, pc, sr, ipc);
    }
    var c1 := if long then Push(c, 4, ipc) else c;
    var sp := top - n + 8;
    PushReady(c1, region, sp, 2, word);
    var c2 := Push(c1, 2, word);
    PushReady(c2, region, sp - 2, 4, pc);
    var c3 := Push(c2, 4, pc);
    PushReady(c3, region, sp - 6, 2, sr);
    FrameStores(c1.bus.mem, top - n, word, pc, sr, n);
    SameOutsideSelf(c.bus.mem, Span(top - n, n));
    var c4 := Push(c3, 2, sr);
    SameOutsideChain(c.bus.mem, c1.bus.mem, c4.bus.mem, Span(top - n, n));
  }

  /** The instruction address above the three stores survives them. */
  lemma AboveFrame(m: Bytes, b: int, word: nat, pc: Long, sr: nat, ipc: Long)
    requires word < 0x1_0000 && sr < 0x1_0000
    ensures var m1 := Poke(m, b + 8, 4, ipc);
            Peek(Poke(Poke(Poke(m1, b + 6, 2, word), b + 2, 4, pc), b, 2, sr), b + 8, 4) == ipc
  {
    hide Peek, Poke;
    Pow256Values();
    var m1 := Poke(m, b + 8, 4, ipc);
    PeekPoke(m, b + 8, 4, ipc);
    FrameStores(m1, b, word, pc, sr, 8);
    SpansApart(b, 8, b + 8, 4);
    PeekSame(m1, Poke(Poke(Poke(m1, b + 6, 2, word), b + 2, 4, pc), b, 2, sr), b + 8, 4);
  }

  lemma WrapLong(x: Long)
    ensures Wrap(x) == x
  {
  }

  lemma SameOutsideSelf(m: Bytes, region: set<Long>)
    ensures SameOutside(m, m, region)
  {
  }

  /** The pushes of a 68000 `exception`. */
  lemma ClassicPushes(c: Core, pc: Long, sr: nat, extra: set<Long>)
    requires sr < 0x1_0000 && Ready(c.bus, Span(c.a[7] as int - 6, 6) + extra)
    ensures var c' := Push(Push(c, 4, pc), 2, sr);
            var base := c.a[7] as int - 6;
            && c' == c.(a := c.a[7 := Wrap(base)], bus := c.bus.(mem := c'.bus.mem))
            && Ready(c'.bus, Span(base, 6) + extra)
            && Holds(c'.bus.mem, base, sr, pc, M68000, 0)
            && SameOutside(c.bus.mem, c'.bus.mem, Span(base, 6))
  {
    hide Push, Peek, Poke, Ready, Span, Wrap, SameOutside;
    var top: int, region := c.a[7], Span(c.a[7] as int - 6, 6) + extra;
    InFrame(top, 6, 4, extra);
    InFrame(top, 6, 6, extra);
    WrapLong(top);
    PushReady(c, region, top, 4, pc);
    PushReady(Push(c, 4, pc), region, top - 4, 2, sr);
    ShortFrameStores(c.bus.mem, top - 6, pc, sr);
  }

  lemma ToSupervisorReady(u: Cpu, region: set<Long>)
    requires ViewsAgree(u) && u.core.bus.fault.None? && Mapped(u.core.bus, region)
    ensures Ready(ToSupervisor(u).core.bus, region)
    ensures ToSupervisor(u).core.bus.mem == u.core.bus.mem
  {
  }

  lemma ExceptionEnters(u: Cpu, vector: nat, pc: Long, sr: nat)
    requires Valid(u) && ViewsAgree(u) && sr < 0x1_0000 && CanEnter(u, Trap(vector, pc))
    ensures var e := Trap(vector, pc);
            var (t, n) := (Exception(u, vector, pc, sr), SizeOf(u.core.model, e));
            Entered(u, t, n, FormatOf(e), sr, pc) && Vectored(u, t, n, FormatOf(e), vector)
  {
    hide Push, Peek, Poke, Ready, Span, Wrap, LongFormat, SameOutside, ToSupervisor, Read, Mapped;
    var e := Trap(vector, pc);
    var n := SizeOf(u.core.model, e);
    var c := ToSupervisor(u).core;
    var extra := Span(VectorAddress(u, e), 4);
    ToSupervisorReady(u, Frame(u, e) + extra);
    ToSupervisorKeeps(u);
    if u.core.model.M68030? {
      ModernPushes(c, vector, u.ipc, pc, sr, extra);
    } else {
      ClassicPushes(c, pc, sr, extra);
    }
    var c' := if u.core.model.M68030?
              then Push(Push(Push(if LongFormat(vector) then Push(c, 4, u.ipc) else c, 2,
                                  (if LongFormat(vector) then 0x2000 else 0) + vector % 0x1000), 4, pc), 2, sr)
              else Push(Push(c, 4, pc), 2, sr);
    VectorReady(c'.bus, Span(Top(u) - n, n) + extra, VectorAddress(u, e));
    PeekWrap(c'.bus.mem, if u.core.model.M68030? then u.vbr + vector else vector, 4);
  }

  lemma ToSupervisorKeeps(u: Cpu)
    ensures ToSupervisor(u).core.model == u.core.model
  {
  }

  lemma VectorReady(b: Bus, region: set<Long>, a: Long)
    requires Ready(b, region) && Span(a, 4) <= region
    ensures Read(b, a, 4).0 == b.(seen := Read(b, a, 4).0.seen)
    ensures Wrap(Read(b, a, 4).1) == Peek(b.mem, a, 4)
  {
    Pow256Values();
    SpanMember(a, 4, 0);
    ReadReady(b, region, a, 4);
    WrapLong(a);
  }

  // ---- bus-fault frames -------------------------------------------------

  /** An offset into a frame of the given size, from its wrapped address. */
  lemma FrameOffset(f: int, size: nat, o: nat, extra: set<Long>)
    requires o < size
    ensures Wrap(f + o) in Span(f, size) + extra
    ensures Wrap(Wrap(f) + o) == Wrap(f + o)
  {
    SpanMember(f, size, o);
    WrapTwice(f, o);
  }

  lemma {:induction false} ZeroFillReady(b: Bus, f: int, i: nat, extra: set<Long>)
    requires Ready(b, Span(f, BUS_FRAME) + extra) && i <= BUS_FRAME && i % 4 == 0
    ensures var b' := ZeroFill(b, Wrap(f), i);
            && b' == b.(mem := b'.mem)
            && Ready(b', Span(f, BUS_FRAME) + extra)
            && SameOutside(b.mem, b'.mem, Span(f, BUS_FRAME))
    decreases BUS_FRAME - i
  {
    hide Poke, Span, Wrap, Ready, SameOutside, Write;
    SameOutsideSelf(b.mem, Span(f, BUS_FRAME));
    if i < BUS_FRAME {
      var region := Span(f, BUS_FRAME) + extra;
      FrameOffset(f, BUS_FRAME, i, extra);
      WriteReady(b, region, f + i, 4, 0);
      var b1 := Write(b, Wrap(f + i), 4, 0);
      PokeInside(b.mem, f + i, 4, 0, f, BUS_FRAME);
      ZeroFillReady(b1, f, i + 4, extra);
      SameOutsideChain(b.mem, b1.mem, ZeroFill(b1, Wrap(f), i + 4).mem, Span(f, BUS_FRAME));
    }
  }

  /** The stores into a format $B frame, in the order of the bus-error routines. */
  lemma BusFrameStores(m: Bytes, f: int, sr: nat, pc: Long, ssw: nat, addr: Long)
    requires sr < 0x1_0000
    ensures var m1 := Poke(m, f, 2, sr);
            var m2 := Poke(m1, f + 2, 4, pc);
            var m3 := Poke(m2, f + 6, 2, 0xB008);
            var m4 := Poke(m3, f + 0xA, 2, ssw);
            var m5 := Poke(m4, f + 0x10, 4, addr);
            && Holds(m5, f, sr, pc, M68030, 0xB) && SameOutside(m, m5, Span(f, BUS_FRAME))
            && Peek(m5, f + 6, 2) == 0xB008 && Peek(m5, f + 0x10, 4) == addr
            && (ssw < 0x1_0000 ==> Peek(m5, f + 0xA, 2) == ssw)
  {
    hide Peek, Poke;
    Pow256Values();
    var m1 := Poke(m, f, 2, sr);
    var m2 := Poke(m1, f + 2, 4, pc);
    var m3 := Poke(m2, f + 6, 2, 0xB008);
    var m4 := Poke(m3, f + 0xA, 2, ssw);
    Field(m, f, BUS_FRAME, 0, 2, sr);
    Field(m1, f, BUS_FRAME, 2, 4, pc);
    Field(m2, f, BUS_FRAME, 6, 2, 0xB008);
    KeepField(m1, f, BUS_FRAME, 0, 2, 2, 4, pc);
    KeepField(m2, f, BUS_FRAME, 0, 2, 6, 2, 0xB008);
    KeepField(m3, f, BUS_FRAME, 0, 2, 0xA, 2, ssw);
    KeepField(m4, f, BUS_FRAME, 0, 2, 0x10, 4, addr);
    KeepField(m2, f, BUS_FRAME, 2, 4, 6, 2, 0xB008);
    KeepField(m3, f, BUS_FRAME, 2, 4, 0xA, 2, ssw);
    KeepField(m4, f, BUS_FRAME, 2, 4, 0x10, 4, addr);
    KeepField(m3, f, BUS_FRAME, 6, 2, 0xA, 2, ssw);
    KeepField(m4, f, BUS_FRAME, 6, 2, 0x10, 4, addr);
    KeepField(m4, f, BUS_FRAME, 0xA, 2, 0x10, 4, addr);
    Field(m4, f, BUS_FRAME, 0x10, 4, addr);
    if ssw < 0x1_0000 {
      Field(m3, f, BUS_FRAME, 0xA, 2, ssw);
    }
  }

  /** A field stored into a frame reads back. */
  lemma Field(m: Bytes, f: int, size: nat, o: nat, n: nat, v: nat)
    requires o + n <= size <= BUS_FRAME && v < Pow256(n)
    ensures Peek(Poke(m, f + o, n, v), f + o, n) == v
    ensures SameOutside(m, Poke(m, f + o, n, v), Span(f, size))
  {
    hide Peek, Poke, Span, SameOutside;
    PeekPoke(m, f + o, n, v);
    PokeInside(m, f + o, n, v, f, size);
  }

  /** A later store into another field of the frame leaves it. */
  lemma KeepField(m: Bytes, f: int, size: nat, o: nat, n: nat, p: nat, k: nat, v: nat)
    requires o + n <= p && p + k <= size <= BUS_FRAME
    ensures Peek(Poke(m, f + p, k, v), f + o, n) == Peek(m, f + o, n)
    ensures SameOutside(m, Poke(m, f + p, k, v), Span(f, size))
  {
    hide Peek, Poke, Span, SameOutside;
    SpansApart(f + o, n, f + p, k);
    PeekPokeApart(m, f + p, k, v, f + o, n);
    PokeInside(m, f + p, k, v, f, size);
  }

  lemma BusFramePushed(c: Core, sr: nat, pc: Long, ssw: nat, addr: Long, extra: set<Long>)
    requires sr < 0x1_0000 && Ready(c.bus, Span(c.a[7] as int - BUS_FRAME, BUS_FRAME) + extra)
    ensures var c' := PushBusFrame(c, sr, pc, ssw, addr);
            var f := c.a[7] as int - BUS_FRAME;
            && c' == c.(a := c.a[7 := Wrap(f)], bus := c.bus.(mem := c'.bus.mem))
            && Ready(c'.bus, Span(f, BUS_FRAME) + extra)
            && Holds(c'.bus.mem, f, sr, pc, M68030, 0xB)
            && SameOutside(c.bus.mem, c'.bus.mem, Span(f, BUS_FRAME))
            && Peek(c'.bus.mem, f + 6, 2) == 0xB008 && Peek(c'.bus.mem, f + 0x10, 4) == addr
            && (ssw < 0x1_0000 ==> Peek(c'.bus.mem, f + 0xA, 2) == ssw)
  {
    hide Peek, Poke, Ready, Span, Wrap, SameOutside, Write, ZeroFill;
    var f: int := c.a[7] - BUS_FRAME;
    var region := Span(f, BUS_FRAME) + extra;
    ZeroFillReady(c.bus, f, 0, extra);
    var b0 := ZeroFill(c.bus, Wrap(f), 0);
    FrameOffset(f, BUS_FRAME, 0, extra);
    FrameOffset(f, BUS_FRAME, 2, extra);
    FrameOffset(f, BUS_FRAME, 6, extra);
    FrameOffset(f, BUS_FRAME, 0xA, extra);
    FrameOffset(f, BUS_FRAME, 0x10, extra);
    WriteReady(b0, region, f, 2, sr);
    var b1 := Write(b0, Wrap(f), 2, sr);
    WriteReady(b1, region, f + 2, 4, pc);
    var b2 := Write(b1, Wrap(f + 2), 4, pc);
    WriteReady(b2, region, f + 6, 2, 0xB008);
    var b3 := Write(b2, Wrap(f + 6), 2, 0xB008);
    WriteReady(b3, region, f + 0xA, 2, ssw);
    var b4 := Write(b3, Wrap(f + 0xA), 2, ssw);
    WriteReady(b4, region, f + 0x10, 4, addr);
    BusFrameStores(b0.mem, f, sr, pc, ssw, addr);
    SameOutsideChain(c.bus.mem, b0.mem, Write(b4, Wrap(f + 0x10), 4, addr).mem, Span(f, BUS_FRAME));
  }

  /**
  What a bus-fault frame at f tells the handler: the address that faulted, and
  in the special status word a data cycle (bit 8), read or write (bit 6), the
  size field and the function code.
  */
  predicate ShowsFault(m: Bytes, f: int, addr: Long, read: bool, fc: nat) {
    var word := Peek(m, f + 0xA, 2);
    && Peek(m, f + 0x10, 4) == addr
    && Bit(word, 0x100) && Bit(word, 0x40) == read && word / 0x10 % 4 == 1 && word % 8 == fc % 8
  }

  lemma StatusWordBits(read: bool, fc: nat)
    ensures var word := StatusWord(read, fc);
            && word < 0x1_0000 && Bit(word, 0x100) && Bit(word, 0x40) == read
            && word / 0x10 % 4 == 1 && word % 8 == fc % 8
  {
  }

  /** Both routines where nothing faults. */
  lemma BusErrorIs(u: Cpu, e: Entry)
    requires (e.Retry? || e.Skip?) && (e.Skip? ==> !Repeated(u))
    ensures var (s, t) := (ToSupervisor(u), Enter(u, e));
            var c := PushBusFrame(s.core, GetSr(u), StackedPc(u.core.pc, u.ipc, e), StatusWord(e.read, e.fc), e.addr);
            var (b, handler) := Read(c.bus, Wrap(u.vbr + 8), 4);
            c.bus.fault.None? && b.fault.None? ==>
              t == s.(core := c.(bus := b, pc := Wrap(handler)), trace := 0, lastFault := t.lastFault)
  {
    hide PushBusFrame, ToSupervisor, Read, Wrap, GetSr, StatusWord;
  }

  /** Both bus-error routines: the frame, the fault it shows, and the handler it goes to. */
  lemma BusErrorEnters(u: Cpu, e: Entry)
    requires Valid(u) && ViewsAgree(u) && (e.Retry? || e.Skip?) && CanEnter(u, e)
    ensures var t := Enter(u, e);
            && Entered(u, t, BUS_FRAME, 0xB, GetSr(u), StackedPc(u.core.pc, u.ipc, e))
            && Vectored(u, t, BUS_FRAME, 0xB, 8)
            && ShowsFault(t.core.bus.mem, Top(u) as int - BUS_FRAME, e.addr, e.read, e.fc)
  {
    hide Peek, Poke, Ready, Span, Wrap, SameOutside, ToSupervisor, Read, Mapped, PushBusFrame, GetSr, Holds,
         StatusWord, Enter, BusErrorRetry, BusErrorSkip;
    StatusWordBits(e.read, e.fc);
    PeekWrap(Enter(u, e).core.bus.mem, u.vbr + 8, 4);
    BusErrorIs(u, e);
    var extra := Span(VectorAddress(u, e), 4);
    ToSupervisorReady(u, Frame(u, e) + extra);
    ToSupervisorKeeps(u);
    SrRange(u);
    var c := ToSupervisor(u).core;
    var pc, ssw := StackedPc(u.core.pc, u.ipc, e), StatusWord(e.read, e.fc);
    BusFramePushed(c, GetSr(u), pc, ssw, e.addr, extra);
    var c' := PushBusFrame(c, GetSr(u), pc, ssw, e.addr);
    ReadyNoFault(c'.bus, Span(c.a[7] as int - BUS_FRAME, BUS_FRAME) + extra);
    VectorReady(c'.bus, Span(c.a[7] as int - BUS_FRAME, BUS_FRAME) + extra, VectorAddress(u, e));
  }

  lemma ReadyNoFault(b: Bus, region: set<Long>)
    requires Ready(b, region)
    ensures b.fault.None?
  {
  }

  /** Every entry stacks the current status word and its program counter and jumps to its handler. */
  lemma EnterStacks(u: Cpu, e: Entry)
    requires Valid(u) && ViewsAgree(u) && u.ipl == 0 && CanEnter(u, e)
    ensures var t := Enter(u, e);
            && t.ipl == 0
            && Entered(u, t.(mask := u.mask), SizeOf(u.core.model, e), FormatOf(e), GetSr(u),
                       StackedPc(u.core.pc, u.ipc, e))
            && Vectored(u, t, SizeOf(u.core.model, e), FormatOf(e), VectorOf(e))
            && (Span(VectorAddress(u, e), 4) !! Frame(u, e) ==>
                  t.core.pc == Peek(u.core.bus.mem, VectorAddress(u, e), 4))
            && Valid(t) && t.s && !t.m
  {
    hide GetSr, Span, Wrap, Mapped, Holds, SameOutside, Peek, Enter, FormatOf, Vectored, CanEnter, VectorAddress,
         Exception, BusErrorRetry, BusErrorSkip;
    EntryCases(u, e);
    VectorKept(u, e, Enter(u, e));
  }

  lemma EntryCases(u: Cpu, e: Entry)
    requires Valid(u) && ViewsAgree(u) && u.ipl == 0 && CanEnter(u, e)
    ensures var (t, n) := (Enter(u, e), SizeOf(u.core.model, e));
            && t.ipl == 0 && t.mask < 8
            && Entered(u, t.(mask := u.mask), n, FormatOf(e), GetSr(u), StackedPc(u.core.pc, u.ipc, e))
            && Vectored(u, t, n, FormatOf(e), VectorOf(e))
  {
    hide GetSr, Entered, Vectored, CanEnter, Exception, CheckInterrupt, BusErrorRetry, BusErrorSkip, Implemented,
         LongFormat;
    SrRange(u);
    var (t, n) := (Enter(u, e), SizeOf(u.core.model, e));
    match e
    case Trap(vector, pc) =>
      ExceptionEnters(u, vector, pc, GetSr(u));
      EnteredLevels(u, t, n, FormatOf(e), GetSr(u), pc);
    case Interrupt(level) =>
      InterruptEnters(u, level);
      CanInterrupt(u, level);
    case _ =>
      BusErrorEnters(u, e);
      BusModel(u, e);
      EnteredLevels(u, t, n, FormatOf(e), GetSr(u), StackedPc(u.core.pc, u.ipc, e));
  }

  /** An entry other than an interrupt leaves the request and the mask. */
  lemma EnteredLevels(u: Cpu, t: Cpu, n: nat, format: nat, sr: nat, pc: Long)
    requires Entered(u, t, n, format, sr, pc)
    ensures t.mask == u.mask && t.ipl == u.ipl && t.(mask := u.mask) == t
  {
    hide Holds, SameOutside, ToSupervisor;
    ToSupervisorMask(u);
  }

  lemma CanInterrupt(u: Cpu, level: nat)
    requires CanEnter(u, Interrupt(level))
    ensures level < 8
  {
  }

  lemma BusModel(u: Cpu, e: Entry)
    requires CanEnter(u, e) && (e.Retry? || e.Skip?)
    ensures u.core.model.M68030?
  {
  }

  lemma ToSupervisorMask(u: Cpu)
    ensures ToSupervisor(u).mask == u.mask && ToSupervisor(u).ipl == u.ipl
  {
  }

  /** A vector outside the frame is the one there was before the entry. */
  lemma VectorKept(u: Cpu, e: Entry, t: Cpu)
    ensures var n := SizeOf(u.core.model, e);
            Vectored(u, t, n, FormatOf(e), VectorOf(e)) && Span(VectorAddress(u, e), 4) !! Frame(u, e)
            && SameOutside(u.core.bus.mem, t.core.bus.mem, Frame(u, e)) ==>
              t.core.pc == Peek(u.core.bus.mem, VectorAddress(u, e), 4)
  {
    hide Peek, Span, Wrap, FormatOf;
    var at := if u.core.model.M68030? then u.vbr + VectorOf(e) else VectorOf(e);
    PeekWrap(t.core.bus.mem, at, 4);
    if Span(VectorAddress(u, e), 4) !! Frame(u, e) && SameOutside(u.core.bus.mem, t.core.bus.mem, Frame(u, e)) {
      PeekSame(u.core.bus.mem, t.core.bus.mem, VectorAddress(u, e), 4);
    }
  }

  lemma InterruptEnters(u: Cpu, level: nat)
    requires Valid(u) && ViewsAgree(u) && u.ipl == 0 && CanEnter(u, Interrupt(level))
    ensures var t := Enter(u, Interrupt(level));
            var (n, format) := (SizeOf(u.core.model, Interrupt(level)), FormatOf(Interrupt(level)));
            && t.mask == level && t.ipl == 0
            && Entered(u, t.(mask := u.mask), n, format, GetSr(u), u.core.pc)
            && Vectored(u, t, n, format, 0x60 + 4 * level)
  {
    hide Span, Wrap, Mapped, Holds, SameOutside, Exception, GetSr, ToSupervisor, LongFormat, Implemented;
    SrRange(u);
    var v := u.(ipl := level, mask := level);
    var vector := 0x60 + 4 * level;
    IplInvisible(u, level);
    ExceptionEnters(v, vector, u.core.pc, GetSr(u));
  }

  lemma IplInvisible(u: Cpu, level: nat)
    ensures GetSr(u.(ipl := level)) == GetSr(u)
    ensures ToSupervisor(u).ipl == u.ipl && ToSupervisor(u).mask == u.mask
    ensures ToSupervisor(u.(ipl := level, mask := level)) == ToSupervisor(u).(ipl := level, mask := level)
  {
  }

  // ---- returns ----------------------------------------------------------

  /** The status word, registers and stack pointers a program sees are those of u. */
  predicate SameProgram(u: Cpu, t: Cpu) {
    && GetSr(t) == GetSr(u)
    && t.core.d == u.core.d && t.core.a[..7] == u.core.a[..7]
    && Usp(t) == Usp(u) && Isp(t) == Isp(u) && Msp(t) == Msp(u)
  }

  /** Conditions every machine in a run meets, and what no step changes. */
  predicate Settled(u: Cpu) {
    Valid(u) && ViewsAgree(u) && u.ipl == 0 && u.core.bus.fault.None?
  }

  predicate SameBoard(u: Cpu, t: Cpu) {
    && t.core.model == u.core.model && t.vbr == u.vbr
    && t.core.bus.superFaults == u.core.bus.superFaults
  }

  /** RTE of an intact frame of n bytes at b. */
  lemma RteReturns(t: Cpu, b: int, n: nat, sr: nat, pc: Long, format: nat)
    requires Settled(t) && t.s && !t.m && t.core.a[7] == Wrap(b)
    requires Holds(t.core.bus.mem, b, sr, pc, t.core.model, format)
    requires if t.core.model.M68030? then FrameSize(format) == Some(n) else n == 6
    requires Mapped(t.core.bus, Span(b, n))
    ensures var r := Rte(t);
            && Settled(r) && SameBoard(t, r) && r.ipc == t.ipc
            && GetSr(r) == Implemented(t.core.model, sr) && r.core.pc == pc
            && r.core.d == t.core.d && r.core.a[..7] == t.core.a[..7]
            && Usp(r) == Usp(t) && Isp(r) == Wrap(b + n) && Msp(r) == Msp(t)
            && r.core.bus.mem == t.core.bus.mem
  {
    hide Span, Mapped, Peek, Read, LoadSr, GetSr, Implemented, Wrap;
    var sp := t.core.a[7];
    WrapTwice(b, 2);
    WrapTwice(b, 6);
    WrapTwice(b, n);
    WrapLong(pc);
    SpanMember(b, n, 0);
    SpanMember(b, n, 2);
    ReadReady(t.core.bus, Span(b, n), b, 2);
    var b1 := Read(t.core.bus, sp, 2).0;
    ReadReady(b1, Span(b, n), b + 2, 4);
    var b2 := Read(b1, Wrap(sp + 2), 4).0;
    if t.core.model.M68030? {
      SpanMember(b, n, 6);
      ReadReady(b2, Span(b, n), b + 6, 2);
    }
    var b3 := if t.core.model.M68030? then Read(b2, Wrap(sp + 6), 2).0 else b2;
    var v := t.(core := t.core.(bus := b3, a := t.core.a[7 := Wrap(sp + n)], pc := Wrap(pc)));
    LoadSrRefines(v, sr);
    LoadSrBoard(v, sr);
    assert InterruptDue(0, LoadSr(v, sr).mask) == false;
  }

  lemma LoadSrBoard(u: Cpu, sr: nat)
    requires Valid(u)
    ensures var t := LoadSr(u, sr);
            SameBoard(u, t) && t.ipc == u.ipc && t.ipl == u.ipl && t.core.bus.fault == u.core.bus.fault
  {
    hide Rebank, WriteCcr;
    RebankKeeps(u, Bit(sr, 0x2000), u.core.model.M68030? && Bit(sr, 0x1000));
  }

  /** The one kind of entry that mixes up two stack pointers. */
  predicate UserWithMaster(u: Cpu) {
    !u.s && u.m && u.core.model.M68030?
  }

  /** An entry from here pushes on the interrupt stack, or on one that coincides with it. */
  predicate Banked(u: Cpu) {
    !UserWithMaster(u) || u.ssp == u.msp
  }

  lemma FormatSize(e: Entry)
    ensures FrameSize(FormatOf(e)) == Some(SizeOf(M68030, e))
  {
  }

  /** The registers a handler has to give back. */
  predicate GivesBack(h: Cpu, t: Cpu) {
    t.core.d == h.core.d && t.core.a == h.core.a
  }

  /**
  One entry and its RTE, with anything in between that stays in the handler's
  mode and gives D0-A7, USP, MSP and the frame back: everything is restored,
  flags and mask included, except that from user mode with M set the frame goes
  on the master stack and ISP comes back as MSP.
  */
  lemma EntryUndone(u: Cpu, e: Entry, t: Cpu)
    requires Settled(u) && CanEnter(u, e)
    requires Settled(t) && SameBoard(Enter(u, e), t) && t.s && !t.m && GivesBack(Enter(u, e), t)
    requires Usp(t) == Usp(Enter(u, e)) && Msp(t) == Msp(Enter(u, e))
    requires forall x :: x in Frame(u, e) ==> Get(t.core.bus.mem, x) == Get(Enter(u, e).core.bus.mem, x)
    ensures var r := Rte(t);
            && Settled(r) && SameBoard(u, r) && r.ipc == t.ipc
            && r.core.pc == StackedPc(u.core.pc, u.ipc, e) && GetSr(r) == GetSr(u)
            && r.core.d == u.core.d && r.core.a[..7] == u.core.a[..7]
            && Usp(r) == Usp(u) && Msp(r) == Msp(u)
            && Isp(r) == (if UserWithMaster(u) then u.msp else Isp(u))
            && r.core.bus.mem == t.core.bus.mem
  {
    hide Rte, Mapped, Peek, GetSr, Implemented, Wrap, FormatOf, Enter, LongFormat;
    var n, sr, pc := SizeOf(u.core.model, e), GetSr(u), StackedPc(u.core.pc, u.ipc, e);
    var h := Enter(u, e);
    var b := Top(u) as int - n;
    EnterStacks(u, e);
    SrRange(u);
    FrameKept(h.core.bus.mem, t.core.bus.mem, b, n, sr, pc, u.core.model, FormatOf(e));
    FormatSize(e);
    MappedPart(u.core.bus, t.core.bus, Frame(u, e), Span(VectorAddress(u, e), 4));
    RteReturns(t, b, n, sr, pc, FormatOf(e));
    WrapLong(Top(u));
  }

  lemma MappedPart(b: Bus, b': Bus, region: set<Long>, more: set<Long>)
    requires Mapped(b, region + more) && b'.superFaults == b.superFaults
    ensures Mapped(b', region)
  {
  }

  lemma FrameKept(m: Bytes, m': Bytes, b: int, n: nat, sr: nat, pc: Long, model: Model, format: nat)
    requires Holds(m, b, sr, pc, model, format) && n >= (if model.M68030? then 8 else 6)
    requires forall x :: x in Span(b, n) ==> Get(m', x) == Get(m, x)
    ensures Holds(m', b, sr, pc, model, format)
  {
    hide Peek;
    SpanInside(b, n, b, 2);
    SpanInside(b, n, b + 2, 4);
    PeekSame(m, m', b, 2);
    PeekSame(m, m', b + 2, 4);
    if model.M68030? {
      SpanInside(b, n, b + 6, 2);
      PeekSame(m, m', b + 6, 2);
    }
  }

  // ---- nested runs ------------------------------------------------------

  /** What an instruction leaves in the registers and flags; A7 is among `a`. */
  datatype Effect = Effect(pc: Long, ipc: Long, d: Regs, a: Regs, ccr: Ccr, mask: nat)

  /**
  A well-nested sequence: instructions, stores, and exceptions whose handlers
  are such sequences themselves.
  */
  datatype Run =
    | Done
    | Walk(effect: Effect, rest: Run)
    | Scribble(stores: Bytes, rest: Run)
    | Handle(entry: Entry, inside: Run, after: Run)

  function Moved(u: Cpu, f: Effect): Cpu {
    u.(ipc := f.ipc, ccr := f.ccr, mask := f.mask, core := u.core.(pc := f.pc, d := f.d, a := f.a))
  }

  function Store(u: Cpu, stores: Bytes): Cpu {
    u.(core := u.core.(bus := u.core.bus.(mem := u.core.bus.mem + stores)))
  }

  function Exec(u: Cpu, r: Run): Cpu
    decreases r
  {
    match r
    case Done => u
    case Walk(f, rest) => Exec(Moved(u, f), rest)
    case Scribble(w, rest) => Exec(Store(u, w), rest)
    case Handle(e, inside, after) => Exec(Rte(Exec(Enter(u, e), inside)), after)
  }

  /**
  Entries are possible when they happen, no live frame is overwritten, and a
  handler has D0-A7 back in place when it returns; flags and mask it may leave
  as they are.
  */
  predicate Proper(u: Cpu, r: Run, live: set<Long>)
    decreases r
  {
    match r
    case Done => true
    case Walk(f, rest) => f.mask < 8 && Proper(Moved(u, f), rest, live)
    case Scribble(w, rest) => w.Keys !! live && Proper(Store(u, w), rest, live)
    case Handle(e, inside, after) =>
      && CanEnter(u, e) && Frame(u, e) !! live
      && Proper(Enter(u, e), inside, live + Frame(u, e))
      && GivesBack(Enter(u, e), Exec(Enter(u, e), inside))
      && Proper(Rte(Exec(Enter(u, e), inside)), after, live)
  }

  /** The instruction address after a run; RTE does not restore it. */
  function ResumeIpc(ipc: Long, r: Run): Long
    decreases r
  {
    match r
    case Done => ipc
    case Walk(f, rest) => ResumeIpc(f.ipc, rest)
    case Scribble(_, rest) => ResumeIpc(ipc, rest)
    case Handle(_, inside, after) => ResumeIpc(ResumeIpc(ipc, inside), after)
  }

  /** Where a handler that is entered from here returns to. */
  function Returned(u: Cpu, e: Entry, inside: Run): Cpu {
    u.(ipc := ResumeIpc(u.ipc, inside), core := u.core.(pc := StackedPc(u.core.pc, u.ipc, e)))
  }

  /** The program's own instructions, with every exception left out. */
  function Alone(u: Cpu, r: Run): Cpu
    decreases r
  {
    match r
    case Done => u
    case Walk(f, rest) => Alone(Moved(u, f), rest)
    case Scribble(_, rest) => Alone(u, rest)
    case Handle(e, inside, after) => Alone(Returned(u, e, inside), after)
  }

  /** Two machines a program cannot tell apart by its registers. */
  predicate Alike(u: Cpu, t: Cpu) {
    && t.core.model == u.core.model && t.core.pc == u.core.pc && t.ipc == u.ipc
    && t.core.d == u.core.d && t.core.a == u.core.a
    && t.s == u.s && t.m == u.m && t.trace == u.trace && t.mask == u.mask && t.ccr == u.ccr
    && Usp(t) == Usp(u) && Isp(t) == Isp(u) && Msp(t) == Msp(u)
  }

  predicate SameOn(m: Bytes, m': Bytes, region: set<Long>) {
    forall x :: x in region ==> Get(m', x) == Get(m, x)
  }

  /** Like machines stay alike under a program's own instructions. */
  lemma {:induction false} AloneAlike(u: Cpu, t: Cpu, r: Run)
    requires Alike(u, t)
    ensures Alike(Alone(u, r), Alone(t, r))
    decreases r
  {
    match r
    case Done =>
    case Walk(f, rest) =>
      AloneAlike(Moved(u, f), Moved(t, f), rest);
    case Scribble(_, rest) => AloneAlike(u, t, rest);
    case Handle(e, inside, after) => AloneAlike(Returned(u, e, inside), Returned(t, e, inside), after);
  }

  /** They touch neither the mode nor a stack pointer that is not in A7. */
  lemma {:induction false} AloneKeeps(u: Cpu, r: Run)
    ensures var t := Alone(u, r);
            && t.s == u.s && t.m == u.m && t.core.model == u.core.model
            && t.ssp == u.ssp && t.usp == u.usp && t.msp == u.msp
    decreases r
  {
    match r
    case Done =>
    case Walk(f, rest) => AloneKeeps(Moved(u, f), rest);
    case Scribble(_, rest) => AloneKeeps(u, rest);
    case Handle(e, inside, after) => AloneKeeps(Returned(u, e, inside), after);
  }

  lemma AlikeChain(u: Cpu, v: Cpu, t: Cpu)
    requires Alike(u, v) && Alike(v, t)
    ensures Alike(u, t)
  {
  }

  /**
  Any well-nested sequence of exceptions and returns, to any depth, is
  invisible: status register, program counter, D0-A7 and the three stack
  pointers end as if the program's own instructions had run alone, and live
  frames are intact.
  */
  lemma {:induction false} NestingRestores(u: Cpu, r: Run, live: set<Long>)
    requires Settled(u) && Banked(u) && Proper(u, r, live)
    ensures var t := Exec(u, r);
            && Settled(t) && SameBoard(u, t) && Alike(Alone(u, r), t)
            && SameOn(u.core.bus.mem, t.core.bus.mem, live)
    decreases r
  {
    hide Rte, Enter, CanEnter, GetSr, Frame, StackedPc, Alike;
    match r
    case Done => AlikeSelf(u);
    case Walk(f, rest) =>
      MoveKeeps(u, f);
      NestingRestores(Moved(u, f), rest, live);
    case Scribble(w, rest) =>
      StoreKeeps(u, w, live);
      NestingRestores(Store(u, w), rest, live);
      AloneAlike(u, Store(u, w), rest);
      AlikeChain(Alone(u, rest), Alone(Store(u, w), rest), Exec(u, r));
    case Handle(e, inside, after) =>
      EnterSettled(u, e, live);
      NestingRestores(Enter(u, e), inside, live + Frame(u, e));
      HandlerReturns(u, e, inside, live);
      var v := Rte(Exec(Enter(u, e), inside));
      ReturnAlike(u, e, inside, v);
      NestingRestores(v, after, live);
      AloneAlike(Returned(u, e, inside), v, after);
      AlikeChain(Alone(Returned(u, e, inside), after), Alone(v, after), Exec(v, after));
  }

  /** No instruction of the program's own, exceptions and stores only. */
  predicate OnlyExceptions(r: Run) {
    match r
    case Done => true
    case Walk(_, _) => false
    case Scribble(_, rest) => OnlyExceptions(rest)
    case Handle(_, _, after) => OnlyExceptions(after)
  }

  lemma {:induction false} AloneStays(u: Cpu, r: Run)
    requires OnlyExceptions(r)
    ensures var t := Alone(u, r); t == u.(ipc := t.ipc, core := u.core.(pc := t.core.pc))
    decreases r
  {
    match r
    case Done =>
    case Scribble(_, rest) => AloneStays(u, rest);
    case Handle(e, inside, after) => AloneStays(Returned(u, e, inside), after);
  }

  /** Exceptions alone, nested to any depth, give the interrupted program back. */
  lemma ExceptionsRestore(u: Cpu, r: Run, live: set<Long>)
    requires Settled(u) && Banked(u) && Proper(u, r, live) && OnlyExceptions(r)
    ensures SameProgram(u, Exec(u, r)) && Exec(u, r).core.pc == Alone(u, r).core.pc
  {
    hide Exec, Alone, Proper, Settled, OnlyExceptions;
    NestingRestores(u, r, live);
    AloneStays(u, r);
  }

  lemma AlikeSelf(u: Cpu)
    ensures Alike(u, u)
  {
  }

  lemma {:induction false} AloneIpc(u: Cpu, r: Run)
    ensures Alone(u, r).ipc == ResumeIpc(u.ipc, r)
    decreases r
  {
    match r
    case Done =>
    case Walk(f, rest) => AloneIpc(Moved(u, f), rest);
    case Scribble(_, rest) => AloneIpc(u, rest);
    case Handle(e, inside, after) => AloneIpc(Returned(u, e, inside), after);
  }

  /** A handler that ran as if alone has returned its caller's state. */
  lemma HandlerReturns(u: Cpu, e: Entry, inside: Run, live: set<Long>)
    requires Settled(u) && CanEnter(u, e) && Frame(u, e) !! live
    requires var (h, t) := (Enter(u, e), Exec(Enter(u, e), inside));
             && Settled(t) && SameBoard(h, t) && Alike(Alone(h, inside), t) && GivesBack(h, t)
             && SameOn(h.core.bus.mem, t.core.bus.mem, live + Frame(u, e))
    ensures var (t, r) := (Exec(Enter(u, e), inside), Rte(Exec(Enter(u, e), inside)));
            && Settled(r) && SameBoard(u, r) && r.ipc == ResumeIpc(u.ipc, inside)
            && r.core.pc == StackedPc(u.core.pc, u.ipc, e) && GetSr(r) == GetSr(u)
            && r.core.d == u.core.d && r.core.a[..7] == u.core.a[..7]
            && Usp(r) == Usp(u) && Msp(r) == Msp(u)
            && Isp(r) == (if UserWithMaster(u) then u.msp else Isp(u))
            && r.core.bus.mem == t.core.bus.mem
            && SameOn(u.core.bus.mem, r.core.bus.mem, live)
  {
    hide Rte, Enter, Exec, CanEnter, GetSr, Frame, StackedPc, Alone, Settled;
    var (h, t) := (Enter(u, e), Exec(Enter(u, e), inside));
    EnterSettled(u, e, live);
    EnterMode(u, e);
    AloneKeeps(h, inside);
    AloneIpc(h, inside);
    EntryUndone(u, e, t);
  }

  lemma EnterMode(u: Cpu, e: Entry)
    requires Settled(u) && CanEnter(u, e)
    ensures var h := Enter(u, e); h.s && !h.m
  {
    hide Enter, GetSr, Span, Wrap, Mapped, Holds, FormatOf, SameOutside;
    EnterStacks(u, e);
  }

  /** The state RTE brings back is the interrupted one, moved to the stacked PC. */
  lemma ReturnAlike(u: Cpu, e: Entry, inside: Run, v: Cpu)
    requires Valid(u) && Valid(v) && Banked(u) && v.core.model == u.core.model && GetSr(v) == GetSr(u)
    requires v.core.pc == StackedPc(u.core.pc, u.ipc, e) && v.ipc == ResumeIpc(u.ipc, inside)
    requires v.core.d == u.core.d && v.core.a[..7] == u.core.a[..7]
    requires Usp(v) == Usp(u) && Msp(v) == Msp(u) && Isp(v) == (if UserWithMaster(u) then u.msp else Isp(u))
    ensures Alike(Returned(u, e, inside), v) && Banked(v)
  {
    hide GetSr, StackedPc, ResumeIpc;
    SrInjective(u, v);
    assert v.core.a == v.core.a[..7] + [v.core.a[7]] && u.core.a == u.core.a[..7] + [u.core.a[7]];
  }

  lemma MoveKeeps(u: Cpu, f: Effect)
    requires Settled(u) && f.mask < 8
    ensures var t := Moved(u, f); Settled(t) && SameBoard(u, t) && Banked(t) == Banked(u)
  {
  }

  lemma StoreKeeps(u: Cpu, w: Bytes, live: set<Long>)
    requires Settled(u) && w.Keys !! live
    ensures var t := Store(u, w);
            && Settled(t) && SameBoard(u, t) && Alike(u, t) && Banked(t) == Banked(u)
            && SameOn(u.core.bus.mem, t.core.bus.mem, live)
  {
  }

  lemma EnterSettled(u: Cpu, e: Entry, live: set<Long>)
    requires Settled(u) && CanEnter(u, e) && Frame(u, e) !! live
    ensures var h := Enter(u, e);
            Settled(h) && SameBoard(u, h) && Banked(h) && h.ipc == u.ipc
            && SameOn(u.core.bus.mem, h.core.bus.mem, live)
  {
    hide Enter, GetSr, Span, Wrap, Mapped, Holds, FormatOf;
    EnterStacks(u, e);
  }

  /** The run contains an entry. */
  predicate Enters(r: Run) {
    match r
    case Done => false
    case Walk(_, rest) => Enters(rest)
    case Scribble(_, rest) => Enters(rest)
    case Handle(_, _, _) => true
  }

  /**
  The exact condition: a run that takes any exception at all leaves the program
  as it would be alone if and only if it did not start in user mode with M set
  on two different supervisor stacks.
  */
  lemma {:induction false} NestingExact(u: Cpu, r: Run, live: set<Long>)
    requires Settled(u) && Proper(u, r, live)
    ensures Alike(Alone(u, r), Exec(u, r)) <==> (Banked(u) || !Enters(r))
    decreases r
  {
    hide Rte, Enter, CanEnter, GetSr, Frame, StackedPc, Alike;
    if Banked(u) {
      NestingRestores(u, r, live);
    } else {
      match r
      case Done => AlikeSelf(u);
      case Walk(f, rest) =>
        MoveKeeps(u, f);
        NestingExact(Moved(u, f), rest, live);
      case Scribble(w, rest) =>
        StoreKeeps(u, w, live);
        NestingExact(Store(u, w), rest, live);
        AloneAlike(u, Store(u, w), rest);
        AloneAlike(Store(u, w), u, rest);
        AlikeBoth(Alone(u, rest), Alone(Store(u, w), rest), Exec(u, r));
      case Handle(e, inside, after) =>
        EnterSettled(u, e, live);
        NestingRestores(Enter(u, e), inside, live + Frame(u, e));
        HandlerReturns(u, e, inside, live);
        StackLost(u, e, inside, after, live);
    }
  }

  lemma AlikeBoth(u: Cpu, v: Cpu, t: Cpu)
    requires Alike(u, v)
    ensures Alike(u, t) <==> Alike(v, t)
    ensures Alike(v, u)
  {
  }

  /** The first entry already puts MSP in the place of ISP. */
  lemma StackLost(u: Cpu, e: Entry, inside: Run, after: Run, live: set<Long>)
    requires Settled(u) && !Banked(u)
    requires var v := Rte(Exec(Enter(u, e), inside));
             && Settled(v) && GetSr(v) == GetSr(u) && v.core.model == u.core.model
             && Isp(v) == u.msp && Msp(v) == Msp(u) && Proper(v, after, live)
    ensures var r := Handle(e, inside, after);
            Isp(Exec(u, r)) == u.msp && !Alike(Alone(u, r), Exec(u, r))
  {
    hide Rte, Enter, Exec, GetSr, StackedPc, Alone, Proper, Settled;
    var v := Rte(Exec(Enter(u, e), inside));
    SettledValid(u);
    SettledValid(v);
    SrInjective(u, v);
    NestingRestores(v, after, live);
    AloneKeeps(v, after);
    AloneKeeps(Returned(u, e, inside), after);
    ExecHandle(u, e, inside, after);
  }

  lemma SettledValid(u: Cpu)
    requires Settled(u)
    ensures Valid(u)
  {
  }

  lemma ExecHandle(u: Cpu, e: Entry, inside: Run, after: Run)
    ensures Exec(u, Handle(e, inside, after)) == Exec(Rte(Exec(Enter(u, e), inside)), after)
    ensures Alone(u, Handle(e, inside, after)) == Alone(Returned(u, e, inside), after)
  {
    hide Rte, Enter, StackedPc;
  }

  /** The failing case is reachable: one TRAP taken in user mode with M set. */
  lemma UserTrapLosesStack(u: Cpu)
    requires Settled(u) && UserWithMaster(u) && u.ssp != u.msp && u.core.bus.superFaults == {}
    ensures var r := Handle(Trap(0x80, 0), Done, Done);
            && Proper(u, r, {}) && !Alike(Alone(u, r), Exec(u, r))
            && !SameProgram(u, Exec(u, r)) && Isp(Exec(u, r)) == u.msp
  {
    hide Rte, Enter, GetSr, Frame, Alike;
    var e := Trap(0x80, 0);
    NestingExact(u, Handle(e, Done, Done), {});
    EnterSettled(u, e, {});
    EnterMode(u, e);
    EntryUndone(u, e, Enter(u, e));
  }

  /** Every byte the run writes, frames included, lies in the region. */
  predicate Confined(u: Cpu, r: Run, region: set<Long>)
    decreases r
  {
    match r
    case Done => true
    case Walk(f, rest) => Confined(Moved(u, f), rest, region)
    case Scribble(w, rest) => w.Keys <= region && Confined(Store(u, w), rest, region)
    case Handle(e, inside, after) =>
      && Frame(u, e) <= region
      && Confined(Enter(u, e), inside, region)
      && Confined(Rte(Exec(Enter(u, e), inside)), after, region)
  }

  /** A confined run changes memory in the region only. */
  lemma {:induction false} ConfinedWrites(u: Cpu, r: Run, live: set<Long>, region: set<Long>)
    requires Settled(u) && Banked(u) && Proper(u, r, live) && Confined(u, r, region)
    ensures SameOutside(u.core.bus.mem, Exec(u, r).core.bus.mem, region)
    decreases r
  {
    hide Rte, Enter, CanEnter, GetSr, Frame, StackedPc, Span, Alike;
    match r
    case Done =>
    case Walk(f, rest) =>
      MoveKeeps(u, f);
      ConfinedWrites(Moved(u, f), rest, live, region);
    case Scribble(w, rest) =>
      StoreKeeps(u, w, live);
      ConfinedWrites(Store(u, w), rest, live, region);
    case Handle(e, inside, after) =>
      var h := Enter(u, e);
      EnterSettled(u, e, live);
      EnterWrites(u, e);
      ConfinedWrites(h, inside, live + Frame(u, e), region);
      NestingRestores(h, inside, live + Frame(u, e));
      HandlerReturns(u, e, inside, live);
      var v := Rte(Exec(h, inside));
      ReturnAlike(u, e, inside, v);
      ConfinedWrites(v, after, live, region);
  }

  lemma EnterWrites(u: Cpu, e: Entry)
    requires Settled(u) && CanEnter(u, e)
    ensures SameOutside(u.core.bus.mem, Enter(u, e).core.bus.mem, Frame(u, e))
  {
    hide Enter, GetSr, Wrap, Span, Mapped, Holds, FormatOf;
    EnterStacks(u, e);
  }
}
