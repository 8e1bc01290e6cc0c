/**
The disassembler's account of instruction length against the executor's
(src/core/cpu/cpu_disasm.c, src/core/cpu/cpu_internal.h) for MOVE and the
immediate group, and the listing loop of tools/dump/annotate_disasm.c.
*/
module Disasm {
  import opened Words
  import opened Memory
  import opened Operands
  import opened Arithmetic
  import Addressing
  import Chains

  type Word = x: int | 0 <= x < 0x1_0000

  /** n words of code followed by the eight zero words of lookahead. */
  predicate Padded(w: seq<Word>, n: nat) {
    |w| == n + 8 && forall i :: n <= i < n + 8 ==> w[i] == 0
  }

  // ---- operands ---------------------------------------------------------

  /** `full_ext_word_count`. */
  function FullExtWords(ext: nat): nat {
    if !Bit(ext, 0x100) then 1
    else
      var bd := ext / 0x10 % 4;
      var od := ext % 4;
      1 + (if bd == 2 then 1 else if bd == 3 then 2 else 0) + (if od == 2 then 1 else if od == 3 then 2 else 0)
  }

  /** `ea_words`. */
  function EaWords(mode: nat, reg: nat, size: nat, ext: nat): nat {
    match mode
    case 5 => 1
    case 6 => FullExtWords(ext)
    case 7 => (match reg
               case 0 => 1
               case 1 => 2
               case 2 => 1
               case 3 => FullExtWords(ext)
               case 4 => if size > 2 then 2 else 1
               case _ => 0)
    case _ => 0
  }

  /** Addressing modes a table entry lets through (`ea_mode_t`), by mode index. */
  datatype Modes = Any | Alterable | DataAlterable | DataNoImmediate

  predicate Supports(m: Modes, i: nat) {
    match m
    case Any => i < 12
    case Alterable => i < 9
    case DataAlterable => i < 9 && i != 1
    case DataNoImmediate => i < 11 && i != 1
  }

  /** A rendered operand: the word after it and the displacements and immediates printed. */
  datatype Shown = Illegal | Operand(next: nat, numbers: seq<int>)

  function LongAt(w: seq<Word>, i: nat): nat
    requires i + 1 < |w|
  {
    var high: int := w[i];
    high * 0x1_0000 + w[i + 1]
  }

  /** A displacement of the selected size, printed when it has one. */
  function ShowDisplacement(w: seq<Word>, pos: nat, sel: nat): (nat, seq<int>)
    requires pos + 1 < |w|
  {
    if sel == 2 then (pos + 1, [S16(w[pos])])
    else if sel == 3 then (pos + 2, [LongAt(w, pos)])
    else (pos, [])
  }

  /** `disasm_ea_full`: reserved encodings are illegal. */
  function DisasmFull(w: seq<Word>, n: nat, pos: nat): (s: Shown)
    requires Padded(w, n) && pos < n
  {
    var ext := w[pos];
    var bd := ext / 0x10 % 4;
    var iis := ext % 8;
    if bd == 0 || (if Bit(ext, 0x40) then iis >= 4 else iis == 4) then Illegal
    else
      var (p1, base) := ShowDisplacement(w, pos + 1, bd);
      var (p2, outer) := ShowDisplacement(w, p1, iis % 4);
      Operand(p2, base + outer)
  }

  /** Mode 6 and (d8,PC,Xn): brief or full; `bias` is added to a printed PC displacement. */
  function DisasmIndexed(w: seq<Word>, n: nat, pos: nat, bias: int): (s: Shown)
    requires Padded(w, n) && pos <= n + 6
  {
    if Bit(w[pos], 0x100) then DisasmFull(w, n, pos) else Operand(pos + 1, [S8(w[pos]) + bias])
  }

  /**
  `disasm_ea` for the instruction at word p, with `skip` words between the
  opcode and the operand's own extension words.
  */
  function DisasmEa(w: seq<Word>, n: nat, p: nat, skip: nat, size: nat, mode: nat, reg: nat, modes: Modes): (s: Shown)
    requires Padded(w, n) && p + 1 + skip <= n + 6 && mode < 8 && reg < 8
  {
    var pos := p + 1 + skip;
    var bias := 2 + 2 * skip;
    if !Supports(modes, ModeIndex(mode, reg)) then Illegal
    else match mode
      case 5 => Operand(pos + 1, [S16(w[pos])])
      case 6 => DisasmIndexed(w, n, pos, 0)
      case 7 => (match reg
                 case 0 => Operand(pos + 1, [S16(w[pos])])
                 case 1 => Operand(pos + 2, [LongAt(w, pos)])
                 case 2 => Operand(pos + 1, [S16(w[pos]) + bias])
                 case 3 => DisasmIndexed(w, n, pos, bias)
                 case 4 => if size == 4 then Operand(pos + 2, [LongAt(w, pos)]) else Operand(pos + 1, [w[pos]])
                 case _ => Illegal)
      case _ => Operand(pos, [])
  }

  /** The word count the table computes is the one the renderer uses up. */
  lemma WordsAgree(w: seq<Word>, n: nat, p: nat, skip: nat, size: nat, mode: nat, reg: nat, modes: Modes)
    requires Padded(w, n) && p + 1 + skip <= n + 6 && mode < 8 && reg < 8
    requires DisasmEa(w, n, p, skip, size, mode, reg, modes).Operand? && (size == 1 || size == 2 || size == 4)
    ensures DisasmEa(w, n, p, skip, size, mode, reg, modes).next
         == p + 1 + skip + EaWords(mode, reg, size, w[p + 1 + skip])
  {
    hide DisasmIndexed, FullExtWords, Bit, S16, LongAt;
    IndexedWords(w, n, p + 1 + skip, 0);
    IndexedWords(w, n, p + 1 + skip, 2 + 2 * skip);
  }

  lemma IndexedWords(w: seq<Word>, n: nat, pos: nat, bias: int)
    requires Padded(w, n) && pos <= n + 6
    ensures var s := DisasmIndexed(w, n, pos, bias); s.Operand? ==> s.next == pos + FullExtWords(w[pos])
  {
    hide LongAt, S16, S8;
    var ext := w[pos];
    assert ext % 8 % 4 == ext % 4;
  }

  // ---- instructions -----------------------------------------------------

  /** ORI, ANDI, SUBI, ADDI, EORI and CMPI to an effective address the executor accepts. */
  predicate IsImmediate(op: nat) {
    && op < 0x1000 && op / 0x40 % 8 < 3
    && (var family := op / 0x200;
        family != 4 && family != 7
        && Supports(if family == 6 then DataNoImmediate else DataAlterable, ModeIndex(SrcMode(op), SrcReg(op))))
  }

  function ImmediateSize(op: nat): nat {
    if op / 0x40 % 8 == 0 then 1 else if op / 0x40 % 8 == 1 then 2 else 4
  }

  function ImmediateWords(op: nat): nat {
    if ImmediateSize(op) == 4 then 2 else 1
  }

  /** The instruction families listed and executed here. */
  predicate InFamily(op: nat) {
    IsMove(op) || IsImmediate(op)
  }

  lemma SourceWordsBound(w: seq<Word>, n: nat, p: nat, mode: nat, reg: nat, size: nat)
    requires Padded(w, n) && p < n
    ensures p + 1 + EaWords(mode, reg, size, w[p + 1]) <= n + 4
  {
  }

  /** Source and destination of MOVE; the destination starts after the words counted for the source. */
  function DisasmMove(w: seq<Word>, n: nat, p: nat): (Shown, Shown)
    requires Padded(w, n) && p < n
  {
    var op := w[p];
    var size := MoveSize(op);
    var skip := EaWords(SrcMode(op), SrcReg(op), size, w[p + 1]);
    SourceWordsBound(w, n, p, SrcMode(op), SrcReg(op), size);
    (DisasmEa(w, n, p, 0, size, SrcMode(op), SrcReg(op), Any),
     DisasmEa(w, n, p, skip, size, DstMode(op), DstReg(op), Alterable))
  }

  function DisasmImmediate(w: seq<Word>, n: nat, p: nat): Shown
    requires Padded(w, n) && p < n
  {
    var op := w[p];
    DisasmEa(w, n, p, ImmediateWords(op), ImmediateSize(op), SrcMode(op), SrcReg(op),
             if op / 0x200 == 6 then DataNoImmediate else DataAlterable)
  }

  /**
  `cpu_disasm` on these families: the number of words, the larger of the two
  fetch positions; 1 for what is shown as DC.W.
  */
  function DisasmLength(w: seq<Word>, n: nat, p: nat): (len: nat)
    requires Padded(w, n) && p < n && InFamily(w[p])
    ensures len >= 1
  {
    if IsMove(w[p]) then
      var (src, dst) := DisasmMove(w, n, p);
      if src.Illegal? || dst.Illegal? then 1
      else if dst.next > src.next then dst.next - p else src.next - p
    else
      var dst := DisasmImmediate(w, n, p);
      if dst.Illegal? then 1 else dst.next - p
  }

  predicate ShownAsData(w: seq<Word>, n: nat, p: nat)
    requires Padded(w, n) && p < n && InFamily(w[p])
  {
    if IsMove(w[p]) then var (src, dst) := DisasmMove(w, n, p); src.Illegal? || dst.Illegal?
    else DisasmImmediate(w, n, p).Illegal?
  }

  // ---- the executor's side ----------------------------------------------

  function ImmediateResult(family: nat, size: nat, dst: nat, src: nat): nat {
    var p := Pow256(size);
    match family
    case 0 => Or(8 * size, dst, src)
    case 1 => And(8 * size, dst, src)
    case 2 => (dst - src) % p
    case 3 => (dst + src) % p
    case _ => Xor(8 * size, dst, src)
  }

  /** The 68030 immediate group, without flags: the operand is read without, then written with, update. */
  function Immediate(c: Core, op: nat): Core {
    var size := ImmediateSize(op);
    var (c1, imm) := Fetch(c, 2 * ImmediateWords(op), true);
    if op / 0x200 == 6 then ReadEa(c1, size, SrcMode(op), SrcReg(op), true).0
    else
      var (c2, dst) := ReadEa(c1, size, SrcMode(op), SrcReg(op), false);
      WriteEa(c2, size, SrcMode(op), SrcReg(op), ImmediateResult(op / 0x200, size, dst, imm % Pow256(size)))
  }

  /** One instruction of these families, from the opcode fetch on. */
  function Execute(c: Core): Core {
    var (c1, word) := FetchOpcode(c);
    var op := word / 0x1_0000;
    if IsMove(op) then Move(c1, op).0
    else if IsImmediate(op) then Immediate(c1, op)
    else c1
  }

  /** Memory holds the n words of code from base on. */
  predicate Loaded(m: Bytes, base: int, w: seq<Word>, n: nat)
    requires n <= |w|
  {
    forall i :: 0 <= i < n ==> Peek(m, base + 2 * i, 2) == w[i]
  }

  /** PC of word i. */
  function At(base: int, i: nat): Long { Wrap(base + 2 * i) }

  lemma AtNext(base: int, i: nat, k: nat)
    ensures Wrap(At(base, i) + 2 * k) == At(base, i + k)
  {
  }

  lemma FetchWord(c: Core, base: int, w: seq<Word>, n: nat, i: nat, inc: bool)
    requires i < n <= |w| && Loaded(c.bus.mem, base, w, n) && c.pc == At(base, i)
    requires Fetch(c, 2, inc).0.bus.fault.None?
    ensures Fetch(c, 2, inc).1 == w[i]
    ensures Fetch(c, 2, inc).0.pc == if inc then At(base, i + 1) else c.pc
  {
    hide Peek, Wrap;
    AtNext(base, i, 1);
    PeekWrap(c.bus.mem, base + 2 * i, 2);
    assert Peek(c.bus.mem, base + 2 * i, 2) == w[i];
  }

  lemma FetchPc(c: Core, base: int, i: nat, k: nat)
    requires c.pc == At(base, i)
    ensures Fetch(c, 2 * k, true).0.pc == At(base, i + k)
  {
    hide Peek, Wrap;
    AtNext(base, i, k);
  }

  lemma DisplacementPc(b: Bus, base: int, w: seq<Word>, pos: nat, sel: nat)
    requires pos + 1 < |w|
    ensures Displacement(b, At(base, pos), sel).2 == At(base, ShowDisplacement(w, pos, sel).0)
  {
    hide Peek, Wrap;
    AtNext(base, pos, 1);
    AtNext(base, pos, 2);
  }

  /** A full extension word: the words rendered are the words consumed. */
  lemma FullAgrees(c: Core, base: int, w: seq<Word>, n: nat, i: nat, reg: Long)
    requires Padded(w, n) && i < n && DisasmFull(w, n, i).Operand?
    ensures FullEa(c, w[i], reg, At(base, i + 1)).2 == At(base, DisasmFull(w, n, i).next)
  {
    hide Wrap, At, Displacement, ShowDisplacement, Read, IndexValue;
    var ext := w[i];
    DisplacementPc(c.bus, base, w, i + 1, ext / 0x10 % 4);
    var (b1, bd, p1) := Displacement(c.bus, At(base, i + 1), ext / 0x10 % 4);
    var next := ShowDisplacement(w, i + 1, ext / 0x10 % 4).0;
    ShowBound(w, i + 1, ext / 0x10 % 4);
    if Indirect(ext) {
      var base' := if Bit(ext, 0x80) then 0 else reg;
      var index := if Bit(ext, 0x40) then 0 else IndexValue(c, ext);
      var b2 := Read(b1, Wrap(base' + bd + if ext % 8 >= 5 then 0 else index), 4).0;
      DisplacementPc(b2, base, w, next, OuterSelector(ext));
    } else {
      NoOuter(w, next, ext);
    }
  }

  lemma ShowBound(w: seq<Word>, pos: nat, sel: nat)
    requires pos + 1 < |w|
    ensures pos <= ShowDisplacement(w, pos, sel).0 <= pos + 2
  {
  }

  lemma NoOuter(w: seq<Word>, pos: nat, ext: nat)
    requires pos + 1 < |w| && ext % 8 == 0
    ensures ShowDisplacement(w, pos, ext % 8 % 4).0 == pos
  {
  }

  lemma IndexedAgrees(c: Core, base: int, w: seq<Word>, n: nat, i: nat, reg: Long, bias: int)
    requires Padded(w, n) && i < n && Loaded(c.bus.mem, base, w, n) && c.pc == At(base, i) && c.model.M68030?
    requires DisasmIndexed(w, n, i, bias).Operand? && IndexedEa(c, reg, true).0.bus.fault.None?
    ensures IndexedEa(c, reg, true).0.pc == At(base, DisasmIndexed(w, n, i, bias).next)
  {
    hide Wrap, Peek, FullEa, IndexValue, At, DisasmFull, Read;
    var (c1, ext) := Fetch(c, 2, true);
    FullEaQuiet(c1, ext, reg, Wrap(c.pc + 2));
    FetchWord(c, base, w, n, i, true);
    if Bit(ext, 0x100) {
      FullAgrees(c1, base, w, n, i, reg);
    }
  }

  /** An operand rendered inside the code takes the executor exactly past its words. */
  lemma EaAgrees(
    c: Core, base: int, w: seq<Word>, n: nat, p: nat, skip: nat, size: nat, mode: nat, reg: nat, modes: Modes)
    requires Padded(w, n) && p + 1 + skip <= n + 6 && mode < 8 && reg < 8
    requires size == 1 || size == 2 || size == 4
    requires Loaded(c.bus.mem, base, w, n) && c.pc == At(base, p + 1 + skip) && c.model.M68030?
    requires var s := DisasmEa(w, n, p, skip, size, mode, reg, modes); s.Operand? && s.next <= n
    requires mode >= 2 && CalcEa(c, size, mode, reg, true).0.bus.fault.None?
    ensures CalcEa(c, size, mode, reg, true).0.pc == At(base, DisasmEa(w, n, p, skip, size, mode, reg, modes).next)
  {
    hide Wrap, Peek, IndexedEa, DisasmFull, At, Read, Loaded;
    var pos := p + 1 + skip;
    FetchPc(c, base, pos, 1);
    FetchPc(c, base, pos, 2);
    AtNext(base, pos, 1);
    AtNext(base, pos, 2);
    if mode == 6 {
      IndexedGrows(w, n, pos, 0);
      IndexedAgrees(c, base, w, n, pos, c.a[reg], 0);
    } else if mode == 7 && reg == 3 {
      IndexedGrows(w, n, pos, 2 + 2 * skip);
      IndexedAgrees(c, base, w, n, pos, c.pc, 2 + 2 * skip);
    }
  }

  lemma IndexedGrows(w: seq<Word>, n: nat, pos: nat, bias: int)
    requires Padded(w, n) && pos <= n + 6
    ensures var s := DisasmIndexed(w, n, pos, bias); s.Operand? ==> s.next > pos
  {
  }

  /** The same through an operand read with update. */
  lemma ReadAgrees(
    c: Core, base: int, w: seq<Word>, n: nat, p: nat, skip: nat, size: nat, mode: nat, reg: nat, modes: Modes)
    requires Padded(w, n) && p + 1 + skip <= n + 6 && mode < 8 && reg < 8
    requires size == 1 || size == 2 || size == 4
    requires Loaded(c.bus.mem, base, w, n) && c.pc == At(base, p + 1 + skip) && c.model.M68030?
    requires var s := DisasmEa(w, n, p, skip, size, mode, reg, modes); s.Operand? && s.next <= n
    requires ReadEa(c, size, mode, reg, true).0.bus.fault.None?
    ensures ReadEa(c, size, mode, reg, true).0.pc == At(base, DisasmEa(w, n, p, skip, size, mode, reg, modes).next)
  {
    hide CalcEa, Loaded, At, Read, DisasmIndexed;
    if mode >= 2 {
      var (c1, ea) := CalcEa(c, size, mode, reg, true);
      ReadQuiet(c1.bus, ea, size);
      EaAgrees(c, base, w, n, p, skip, size, mode, reg, modes);
    }
  }

  /** And through an operand write. */
  lemma WriteAgrees(
    c: Core, base: int, w: seq<Word>, n: nat, p: nat, skip: nat, size: nat, mode: nat, reg: nat, modes: Modes, v: nat)
    requires Padded(w, n) && p + 1 + skip <= n + 6 && mode < 8 && reg < 8
    requires size == 1 || size == 2 || size == 4
    requires Loaded(c.bus.mem, base, w, n) && c.pc == At(base, p + 1 + skip) && c.model.M68030?
    requires var s := DisasmEa(w, n, p, skip, size, mode, reg, modes); s.Operand? && s.next <= n
    requires WriteEa(c, size, mode, reg, v).bus.fault.None?
    ensures WriteEa(c, size, mode, reg, v).pc == At(base, DisasmEa(w, n, p, skip, size, mode, reg, modes).next)
  {
    hide CalcEa, Loaded, At, Poke, DisasmIndexed;
    if mode >= 2 {
      EaAgrees(c, base, w, n, p, skip, size, mode, reg, modes);
    }
  }

  /** An instruction of these families, rendered and not cut off by the end of the code. */
  predicate Listed(w: seq<Word>, n: nat, p: nat) {
    && Padded(w, n) && p < n && InFamily(w[p])
    && !ShownAsData(w, n, p) && p + DisasmLength(w, n, p) <= n
  }

  lemma SizeOk(op: nat)
    ensures var z := MoveSize(op); z == 1 || z == 2 || z == 4
    ensures var z := ImmediateSize(op); z == 1 || z == 2 || z == 4
  {
  }

  lemma MoveAgrees(c: Core, base: int, w: seq<Word>, n: nat, p: nat)
    requires Listed(w, n, p) && IsMove(w[p]) && c.model.M68030?
    requires Loaded(c.bus.mem, base, w, n) && c.pc == At(base, p + 1)
    requires Move(c, w[p]).0.bus.fault.None?
    ensures Move(c, w[p]).0.pc == At(base, p + DisasmLength(w, n, p))
  {
    hide Loaded, At, ReadEa, WriteEa, DisasmEa, IsMove, EaWords, MoveSize, SrcMode, SrcReg, DstMode, DstReg;
    var op := w[p];
    var size := MoveSize(op);
    SizeOk(op);
    var (src, dst) := DisasmMove(w, n, p);
    var (c1, v) := ReadEa(c, size, SrcMode(op), SrcReg(op), true);
    ModesSmall(op);
    SourceWordsBound(w, n, p, SrcMode(op), SrcReg(op), size);
    WordsAgree(w, n, p, 0, size, SrcMode(op), SrcReg(op), Any);
    var skip := EaWords(SrcMode(op), SrcReg(op), size, w[p + 1]);
    WordsAgree(w, n, p, skip, size, DstMode(op), DstReg(op), Alterable);
    FaultPersists(c1, size, DstMode(op), DstReg(op), v);
    ReadEaQuiet(c, size, SrcMode(op), SrcReg(op), true);
    ReadAgrees(c, base, w, n, p, 0, size, SrcMode(op), SrcReg(op), Any);
    WriteAgrees(c1, base, w, n, p, skip, size, DstMode(op), DstReg(op), Alterable, v);
  }

  lemma ModesSmall(op: nat)
    ensures SrcMode(op) < 8 && DstMode(op) < 8
  {
  }

  lemma FaultPersists(c: Core, size: nat, mode: nat, reg: nat, v: nat)
    requires reg < 8
    ensures WriteEa(c, size, mode, reg, v).bus.fault.None? ==> c.bus.fault.None?
  {
    hide CalcEa, Poke;
    if mode >= 2 {
      CalcEaQuiet(c, size, mode, reg, true);
    }
  }

  lemma ImmediateAgrees(c: Core, base: int, w: seq<Word>, n: nat, p: nat)
    requires Listed(w, n, p) && !IsMove(w[p]) && c.model.M68030?
    requires Loaded(c.bus.mem, base, w, n) && c.pc == At(base, p + 1)
    requires Immediate(c, w[p]).bus.fault.None?
    ensures Immediate(c, w[p]).pc == At(base, p + DisasmLength(w, n, p))
  {
    hide Loaded, At, ReadEa, WriteEa, DisasmEa, IsMove, IsImmediate, SrcMode, SrcReg, ImmediateSize,
         ImmediateResult, Read;
    var op := w[p];
    var size := ImmediateSize(op);
    SizeOk(op);
    ModesSmall(op);
    var k := ImmediateWords(op);
    FetchPc(c, base, p + 1, k);
    ReadQuiet(c.bus, c.pc, 2 * k);
    var (c1, imm) := Fetch(c, 2 * k, true);
    if op / 0x200 == 6 {
      ReadAgrees(c1, base, w, n, p, k, size, SrcMode(op), SrcReg(op), DataNoImmediate);
    } else {
      var (c2, dst) := ReadEa(c1, size, SrcMode(op), SrcReg(op), false);
      ReadEaQuiet(c1, size, SrcMode(op), SrcReg(op), false);
      WriteAgrees(c2, base, w, n, p, k, size, SrcMode(op), SrcReg(op), DataAlterable,
                  ImmediateResult(op / 0x200, size, dst, imm % Pow256(size)));
    }
  }

  /** The step the listing takes is the step a fault-free execution takes. */
  lemma LengthAgrees(c: Core, base: int, w: seq<Word>, n: nat, p: nat)
    requires Listed(w, n, p) && c.model.M68030? && Loaded(c.bus.mem, base, w, n) && c.pc == At(base, p)
    requires Execute(c).bus.fault.None?
    ensures Execute(c).pc == At(base, p + DisasmLength(w, n, p)) && Execute(c).model.M68030?
  {
    hide Loaded, At, Move, Immediate, DisasmLength, ShownAsData, IsMove, IsImmediate, Read;
    var (c1, word) := FetchOpcode(c);
    var op := word / 0x1_0000;
    ReadQuiet(c.bus, c.pc, 4);
    ExecuteKeeps(c1, op);
    OpcodeWord(c, base, w, n, p);
    if IsMove(op) {
      MoveAgrees(c1, base, w, n, p);
    } else {
      ImmediateAgrees(c1, base, w, n, p);
    }
  }

  lemma OpcodeWord(c: Core, base: int, w: seq<Word>, n: nat, i: nat)
    requires i < n <= |w| && Loaded(c.bus.mem, base, w, n) && c.pc == At(base, i)
    requires FetchOpcode(c).0.bus.fault.None?
    ensures FetchOpcode(c).1 / 0x1_0000 == w[i] && FetchOpcode(c).0.pc == At(base, i + 1)
  {
    hide Peek, Wrap;
    AtNext(base, i, 1);
    PeekWrap(c.bus.mem, base + 2 * i, 4);
    FirstWord(c.bus.mem, base + 2 * i);
    assert Peek(c.bus.mem, base + 2 * i, 2) == w[i];
  }

  lemma FirstWord(m: Bytes, a: int)
    ensures Peek(m, a, 4) / 0x1_0000 == Peek(m, a, 2)
  {
    hide Wrap, Get;
    assert Peek(m, a, 3) == Peek(m, a, 2) * 256 + Get(m, Wrap(a + 2));
  }

  /** Neither family clears a pending fault or changes the model. */
  lemma ExecuteKeeps(c: Core, op: nat)
    ensures Move(c, op).0.bus.fault.None? ==> c.bus.fault.None?
    ensures Immediate(c, op).bus.fault.None? ==> c.bus.fault.None?
    ensures Move(c, op).0.model == c.model && Immediate(c, op).model == c.model
  {
    hide ReadEa, WriteEa, MoveSize, ImmediateSize, ImmediateResult, Read, SrcMode, DstMode, SrcReg, DstReg;
    ReadEaQuiet(c, MoveSize(op), SrcMode(op), SrcReg(op), true);
    var (c1, v) := ReadEa(c, MoveSize(op), SrcMode(op), SrcReg(op), true);
    FaultPersists(c1, MoveSize(op), DstMode(op), DstReg(op), v);
    WriteKeepsModel(c1, MoveSize(op), DstMode(op), DstReg(op), v);
    var size := ImmediateSize(op);
    ReadQuiet(c.bus, c.pc, 2 * ImmediateWords(op));
    var (c2, imm) := Fetch(c, 2 * ImmediateWords(op), true);
    ReadEaQuiet(c2, size, SrcMode(op), SrcReg(op), true);
    ReadEaQuiet(c2, size, SrcMode(op), SrcReg(op), false);
    var (c3, dst) := ReadEa(c2, size, SrcMode(op), SrcReg(op), false);
    var r := ImmediateResult(op / 0x200, size, dst, imm % Pow256(size));
    FaultPersists(c3, size, SrcMode(op), SrcReg(op), r);
    WriteKeepsModel(c3, size, SrcMode(op), SrcReg(op), r);
  }

  lemma WriteKeepsModel(c: Core, size: nat, mode: nat, reg: nat, v: nat)
    requires reg < 8
    ensures WriteEa(c, size, mode, reg, v).model == c.model
  {
    hide CalcEa, Poke;
    if mode >= 2 {
      CalcEaQuiet(c, size, mode, reg, true);
    }
  }

  /**
  The PC-relative number printed for an operand, added to the address of the
  instruction, is the address the executor computes (before indexing).
  */
  lemma PcTargetShown(c: Core, base: int, w: seq<Word>, n: nat, p: nat, skip: nat, size: nat, reg: nat, modes: Modes)
    requires Padded(w, n) && p + 1 + skip < n && (reg == 2 || (reg == 3 && !Bit(w[p + 1 + skip], 0x100)))
    requires Loaded(c.bus.mem, base, w, n) && c.pc == At(base, p + 1 + skip)
    requires DisasmEa(w, n, p, skip, size, 7, reg, modes).Operand?
    requires CalcEa(c, size, 7, reg, true).0.bus.fault.None?
    ensures var numbers := DisasmEa(w, n, p, skip, size, 7, reg, modes).numbers;
            var index := if reg == 2 then 0 else IndexValue(c, w[p + 1 + skip]);
            |numbers| == 1 && CalcEa(c, size, 7, reg, true).1 == Wrap(At(base, p) + numbers[0] + index)
  {
    hide Peek, FullEa, Read, IndexValue, Loaded, Wrap, At, S8, S16;
    var pos := p + 1 + skip;
    var (c1, ext) := Fetch(c, 2, true);
    FullEaQuiet(c1, ext, c.pc, Wrap(c.pc + 2));
    FetchWord(c, base, w, n, pos, true);
    IndexOnRegisters(c, c1, ext);
    PcSum(base, p, skip, S16(ext), 0);
    PcSum(base, p, skip, S8(ext), IndexValue(c, ext));
  }

  lemma PcSum(base: int, p: nat, skip: nat, d: int, index: int)
    ensures Wrap(At(base, p + 1 + skip) + d + index) == Wrap(At(base, p) + (d + (2 + 2 * skip)) + index)
  {
  }

  lemma IndexOnRegisters(c: Core, c': Core, ext: nat)
    requires c'.d == c.d && c'.a == c.a && c'.model == c.model
    ensures IndexValue(c, ext) == IndexValue(c', ext)
  {
  }

  /** The displacements printed for a full extension word at PC: the base one and the outer one, where present. */
  function FullNumbers(m: Bytes, at: int, ext: nat): seq<int> {
    var (bd, od) := (ext / 0x10 % 4, ext % 4);
    (if bd >= 2 then [Addressing.OffsetAt(m, at + 2, bd)] else [])
    + if od >= 2 then [Addressing.OffsetAt(m, at + 2 + Addressing.OffsetBytes(bd), od)] else []
  }

  /**
  Numbers printed for the other operands: displacements and absolute addresses
  are those of the address executed, immediates the value used.
  */
  lemma NumbersShown(
    c: Core, base: int, w: seq<Word>, n: nat, p: nat, skip: nat, size: nat, mode: nat, reg: nat, modes: Modes)
    requires Padded(w, n) && p + 1 + skip < n && mode >= 5 && Addressing.IsMemoryMode(mode, reg)
    requires Addressing.IsSize(size) && c.model.M68030?
    requires Loaded(c.bus.mem, base, w, n) && c.pc == At(base, p + 1 + skip)
    requires var s := DisasmEa(w, n, p, skip, size, mode, reg, modes); s.Operand? && s.next <= n
    ensures var (x, ext) := (DisasmEa(w, n, p, skip, size, mode, reg, modes).numbers, w[p + 1 + skip]);
            var at := Addressing.Address(c, size, mode, reg);
            && (mode == 5 ==> |x| == 1 && at == c.a[reg] + x[0])
            && (mode == 6 && !Bit(ext, 0x100) ==> |x| == 1 && at == c.a[reg] + x[0] + Addressing.Index(c, ext))
            && (IsIndexed(mode, reg) && Bit(ext, 0x100) ==> x == FullNumbers(c.bus.mem, c.pc, ext))
            && (mode == 7 && reg < 2 ==> |x| == 1 && at == x[0])
            && (mode == 7 && reg == 4 ==>
                  |x| == 1 && x[0] % Pow256(size) == Addressing.OperandValue(c, size, mode, reg))
  {
    hide Peek, Wrap, Loaded, S8, S16, DisasmIndexed, Addressing.Index, Addressing.IndexedAddress, FullNumbers, LongAt,
         Pow256;
    var (pos, m, pc) := (p + 1 + skip, c.bus.mem, c.pc as int);
    Pow256Values();
    WordHere(m, base, w, n, pos, 0);
    Addressing.SignedWord(w[pos]);
    if IsIndexed(mode, reg) {
      var bias := if mode == 6 then 0 else 2 + 2 * skip;
      IndexedNumbers(c, base, w, n, pos, bias);
    } else if mode == 7 && (reg == 1 || (reg == 4 && size == 4)) {
      LongHere(m, base, w, n, pos, 0);
    } else if mode == 7 && reg == 4 && size == 1 {
      Addressing.ByteOfWord(m, pc);
    }
  }

  lemma IndexedNumbers(c: Core, base: int, w: seq<Word>, n: nat, pos: nat, bias: int)
    requires Padded(w, n) && pos < n && Loaded(c.bus.mem, base, w, n) && c.pc == At(base, pos) && c.model.M68030?
    requires var s := DisasmIndexed(w, n, pos, bias); s.Operand? && s.next <= n
    ensures var (x, ext) := (DisasmIndexed(w, n, pos, bias).numbers, w[pos]);
            if Bit(ext, 0x100) then x == FullNumbers(c.bus.mem, c.pc, ext)
            else |x| == 1
                 && forall b: int :: bias == 0 ==>
                      Addressing.IndexedAddress(c, c.pc, b) == b + x[0] + Addressing.Index(c, ext)
  {
    hide Peek, Wrap, Loaded, S8, Addressing.Index, Addressing.OffsetAt, ShowDisplacement, Addressing.OffsetBytes;
    var (m, ext, pc) := (c.bus.mem, w[pos], c.pc as int);
    WordHere(m, base, w, n, pos, 0);
    Addressing.SignedByte(ext);
    Addressing.FullFields(ext);
    if Bit(ext, 0x100) {
      var (bd, od) := (ext / 0x10 % 4, ext % 4);
      assert ext % 8 % 4 == od;
      var (p1, shown) := ShowDisplacement(w, pos + 1, bd);
      ShowBound(w, pos + 1, bd);
      ShowBound(w, p1, od);
      DisplacementShown(m, base, w, n, pos, 1, bd);
      DisplacementShown(m, base, w, n, pos, p1 - pos, od);
    }
  }

  /** A displacement printed is the one in memory. */
  lemma DisplacementShown(m: Bytes, base: int, w: seq<Word>, n: nat, pos: nat, i: nat, sel: nat)
    requires Padded(w, n) && pos + i <= n + 6 && Loaded(m, base, w, n) && ShowDisplacement(w, pos + i, sel).0 <= n
    ensures var (next, x) := ShowDisplacement(w, pos + i, sel);
            && 2 * next == 2 * (pos + i) + Addressing.OffsetBytes(sel)
            && (sel < 4 ==> x == if sel >= 2 then [Addressing.OffsetAt(m, At(base, pos) + 2 * i, sel)] else [])
  {
    hide Peek, Wrap, Loaded, LongAt, S16;
    if sel == 2 {
      WordHere(m, base, w, n, pos, i);
      Addressing.SignedWord(w[pos + i]);
    } else if sel == 3 {
      LongHere(m, base, w, n, pos, i);
    }
  }

  /** Words of the code found relative to a PC. */
  lemma WordHere(m: Bytes, base: int, w: seq<Word>, n: nat, pos: nat, i: nat)
    requires n <= |w| && pos + i < n && Loaded(m, base, w, n)
    ensures Peek(m, At(base, pos) + 2 * i, 2) == w[pos + i]
  {
    hide Peek, Wrap;
    PeekWrap(m, At(base, pos) + 2 * i, 2);
    WrapTwice(base + 2 * pos, 2 * i);
    PeekWrap(m, base + 2 * (pos + i), 2);
    assert Peek(m, base + 2 * (pos + i), 2) == w[pos + i];
  }

  lemma LongHere(m: Bytes, base: int, w: seq<Word>, n: nat, pos: nat, i: nat)
    requires n <= |w| && pos + i + 1 < n && Loaded(m, base, w, n)
    ensures Peek(m, At(base, pos) + 2 * i, 4) == LongAt(w, pos + i)
  {
    hide Peek, Wrap, At, Loaded;
    Pow256Values();
    WordHere(m, base, w, n, pos, i);
    WordHere(m, base, w, n, pos, i + 1);
    Chains.PeekJoin(m, At(base, pos) + 2 * i, 2, 2);
  }

  // ---- skipping an operand that is not accepted -------------------------

  /** Bytes of a displacement with this size selector. */
  function Selected(sel: nat): nat {
    if sel == 2 then 2 else if sel == 3 then 4 else 0
  }

  /** Bytes of the two displacements of a full extension word, as the skipping code counts them. */
  function SkippedBytes(ext: nat): nat {
    var iis := ext % 8;
    Selected(ext / 0x10 % 4)
    + if iis == 2 || (iis == 6 && !Bit(ext, 0x40)) then 2
      else if iis == 3 || (iis == 7 && !Bit(ext, 0x40)) then 4 else 0
  }

  /** `skip_ea_extension_words`: PC past an operand the 68030 refuses. */
  function SkipWords(c: Core, mode: nat, reg: nat, size: nat): Core {
    if mode == 5 || (mode == 7 && (reg == 2 || reg == 0)) then c.(pc := Wrap(c.pc + 2))
    else if mode == 6 || (mode == 7 && reg == 3) then
      var (c1, ext) := Fetch(c, 2, true);
      if Bit(ext, 0x100) then c1.(pc := Wrap(c1.pc + SkippedBytes(ext))) else c1
    else if mode == 7 && reg == 1 then c.(pc := Wrap(c.pc + 4))
    else if mode == 7 && reg == 4 then c.(pc := Wrap(c.pc + if size <= 2 then 2 else 4))
    else c
  }

  /** For every encoding, reserved ones included, skipping moves PC as evaluating would. */
  lemma SkipAgrees(c: Core, size: nat, mode: nat, reg: nat)
    requires 2 <= mode && reg < 8 && c.model.M68030? && (size == 1 || size == 2 || size == 4)
    ensures SkipWords(c, mode, reg, size).pc == CalcEa(c, size, mode, reg, true).0.pc
  {
    hide Read, IndexValue, Wrap, FullEa, SkippedBytes;
    if mode == 6 || (mode == 7 && reg == 3) {
      var base := if mode == 6 then c.a[reg] else c.pc;
      var (c1, ext) := Fetch(c, 2, true);
      SkipFull(c1, ext, base, Wrap(c.pc + 2));
    }
  }

  lemma SkipFull(c: Core, ext: nat, base: Long, pos: Long)
    ensures FullEa(c, ext, base, pos).2 == Wrap(pos + SkippedBytes(ext))
  {
    hide Read, IndexValue, Displacement, Wrap, Bit;
    var sel := ext / 0x10 % 4;
    DisplacementEnd(c.bus, pos, sel);
    var (b1, bd, p1) := Displacement(c.bus, pos, sel);
    if Indirect(ext) {
      var base' := if Bit(ext, 0x80) then 0 else base;
      var index := if Bit(ext, 0x40) then 0 else IndexValue(c, ext);
      var b2 := Read(b1, Wrap(base' + bd + if ext % 8 >= 5 then 0 else index), 4).0;
      DisplacementEnd(b2, p1, OuterSelector(ext));
      WrapTwice(pos + Selected(sel), Selected(OuterSelector(ext)));
    }
  }

  lemma DisplacementEnd(b: Bus, pos: Long, sel: nat)
    ensures Displacement(b, pos, sel).2 == Wrap(pos + Selected(sel))
  {
    hide Peek;
  }

  // ---- the listing ------------------------------------------------------

  /** `bytes_to_words` as a value. */
  function WordsOf(bytes: seq<Byte>): (w: seq<Word>)
    ensures Padded(w, |bytes| / 2)
  {
    seq(|bytes| / 2, i requires 0 <= i < |bytes| / 2 => WordAt(bytes, i)) + seq(8, _ => 0)
  }

  function WordAt(bytes: seq<Byte>, i: nat): Word
    requires 2 * i + 1 < |bytes|
  {
    var high: int := bytes[2 * i];
    high * 256 + bytes[2 * i + 1]
  }

  /** `bytes_to_words`: big-endian words into a zeroed buffer. */
  method BytesToWords(bytes: seq<Byte>) returns (words: array<Word>, n: nat)
    ensures n == |bytes| / 2 && words[..] == WordsOf(bytes) && fresh(words)
  {
    n := |bytes| / 2;
    words := new Word[n + 8](_ => 0);
    var i := 0;
    while i < n
      invariant i <= n
      invariant forall k :: 0 <= k < i ==> words[k] == WordsOf(bytes)[k]
      invariant forall k :: i <= k < n + 8 ==> words[k] == 0
    {
      words[i] := WordAt(bytes, i);
      i := i + 1;
    }
  }

  /** Words made of the bytes in memory are the words found there. */
  lemma BytesLoaded(m: Bytes, base: int, bytes: seq<Byte>)
    requires forall i :: 0 <= i < |bytes| ==> Get(m, Wrap(base + i)) == bytes[i]
    ensures Loaded(m, base, WordsOf(bytes), |bytes| / 2)
  {
    hide Wrap, Get;
    forall i | 0 <= i < |bytes| / 2 ensures Peek(m, base + 2 * i, 2) == WordsOf(bytes)[i] {
      TwoBytes(m, base + 2 * i);
      assert bytes[2 * i] == Get(m, Wrap(base + 2 * i)) && bytes[2 * i + 1] == Get(m, Wrap(base + (2 * i + 1)));
    }
  }

  lemma TwoBytes(m: Bytes, a: int)
    ensures Peek(m, a, 2) == Get(m, Wrap(a)) as int * 256 + Get(m, Wrap(a + 1))
  {
    hide Wrap, Get;
    assert Peek(m, a, 1) == Peek(m, a, 0) * 256 + Get(m, Wrap(a + 0));
  }

  /** One line of the listing. */
  datatype Line = Line(addr: Long, word: Word)

  /**
  Words taken by the line at p; `other` stands for the disassembler's answer on
  opcodes outside the families. At least one word, and never past the end.
  */
  function LineWords(w: seq<Word>, n: nat, other: nat -> int, p: nat): (k: nat)
    requires Padded(w, n) && p < n
    ensures 1 <= k <= n - p
  {
    var len := if InFamily(w[p]) then DisasmLength(w, n, p) else other(p);
    var k := if len < 1 then 1 else len;
    if p + k > n then n - p else k
  }

  function Lines(w: seq<Word>, n: nat, base: Long, other: nat -> int, p: nat): seq<Line>
    requires Padded(w, n)
    decreases if p < n then n - p else 0
  {
    if p >= n then [] else [Line(At(base, p), w[p])] + Lines(w, n, base, other, p + LineWords(w, n, other, p))
  }

  /** The listing loop of `re_annotate_disasm_write`, without the annotations. */
  method WriteListing(bytes: seq<Byte>, base: Long, other: nat -> int) returns (out: seq<Line>, emitted: nat)
    ensures out == Lines(WordsOf(bytes), |bytes| / 2, base, other, 0)
    ensures emitted == |out|
  {
    hide DisasmLength, WordsOf, InFamily, Lines, Padded;
    var words, n := BytesToWords(bytes);
    ghost var w := WordsOf(bytes);
    var pos := 0;
    out, emitted := [], 0;
    BufferShape(w, n);
    while pos < n
      invariant 0 <= pos <= n && words[..] == w && emitted == |out|
      invariant out + Lines(w, n, base, other, pos) == Lines(w, n, base, other, 0)
    {
      var addr := Wrap(base + 2 * pos);
      var nwords := if InFamily(words[pos]) then DisasmLength(words[..], n, pos) else other(pos);
      if nwords < 1 {
        nwords := 1;
      }
      if pos + nwords > n {
        nwords := n - pos;
      }
      ghost var before := out;
      out := out + [Line(addr, words[pos])];
      assert nwords == LineWords(w, n, other, pos);
      LinesHead(w, n, base, other, pos);
      Regroup(before, Line(addr, w[pos]), Lines(w, n, base, other, pos + nwords));
      pos := pos + nwords;
      emitted := emitted + 1;
    }
    LinesHead(w, n, base, other, n);
  }

  lemma Regroup<T>(a: seq<T>, x: T, b: seq<T>)
    ensures a + ([x] + b) == a + [x] + b
  {
  }

  lemma BufferShape(w: seq<Word>, n: nat)
    requires Padded(w, n)
    ensures |w| == n + 8
  {
  }

  // ---- a whole run ------------------------------------------------------

  /** k instructions. */
  function Run(c: Core, k: nat): Core
    decreases k
  {
    if k == 0 then c else Run(Execute(c), k - 1)
  }

  /**
  k fault-free instructions from word p on, each of these families and rendered
  whole, the code still in memory when each begins.
  */
  predicate Straight(c: Core, base: Long, w: seq<Word>, n: nat, p: nat, k: nat)
    decreases k
  {
    k == 0 ||
    (&& Listed(w, n, p) && Loaded(c.bus.mem, base, w, n)
     && Execute(c).bus.fault.None?
     && Straight(Execute(c), base, w, n, p + DisasmLength(w, n, p), k - 1))
  }

  /**
  Listing addresses are the PCs that execution visits, and the words listed the
  opcodes it finds there, for a run of any length.
  */
  lemma {:induction false} ListingFollowsExecution(
    c: Core, base: Long, w: seq<Word>, n: nat, other: nat -> int, p: nat, k: nat)
    requires Padded(w, n) && p <= n && c.model.M68030? && c.pc == At(base, p) && Straight(c, base, w, n, p, k)
    ensures var lines := Lines(w, n, base, other, p);
            && k <= |lines|
            && (forall i :: 0 <= i < k ==>
                  Run(c, i).pc == lines[i].addr && Peek(Run(c, i).bus.mem, lines[i].addr, 2) == lines[i].word)
            && Run(c, k).pc == if k < |lines| then lines[k].addr else At(base, n)
    decreases k
  {
    hide At, Execute, DisasmLength, Loaded, Padded, Listed, Lines, LineWords;
    LinesHead(w, n, base, other, p);
    if k > 0 {
      ListedLine(w, n, other, p);
      var q := p + DisasmLength(w, n, p);
      LengthAgrees(c, base, w, n, p);
      ListingFollowsExecution(Execute(c), base, w, n, other, q, k - 1);
      var lines := Lines(w, n, base, other, p);
      WordHere(c.bus.mem, base, w, n, p, 0);
      forall i | 0 <= i < k
        ensures Run(c, i).pc == lines[i].addr && Peek(Run(c, i).bus.mem, lines[i].addr, 2) == lines[i].word
      {
        if i > 0 {
          assert Run(c, i) == Run(Execute(c), i - 1);
        }
      }
    }
  }

  lemma LinesHead(w: seq<Word>, n: nat, base: Long, other: nat -> int, p: nat)
    requires Padded(w, n)
    ensures Lines(w, n, base, other, p)
         == if p >= n then [] else [Line(At(base, p), w[p])] + Lines(w, n, base, other, p + LineWords(w, n, other, p))
  {
  }

  lemma ListedLine(w: seq<Word>, n: nat, other: nat -> int, p: nat)
    requires Listed(w, n, p)
    ensures |w| == n + 8 && Padded(w, n) && p < n && InFamily(w[p])
    ensures LineWords(w, n, other, p) == DisasmLength(w, n, p)
    ensures p + DisasmLength(w, n, p) <= n
  {
  }
}
