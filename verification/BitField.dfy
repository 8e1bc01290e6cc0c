/**
Bit-field helpers (src/core/cpu/cpu_ops.h): fields of 1 to 32 bits at a signed
bit offset, in a register read as a ring of 32 bits and in memory read as one
endless string of bits, most significant bit of each byte first.
*/
module BitField {
  import opened Words
  import opened Memory
  import opened Operands
  import opened Arithmetic
  import opened Bits

  predicate IsField(w: nat) {
    1 <= w <= 32
  }

  /** The low w bits set, as a 32-bit mask. */
  function Mask(w: nat): nat
    requires IsField(w)
  {
    if w == 32 then 0xFFFF_FFFF else Pow2(w) - 1
  }

  lemma Pow2Long()
    ensures Pow2(32) == B32
  {
    SmallPowers();
    assert Pow2(16) == 0x1_0000 by { assert Pow2(12) == 0x1000; }
    assert Pow2(24) == 0x100_0000 by { assert Pow2(20) == 0x10_0000; }
    assert Pow2(28) == 0x1000_0000;
  }

  lemma MaskBit(w: nat, i: nat)
    requires IsField(w)
    ensures BitAt(Mask(w), i) <==> i < w
    ensures Mask(w) == Pow2(w) - 1
  {
    hide BitAt;
    Pow2Long();
    OnesBit(w, i);
  }

  // ---- registers --------------------------------------------------------

  /** 32-bit shift left. */
  function Shl(v: nat, k: nat): Long { v * Pow2(k) % B32 }

  function RotateLeft(v: nat, o: nat): nat
    requires o < 32
  {
    if o == 0 then v else Or(32, Shl(v, o), Shr(v, 32 - o))
  }

  function RotateRight(v: nat, o: nat): nat
    requires o < 32
  {
    if o == 0 then v else Or(32, Shr(v, o), Shl(v, 32 - o))
  }

  /** `bf_extract_reg`. */
  function ExtractReg(v: Long, off: int, w: nat): nat
    requires IsField(w)
  {
    And(32, Shr(RotateLeft(v, off % 32), 32 - w), Mask(w))
  }

  /** `bf_insert_reg`. */
  function InsertReg(dst: Long, off: int, w: nat, src: Long): nat
    requires IsField(w)
  {
    var o := off % 32;
    var atTop := Shl(And(32, src, Mask(w)), 32 - w);
    var at := RotateRight(atTop, o);
    var mask := RotateRight(Shl(Mask(w), 32 - w), o);
    Or(32, And(32, dst, Not(32, mask)), And(32, at, mask))
  }

  /** Bit i of a register as a ring, most significant first. */
  predicate RegBit(v: nat, i: int) {
    BitAt(v, 31 - i % 32)
  }

  lemma ShiftedBit(v: nat, k: nat, i: nat)
    requires i < 32
    ensures BitAt(Shl(v, k), i) <==> i >= k && BitAt(v, i - k)
  {
    hide BitAt, Pow2;
    Pow2Long();
    LowBit(v * Pow2(k), 32, i);
    ShlBit(v, k, i);
  }

  lemma RotateLeftBit(v: Long, o: nat, i: nat)
    requires o < 32 && i < 32
    ensures BitAt(RotateLeft(v, o), i) <==> BitAt(v, (i - o) % 32)
  {
    hide BitAt, Pow2, Or;
    if o > 0 {
      BitsOf(32, Shl(v, o), Shr(v, 32 - o), i);
      ShiftedBit(v, o, i);
      ShrBit(v, 32 - o, i);
      NoBitsAbove(v, i + (32 - o));
    }
  }

  lemma RotateRightBit(v: Long, o: nat, i: nat)
    requires o < 32 && i < 32
    ensures BitAt(RotateRight(v, o), i) <==> BitAt(v, (i + o) % 32)
  {
    hide BitAt, Pow2, Or;
    if o > 0 {
      BitsOf(32, Shr(v, o), Shl(v, 32 - o), i);
      ShiftedBit(v, 32 - o, i);
      ShrBit(v, o, i);
      NoBitsAbove(v, i + o);
    }
  }

  lemma NoBitsAbove(v: Long, i: nat)
    ensures BitAt(v, i) ==> i < 32
  {
    hide BitAt, Pow2;
    Pow2Long();
    SmallBit(v, 32, i);
  }

  /** Distance of bit i past the start of a field, around the ring. */
  function Past(i: int, off: int): (d: nat)
    ensures d < 32
  {
    (i - off) % 32
  }

  /** Extraction reads the w bits from `off` on, most significant first. */
  lemma ExtractRegBits(v: Long, off: int, w: nat)
    requires IsField(w)
    ensures ExtractReg(v, off, w) < Pow2(w)
    ensures forall i :: 0 <= i < w ==> BitAt(ExtractReg(v, off, w), i) == RegBit(v, off + (w - 1 - i))
  {
    hide BitAt, Pow2, And, RotateLeft;
    var x := ExtractReg(v, off, w);
    RangesOf(32, Shr(RotateLeft(v, off % 32), 32 - w), Mask(w));
    forall i | 0 <= i < 32
      ensures BitAt(x, i) <==> i < w && RegBit(v, off + (w - 1 - i))
    {
      ExtractRegBit(v, off, w, i);
    }
    BelowByBits(32, w, x);
  }

  lemma ExtractRegBit(v: Long, off: int, w: nat, i: nat)
    requires IsField(w) && i < 32
    ensures BitAt(ExtractReg(v, off, w), i) <==> i < w && RegBit(v, off + (w - 1 - i))
  {
    hide BitAt, Pow2, And, RotateLeft, Mask;
    var o := off % 32;
    var rotated := RotateLeft(v, o);
    BitsOf(32, Shr(rotated, 32 - w), Mask(w), i);
    MaskBit(w, i);
    if i < w {
      ShrBit(rotated, 32 - w, i);
      RotateLeftBit(v, o, i + (32 - w));
      RingIndex(off, w - 1 - i);
    }
  }

  /** Counting from the top or from the bottom of the ring. */
  lemma RingIndex(off: int, k: int)
    ensures 31 - (off + k) % 32 == (31 - k - off % 32) % 32
  {
  }

  /** A number whose bits from w on are clear is below 2^w. */
  lemma BelowByBits(n: nat, w: nat, x: nat)
    requires w <= n && x < Pow2(n)
    requires forall i :: w <= i < n ==> !BitAt(x, i)
    ensures x < Pow2(w)
  {
    hide BitAt, Pow2;
    DivMod(x, Pow2(w));
    forall i | 0 <= i < n ensures BitAt(x, i) == BitAt(x % Pow2(w), i) {
      LowBit(x, w, i);
    }
    PowGrows(w, n);
    SameBits(n, x, x % Pow2(w));
  }

  lemma {:induction false} PowGrows(a: nat, b: nat)
    requires a <= b
    ensures Pow2(a) <= Pow2(b)
    decreases b
  {
    if a < b {
      PowGrows(a, b - 1);
    }
  }

  /** Insertion replaces exactly the w bits from `off` on by the low w bits of src. */
  lemma InsertRegBits(dst: Long, off: int, w: nat, src: Long, i: int)
    requires IsField(w)
    ensures InsertReg(dst, off, w, src) < B32
    ensures RegBit(InsertReg(dst, off, w, src), i)
        <==> if Past(i, off) < w then BitAt(src, w - 1 - Past(i, off)) else RegBit(dst, i)
  {
    hide BitAt, Pow2, And, Or, Not, RotateRight, Mask;
    Pow2Long();
    var o := off % 32;
    var j := 31 - i % 32;
    var atTop := Shl(And(32, src, Mask(w)), 32 - w);
    var top := Shl(Mask(w), 32 - w);
    var (at, mask) := (RotateRight(atTop, o), RotateRight(top, o));
    RangesOf(32, And(32, dst, Not(32, mask)), And(32, at, mask));
    BitsOf(32, And(32, dst, Not(32, mask)), And(32, at, mask), j);
    BitsOf(32, dst, Not(32, mask), j);
    BitsOf(32, mask, 0, j);
    BitsOf(32, at, mask, j);
    var t := (j + o) % 32;
    RotateRightBit(atTop, o, j);
    RotateRightBit(top, o, j);
    PastTop(i, off);
    ShiftedBit(And(32, src, Mask(w)), 32 - w, t);
    ShiftedBit(Mask(w), 32 - w, t);
    if t >= 32 - w {
      MaskBit(w, t - (32 - w));
      BitsOf(32, src, Mask(w), t - (32 - w));
    }
  }

  lemma PastTop(i: int, off: int)
    ensures (31 - i % 32 + off % 32) % 32 == 31 - Past(i, off)
  {
  }

  /** What was inserted is extracted again. */
  lemma RegRoundTrip(dst: Long, off: int, w: nat, src: Long)
    requires IsField(w)
    ensures InsertReg(dst, off, w, src) < B32
    ensures ExtractReg(InsertReg(dst, off, w, src), off, w) == src % Pow2(w)
  {
    hide BitAt, Pow2, InsertReg, ExtractReg, Past, RegBit;
    InsertRegBits(dst, off, w, src, 0);
    var v := InsertReg(dst, off, w, src);
    ExtractRegBits(v, off, w);
    var x := ExtractReg(v, off, w);
    DivMod(src, Pow2(w));
    forall i | 0 <= i < w ensures BitAt(x, i) == BitAt(src % Pow2(w), i) {
      InsertRegBits(dst, off, w, src, off + (w - 1 - i));
      PastField(off, w - 1 - i);
      LowBit(src, w, i);
    }
    SameBits(w, x, src % Pow2(w));
  }

  lemma PastField(off: int, k: nat)
    requires k < 32
    ensures Past(off + k, off) == k
  {
  }

  // ---- memory as a string of bits ---------------------------------------

  /** Bit q of memory: the string repeats every 2^35 bits, as addresses wrap. */
  predicate MemBit(m: Bytes, q: int) {
    BitAt(Get(m, Wrap(q / 8)), 7 - q % 8)
  }

  /** r is the number spelled by the w bits of memory from p on. */
  predicate Spells(m: Bytes, p: int, w: nat, r: nat) {
    r < Pow2(w) && forall i :: 0 <= i < w ==> BitAt(r, i) == MemBit(m, p + (w - 1 - i))
  }

  /** Distance of bit q past bit p. */
  function Ahead(q: int, p: int): (d: nat) {
    (q - p) % 0x8_0000_0000
  }

  /** m' is m with exactly the w bits from p on replaced by the low bits of v. */
  ghost predicate Inserted(m: Bytes, m': Bytes, p: int, w: nat, v: nat) {
    forall q :: MemBit(m', q) <==> if Ahead(q, p) < w then BitAt(v, w - 1 - Ahead(q, p)) else MemBit(m, q)
  }

  /** Offsets for which no step of the signed adjustment overflows 32 bits. */
  predicate IsOffset(off: int) {
    -0x7FFF_FFF8 <= off < 0x8000_0000
  }

  lemma {:induction false} PeekBit(m: Bytes, a: int, n: nat, j: nat)
    requires j < 8 * n
    ensures BitAt(Peek(m, a, n), j) == MemBit(m, 8 * a + (8 * n - 1 - j))
  {
    hide BitAt, Wrap, Pow2, Pow256;
    var byte := Get(m, Wrap(a + n - 1));
    SmallPowers();
    JoinBit(Peek(m, a, n - 1), 8, byte, j);
    if j < 8 {
      assert 8 * a + (8 * n - 1 - j) == 8 * (a + n - 1) + (7 - j);
    } else {
      PeekBit(m, a, n - 1, j - 8);
    }
  }

  lemma Pow256Is(n: nat)
    requires n <= 8
    ensures Pow256(n) == Pow2(8 * n)
  {
    SmallPowers();
    if n > 0 {
      Pow256Is(n - 1);
      PowSum(8 * (n - 1), 8);
    }
  }

  /** 64-bit shift left. */
  function Shl64(v: nat, k: nat): nat {
    DivMod(v * Pow2(k), Pow2(64)); v * Pow2(k) % Pow2(64)
  }

  lemma Shl64Bit(v: nat, k: nat, i: nat)
    requires i < 64
    ensures BitAt(Shl64(v, k), i) <==> i >= k && BitAt(v, i - k)
  {
    hide BitAt, Pow2;
    LowBit(v * Pow2(k), 64, i);
    ShlBit(v, k, i);
  }

  /** data << 8 | byte. */
  function AppendByte(data: nat, byte: Byte): nat {
    Or(64, Shl64(data, 8), byte)
  }

  lemma AppendByteValue(data: nat, byte: Byte, i: nat)
    requires i < 5 && data < Pow256(i)
    ensures AppendByte(data, byte) == data * 256 + byte < Pow256(i + 1)
  {
    hide BitAt, Pow2, Or, Shl64;
    var r := data * 256 + byte;
    SmallPowers();
    PowGrows(8 * (i + 1), 64);
    Pow256Is(i + 1);
    assert r < Pow256(i + 1);
    RangesOf(64, Shl64(data, 8), byte);
    forall j | 0 <= j < 64 ensures BitAt(AppendByte(data, byte), j) == BitAt(r, j) {
      BitsOf(64, Shl64(data, 8), byte, j);
      Shl64Bit(data, 8, j);
      JoinBit(data, 8, byte, j);
      SmallBit(byte, 8, j);
    }
    SameBits(64, AppendByte(data, byte), r);
  }

  /** The byte address and bit a field starts at, after the adjustment for negative offsets. */
  method Locate(ea0: Long, off: int) returns (at: Long, bit: nat)
    requires IsOffset(off)
    ensures bit < 8 && at == Wrap((8 * ea0 + off) / 8) && bit == (8 * ea0 + off) % 8
  {
    hide Wrap;
    var bo, ea := off, ea0;
    WrapLong(ea0);
    if bo < 0 {
      var adj := (-bo + 7) / 8 * 8;
      Eighths((-bo + 7) / 8);
      Normalised(ea0, off, (-bo + 7) / 8);
      ea := Wrap(ea - adj / 8);
      bo := bo + adj;
    } else {
      Normalised(ea0, off, 0);
    }
    at, bit := Wrap(ea + bo / 8), bo % 8;
  }

  lemma Eighths(k: int)
    ensures k * 8 / 8 == k
  {
  }

  lemma WrapLong(x: Long)
    ensures Wrap(x) == x
  {
  }

  lemma Normalised(ea: int, off: int, k: int)
    ensures Wrap(Wrap(ea - k) + (off + 8 * k) / 8) == Wrap((8 * ea + off) / 8)
    ensures (off + 8 * k) % 8 == (8 * ea + off) % 8
  {
    assert (off + 8 * k) / 8 == off / 8 + k;
    assert (8 * ea + off) / 8 == ea + off / 8;
    WrapTwice(ea - k, off / 8 + k);
  }

  /** BF_EXTRACT_MEM: a faulting byte leaves the result unspecified, as the source does. */
  method ExtractMem(b0: Bus, ea: Long, off: int, w: nat) returns (b: Bus, r: nat)
    requires IsField(w) && IsOffset(off)
    ensures QuietBus(b0, b)
    ensures b.fault.None? ==> Spells(b0.mem, 8 * ea + off, w, r)
  {
    hide Peek, Wrap, Pow256, Read, AppendByte, Spells, Span, Pow2, And;
    var at, bit := Locate(ea, off);
    ghost var base := (8 * ea + off) / 8;
    var n := (bit + w + 7) / 8;
    var data: nat := 0;
    b := b0;
    var i := 0;
    EmptyBlock(b0.mem, base);
    while i < n && i < 5
      invariant i <= n <= 5
      invariant QuietBus(b0, b) && data < Pow256(i)
      invariant b.fault.None? ==> data == Peek(b0.mem, base, i)
    {
      var (b', byte) := Read(b, Wrap(at + i), 1);
      ReadQuiet(b, Wrap(at + i), 1);
      ReadByte(b, base, i);
      AppendByteValue(data, byte, i);
      NextPeek(b0.mem, base, i);
      b, data, i := b', AppendByte(data, byte), i + 1;
    }
    var shift := n * 8 - bit - w;
    r := And(64, Shr(data, shift), Mask(w));
    if b.fault.None? {
      FieldOfBlock(b0.mem, base, n, bit, w, shift);
    }
  }

  lemma EmptyBlock(m: Bytes, a: int)
    ensures Peek(m, a, 0) == 0 < Pow256(0)
  {
  }

  /** Reading byte i past a wrapped address. */
  lemma ReadByte(b: Bus, base: int, i: nat)
    ensures var (b', v) := Read(b, Wrap(Wrap(base) + i), 1);
            v < 256 && (b'.fault.None? ==> b.fault.None? && v == Get(b.mem, Wrap(base + i)))
  {
    Pow256Values();
    var a := Wrap(Wrap(base) + i);
    assert a == Wrap(base + i);
    assert Peek(b.mem, a, 0) == 0;
    assert Peek(b.mem, a, 1) == Get(b.mem, Wrap(a));
  }

  lemma NextPeek(m: Bytes, a: int, i: nat)
    ensures Peek(m, a, i + 1) == Peek(m, a, i) * 256 + Get(m, Wrap(a + i))
  {
  }

  lemma FieldOfBlock(m: Bytes, base: int, n: nat, bit: nat, w: nat, shift: nat)
    requires IsField(w) && bit < 8 && n <= 5 && shift + bit + w == 8 * n
    ensures Spells(m, 8 * base + bit, w, And(64, Shr(Peek(m, base, n), shift), Mask(w)))
  {
    hide BitAt, Pow2, And, Peek, MemBit, Mask;
    var data := Peek(m, base, n);
    var r := And(64, Shr(data, shift), Mask(w));
    RangesOf(64, Shr(data, shift), Mask(w));
    forall i | 0 <= i < 64
      ensures BitAt(r, i) == (i < w && MemBit(m, 8 * base + bit + (w - 1 - i)))
    {
      BitsOf(64, Shr(data, shift), Mask(w), i);
      MaskBit(w, i);
      ShrBit(data, shift, i);
      if i < w {
        PeekBit(m, base, n, i + shift);
        assert 8 * base + (8 * n - 1 - (i + shift)) == 8 * base + bit + (w - 1 - i);
      }
    }
    BelowByBits(64, w, r);
  }

  /** The merge of BF_INSERT_MEM. */
  function MergeField(data: nat, w: nat, shift: nat, v: Long): nat
    requires IsField(w)
  {
    Or(64, And(64, data, Not(64, Shl64(Mask(w), shift))), Shl64(And(32, v, Mask(w)), shift))
  }

  lemma MergeBit(data: nat, w: nat, shift: nat, v: Long, j: nat)
    requires IsField(w) && j < 64
    ensures BitAt(MergeField(data, w, shift, v), j)
        <==> if shift <= j < shift + w then BitAt(v, j - shift) else BitAt(data, j)
  {
    hide BitAt, Pow2, And, Or, Not, Shl64, Mask;
    var m := Shl64(Mask(w), shift);
    var f := Shl64(And(32, v, Mask(w)), shift);
    BitsOf(64, And(64, data, Not(64, m)), f, j);
    BitsOf(64, data, Not(64, m), j);
    BitsOf(64, m, 0, j);
    Shl64Bit(Mask(w), shift, j);
    Shl64Bit(And(32, v, Mask(w)), shift, j);
    if shift <= j {
      MaskBit(w, j - shift);
      if j < shift + w {
        BitsOf(32, v, Mask(w), j - shift);
      } else {
        MaskedRange(v, w, j - shift);
      }
    }
  }

  lemma MaskedRange(v: Long, w: nat, i: nat)
    requires IsField(w) && i >= w
    ensures !BitAt(And(32, v, Mask(w)), i)
  {
    hide BitAt, Pow2, And, Mask;
    RangesOf(32, v, Mask(w));
    SmallBit(And(32, v, Mask(w)), 32, i);
    if i < 32 {
      BitsOf(32, v, Mask(w), i);
      MaskBit(w, i);
    }
  }

  /** Byte k of a number, from the least significant. */
  function ByteOf(data: nat, k: nat): Byte {
    Shr(data, 8 * k) % 256
  }

  /** BF_INSERT_MEM. */
  method InsertMem(b0: Bus, ea: Long, off: int, w: nat, v: Long) returns (b: Bus)
    requires IsField(w) && IsOffset(off)
    ensures b.fault.None? ==> Inserted(b0.mem, b.mem, 8 * ea + off, w, v)
    ensures b0.fault.Some? ==> b.fault.Some?
  {
    hide Peek, Poke, Wrap, Pow256, Read, Write, AppendByte, Inserted, Span, Pow2, And, MergeField, ByteOf, Written;
    var at, bit := Locate(ea, off);
    ghost var base := (8 * ea + off) / 8;
    var n := (bit + w + 7) / 8;
    var bytes := new Byte[5](_ => 0);
    b := b0;
    var i := 0;
    while i < n && i < 5
      invariant i <= n <= 5
      invariant QuietBus(b0, b)
      invariant b.fault.None? ==> forall k :: 0 <= k < i ==> bytes[k] == Get(b0.mem, Wrap(base + k))
    {
      var (b', byte) := Read(b, Wrap(at + i), 1);
      ReadQuiet(b, Wrap(at + i), 1);
      ReadByte(b, base, i);
      b := b';
      bytes[i] := byte;
      i := i + 1;
    }
    var data: nat := 0;
    i := 0;
    EmptyBlock(b0.mem, base);
    while i < n && i < 5
      invariant i <= n <= 5
      invariant data < Pow256(i)
      invariant b.fault.None? ==> forall k :: 0 <= k < n ==> bytes[k] == Get(b0.mem, Wrap(base + k))
      invariant b.fault.None? ==> data == Peek(b0.mem, base, i)
    {
      AppendByteValue(data, bytes[i], i);
      NextPeek(b0.mem, base, i);
      assert b.fault.None? ==> bytes[i] == Get(b0.mem, Wrap(base + i));
      data := AppendByte(data, bytes[i]);
      i := i + 1;
    }
    var shift := n * 8 - bit - w;
    data := MergeField(data, w, shift, v);
    i := 0;
    NothingWritten(b0.mem, base, data, n);
    while i < n && i < 5
      invariant i <= n <= 5
      invariant b0.fault.Some? ==> b.fault.Some?
      invariant b.fault.None? ==> b0.fault.None? && data == MergeField(Peek(b0.mem, base, n), w, shift, v)
      invariant b.fault.None? ==> Written(b0.mem, b.mem, base, data, n, i)
    {
      WriteByte(b0.mem, b, base, data, n, i);
      b := Write(b, Wrap(at + i), 1, ByteOf(data, n - 1 - i));
      i := i + 1;
    }
    if b.fault.None? {
      BlockInserted(b0.mem, b.mem, base, n, bit, w, shift, v);
    }
  }

  /** Distance of address x past base. */
  function Place(x: Long, base: int): Long { Wrap(x - base) }

  /** The first i of the n bytes of data are in m' at base, all else as in m. */
  predicate Written(m: Bytes, m': Bytes, base: int, data: nat, n: nat, i: nat)
    requires i <= n
  {
    forall x: Long :: Get(m', x) == if Place(x, base) < i then ByteOf(data, n - 1 - Place(x, base)) else Get(m, x)
  }

  lemma NothingWritten(m: Bytes, base: int, data: nat, n: nat)
    ensures Written(m, m, base, data, n, 0)
  {
  }

  lemma WriteByte(m: Bytes, b: Bus, base: int, data: nat, n: nat, i: nat)
    requires i < n <= 5
    ensures var b' := Write(b, Wrap(Wrap(base) + i), 1, ByteOf(data, n - 1 - i));
            && (b.fault.Some? ==> b'.fault.Some?)
            && (b'.fault.None? && Written(m, b.mem, base, data, n, i) ==> Written(m, b'.mem, base, data, n, i + 1))
  {
    hide ByteOf, Place, Wrap, Poke;
    WrapTwice(base, i);
    PokeByte(b.mem, Wrap(base + i), ByteOf(data, n - 1 - i));
    NextByte(base, i);
  }

  lemma PokeByte(m: Bytes, a: Long, v: Byte)
    ensures Poke(m, a, 1, v) == m[a := v]
  {
    assert Poke(m, a, 0, v / 256) == m;
    assert Wrap(a) == a;
  }

  lemma NextByte(base: int, i: nat)
    requires i < 5
    ensures forall x: Long :: Place(x, base) < i + 1 <==> Place(x, base) < i || x == Wrap(base + i)
    ensures Place(Wrap(base + i), base) == i
  {
    forall x: Long ensures Place(x, base) == i <==> x == Wrap(base + i) {
      PlaceIs(x, base, i);
    }
  }

  lemma PlaceIs(x: Long, base: int, i: nat)
    requires i < 5
    ensures Place(x, base) == i <==> x == Wrap(base + i)
  {
  }

  lemma BlockInserted(m: Bytes, m': Bytes, base: int, n: nat, bit: nat, w: nat, shift: nat, v: Long)
    requires IsField(w) && bit < 8 && n <= 5 && shift + bit + w == 8 * n
    requires Written(m, m', base, MergeField(Peek(m, base, n), w, shift, v), n, n)
    ensures Inserted(m, m', 8 * base + bit, w, v)
  {
    hide MemBit, Written;
    forall q
      ensures MemBit(m', q)
          <==> var d := Ahead(q, 8 * base + bit); if d < w then BitAt(v, w - 1 - d) else MemBit(m, q)
    {
      BlockBit(m, m', base, n, bit, w, shift, v, q);
    }
  }

  lemma BlockBit(m: Bytes, m': Bytes, base: int, n: nat, bit: nat, w: nat, shift: nat, v: Long, q: int)
    requires IsField(w) && bit < 8 && n <= 5 && shift + bit + w == 8 * n
    requires Written(m, m', base, MergeField(Peek(m, base, n), w, shift, v), n, n)
    ensures MemBit(m', q)
        <==> var d := Ahead(q, 8 * base + bit); if d < w then BitAt(v, w - 1 - d) else MemBit(m, q)
  {
    hide BitAt, Wrap, MergeField, Peek, ByteOf, Pow2, Ahead;
    var data := Peek(m, base, n);
    var new_ := MergeField(data, w, shift, v);
    var x := Wrap(q / 8);
    var t := Place(x, base);
    Position(q, base, bit, n, w);
    if t < n {
      var j := 8 * (n - 1 - t) + (7 - q % 8);
      ByteBit(new_, n - 1 - t, 7 - q % 8);
      MergeBit(data, w, shift, v, j);
      PeekBit(m, base, n, j);
      SamePlace(m, q, base, t);
      assert 8 * base + (8 * n - 1 - j) == 8 * (base + t) + q % 8;
    }
  }

  lemma SamePlace(m: Bytes, q: int, base: int, t: nat)
    requires t == Wrap(Wrap(q / 8) - base)
    ensures MemBit(m, 8 * (base + t) + q % 8) == MemBit(m, q)
  {
    hide BitAt;
    var k := 8 * (base + t) + q % 8;
    assert k / 8 == base + t && k % 8 == q % 8;
    assert Wrap(base + t) == Wrap(q / 8);
  }

  lemma ByteBit(data: nat, k: nat, i: nat)
    requires i < 8
    ensures BitAt(ByteOf(data, k), i) == BitAt(data, 8 * k + i)
  {
    hide BitAt, Pow2;
    SmallPowers();
    LowBit(Shr(data, 8 * k), 8, i);
    ShrBit(data, 8 * k, i);
  }

  /** Where bit q lies relative to a field that starts `bit` bits into byte `base`. */
  lemma Position(q: int, base: int, bit: nat, n: nat, w: nat)
    requires bit < 8 && n <= 5 && 8 * n >= bit + w && w <= 32
    ensures var t := Wrap(Wrap(q / 8) - base);
            var d := Ahead(q, 8 * base + bit);
            && (d < w <==> t < n && bit <= 8 * t + q % 8 < bit + w)
            && (d < w ==> d == 8 * t + q % 8 - bit)
  {
    var t := Wrap(Wrap(q / 8) - base);
    var k := (q / 8 - base - t) / 0x1_0000_0000;
    assert q / 8 - base == t + 0x1_0000_0000 * k by { Residue(q / 8, base); }
    var e := 8 * t + q % 8 - bit;
    assert q - (8 * base + bit) == e + 0x8_0000_0000 * k;
    RingPosition(q - (8 * base + bit), e, k);
  }

  lemma Residue(a: int, base: int)
    ensures (a - base - Wrap(Wrap(a) - base)) % 0x1_0000_0000 == 0
  {
  }

  lemma RingPosition(v: int, e: int, k: int)
    requires v == e + 0x8_0000_0000 * k && -8 < e < 0x8_0000_0000
    ensures v % 0x8_0000_0000 == if e < 0 then e + 0x8_0000_0000 else e
  {
  }

  /** The scan of BFFFO: distance of the first set bit, or the width when there is none. */
  method FindFirst(f: nat, w: nat) returns (pos: nat)
    requires IsField(w) && f < Pow2(w)
    ensures pos <= w && (pos == w <==> f == 0)
    ensures pos < w ==> BitAt(f, w - 1 - pos)
    ensures forall i :: w - pos <= i < w ==> !BitAt(f, i)
  {
    hide BitAt, Pow2;
    pos := 0;
    if f != 0 {
      while pos < w && Shr(f, w - 1 - pos) % 2 == 0
        invariant pos <= w
        invariant forall i :: w - pos <= i < w ==> !BitAt(f, i)
      {
        ShrBit(f, w - 1 - pos, 0);
        BitStep(Shr(f, w - 1 - pos), 0);
        pos := pos + 1;
      }
      if pos == w {
        ClearIsZero(f, w);
      } else {
        ShrBit(f, w - 1 - pos, 0);
        BitStep(Shr(f, w - 1 - pos), 0);
      }
    } else {
      pos := w;
      forall i | 0 <= i < w ensures !BitAt(f, i) {
        ZeroBit(i);
      }
    }
  }

  lemma ClearIsZero(f: nat, w: nat)
    requires f < Pow2(w) && forall i :: 0 <= i < w ==> !BitAt(f, i)
    ensures f == 0
  {
    hide BitAt;
    forall i | 0 <= i < w ensures BitAt(f, i) == BitAt(0, i) {
      ZeroBit(i);
    }
    SameBits(w, f, 0);
  }

  // ---- laws -------------------------------------------------------------

  /** What was inserted is extracted again. */
  lemma MemRoundTrip(m: Bytes, m': Bytes, p: int, w: nat, v: Long, r: nat)
    requires IsField(w) && Inserted(m, m', p, w, v) && Spells(m', p, w, r)
    ensures r == v % Pow2(w)
  {
    hide BitAt, Pow2, MemBit;
    DivMod(v, Pow2(w));
    forall i | 0 <= i < w ensures BitAt(r, i) == BitAt(v % Pow2(w), i) {
      assert MemBit(m', p + (w - 1 - i)) == BitAt(v, w - 1 - Ahead(p + (w - 1 - i), p));
      LowBit(v, w, i);
    }
    SameBits(w, r, v % Pow2(w));
  }

  /** The two routines together: BFINS, then BFEXTU of the same field. */
  method InsertThenExtract(b0: Bus, ea: Long, off: int, w: nat, v: Long) returns (b: Bus, r: nat)
    requires IsField(w) && IsOffset(off)
    ensures b.fault.None? ==> r == v % Pow2(w) && Inserted(b0.mem, b.mem, 8 * ea + off, w, v)
  {
    hide Inserted, Spells, Pow2;
    var b1 := InsertMem(b0, ea, off, w, v);
    b, r := ExtractMem(b1, ea, off, w);
    if b.fault.None? {
      MemRoundTrip(b0.mem, b1.mem, 8 * ea + off, w, v, r);
    }
  }

  /** Another field that shares no bit is not disturbed. */
  lemma OtherFieldKept(m: Bytes, m': Bytes, p: int, w: nat, v: Long, p2: int, w2: nat, r: nat)
    requires IsField(w) && IsField(w2) && Inserted(m, m', p, w, v)
    requires forall q :: Ahead(q, p2) < w2 ==> Ahead(q, p) >= w
    ensures Spells(m', p2, w2, r) <==> Spells(m, p2, w2, r)
  {
    hide BitAt, Pow2, MemBit;
    forall i | 0 <= i < w2
      ensures BitAt(r, i) == MemBit(m', p2 + (w2 - 1 - i)) <==> BitAt(r, i) == MemBit(m, p2 + (w2 - 1 - i))
    {
      assert Ahead(p2 + (w2 - 1 - i), p2) < w2;
    }
  }

  /** BFCHG inserts the complement of what it extracted: every bit of the field flips. */
  lemma ChangeFlips(m: Bytes, m': Bytes, p: int, w: nat, f: nat, q: int)
    requires IsField(w) && Spells(m, p, w, f) && f < B32 && Inserted(m, m', p, w, Wrap(B32 - 1 - f))
    ensures MemBit(m', q) <==> (MemBit(m, q) != (Ahead(q, p) < w))
  {
    hide BitAt, Pow2, MemBit;
    var d := Ahead(q, p);
    if d < w {
      FlippedBit(f, w - 1 - d);
      assert BitAt(f, w - 1 - d) == MemBit(m, p + (w - 1 - (w - 1 - d)));
      Repeats(m, q, p, d);
    }
  }

  lemma FlippedBit(f: nat, i: nat)
    requires f < B32 && i < 32
    ensures BitAt(B32 - 1 - f, i) == !BitAt(f, i)
  {
    hide Pow2;
    Pow2Long();
    ComplementBit(32, f, i);
  }

  lemma {:induction false} ComplementBit(n: nat, f: nat, i: nat)
    requires f < Pow2(n) && i < n
    ensures BitAt(Pow2(n) - 1 - f, i) == !BitAt(f, i)
  {
    hide BitAt;
    var g := Pow2(n) - 1 - f;
    BitStep(f, i);
    BitStep(g, i);
    assert g / 2 == Pow2(n - 1) - 1 - f / 2 && g % 2 == 1 - f % 2;
    if i > 0 {
      ComplementBit(n - 1, f / 2, i - 1);
    }
  }

  lemma Repeats(m: Bytes, q: int, p: int, d: nat)
    requires d == Ahead(q, p)
    ensures MemBit(m, p + d) == MemBit(m, q)
  {
    hide BitAt;
    var k := (q - p) / 0x8_0000_0000;
    assert q == p + d + 8 * (0x1_0000_0000 * k);
    var u := p + d;
    assert q / 8 == u / 8 + 0x1_0000_0000 * k && q % 8 == u % 8;
  }
}
