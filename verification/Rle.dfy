/**
The run-length codec of checkpoint files (src/core/checkpoint.c).

`Encode` and `Decode` give the meaning of the two C routines; the methods
`RleEncode` and `RleDecode` are the buffer-filling loops, proved against them.
*/
module Rle {
  import opened Words

  /** Largest count a chunk's 32-bit length field can hold. */
  const MAX_COUNT: nat := 0xFFFF_FFFF

  const RUN_MARKER: Byte := 1
  const LIT_MARKER: Byte := 0

  // ---- chunk boundaries -------------------------------------------------

  /** Four equal bytes start at j. */
  predicate Quad(s: seq<Byte>, j: nat) {
    j + 3 < |s| && s[j] == s[j + 1] && s[j] == s[j + 2] && s[j] == s[j + 3]
  }

  /** n is the length of the longest encodable run at the front of s. */
  ghost predicate IsRun(s: seq<Byte>, n: nat) {
    && 1 <= n <= |s| && n <= MAX_COUNT
    && (forall j :: 0 <= j < n ==> s[j] == s[0])
    && (n == |s| || n == MAX_COUNT || s[n] != s[0])
  }

  /** n is the length of the literal that stops at the first run of four. */
  ghost predicate IsLiteral(s: seq<Byte>, n: nat) {
    && 1 <= n <= |s| && n <= MAX_COUNT
    && (forall j :: 0 <= j < n ==> !Quad(s, j))
    && (n == |s| || n == MAX_COUNT || Quad(s, n))
  }

  function RunFrom(s: seq<Byte>, k: nat): (n: nat)
    requires 1 <= k <= |s| && k <= MAX_COUNT
    requires forall j :: 0 <= j < k ==> s[j] == s[0]
    ensures IsRun(s, n)
    decreases |s| - k
  {
    if k < |s| && s[k] == s[0] && k < MAX_COUNT then RunFrom(s, k + 1) else k
  }

  function RunLength(s: seq<Byte>): (n: nat)
    requires s != []
    ensures IsRun(s, n)
  {
    RunFrom(s, 1)
  }

  function LiteralFrom(s: seq<Byte>, k: nat): (n: nat)
    requires 1 <= k <= |s| && k <= MAX_COUNT
    requires forall j :: 0 <= j < k ==> !Quad(s, j)
    ensures IsLiteral(s, n)
    decreases |s| - k
  {
    if k < |s| && k < MAX_COUNT && !Quad(s, k) then LiteralFrom(s, k + 1) else k
  }

  function LiteralLength(s: seq<Byte>): (n: nat)
    requires s != [] && !Quad(s, 0)
    ensures IsLiteral(s, n)
  {
    LiteralFrom(s, 1)
  }

  lemma RunUnique(s: seq<Byte>, m: nat, n: nat)
    requires IsRun(s, m) && IsRun(s, n)
    ensures m == n
  {
  }

  lemma LiteralUnique(s: seq<Byte>, m: nat, n: nat)
    requires IsLiteral(s, m) && IsLiteral(s, n)
    ensures m == n
  {
  }

  lemma ShortRunIsNoQuad(s: seq<Byte>)
    requires s != []
    ensures RunLength(s) >= 4 <==> Quad(s, 0)
  {
    var n := RunLength(s);
    if n >= 4 {
      assert s[1] == s[0] && s[2] == s[0] && s[3] == s[0];
    }
  }

  // ---- encoding ---------------------------------------------------------

  datatype Chunk = Run(count: nat, value: Byte) | Lit(bytes: seq<Byte>)

  predicate Encodable(c: Chunk) {
    if c.Run? then c.count <= MAX_COUNT else |c.bytes| <= MAX_COUNT
  }

  function ChunkBytes(c: Chunk): seq<Byte> {
    match c
    case Run(n, v) => [RUN_MARKER] + LeBytes(n, 4) + [v]
    case Lit(b) => [LIT_MARKER] + LeBytes(|b|, 4) + b
  }

  function Expand(c: Chunk): seq<Byte> {
    match c
    case Run(n, v) => seq(n, _ => v)
    case Lit(b) => b
  }

  /** The chunk emitted for the front of a non-empty input. */
  function FirstChunk(s: seq<Byte>): (c: Chunk)
    requires s != []
    ensures Encodable(c)
    ensures Expand(c) <= s && |Expand(c)| > 0
  {
    var n := RunLength(s);
    ShortRunIsNoQuad(s);
    if n >= 4 then Run(n, s[0]) else Lit(s[..LiteralLength(s)])
  }

  function Rest(s: seq<Byte>): (t: seq<Byte>)
    requires s != []
    ensures s == Expand(FirstChunk(s)) + t && |t| < |s|
  {
    s[|Expand(FirstChunk(s))|..]
  }

  function Encode(s: seq<Byte>): seq<Byte>
    decreases |s|
  {
    if s == [] then [] else ChunkBytes(FirstChunk(s)) + Encode(Rest(s))
  }

  lemma EncodeUnfold(s: seq<Byte>)
    ensures s == [] ==> Encode(s) == []
    ensures s != [] ==> |Rest(s)| == |s| - |Expand(FirstChunk(s))|
    ensures s != [] ==> Encode(s) == ChunkBytes(FirstChunk(s)) + Encode(Rest(s))
  {
  }

  // ---- decoding ---------------------------------------------------------

  /** Parse one chunk; None for a bad marker or a truncated chunk. */
  function NextChunk(s: seq<Byte>): (r: Option<(Chunk, nat)>)
    ensures r.Some? ==> 5 <= r.value.1 <= |s|
  {
    if |s| < 5 then None
    else
      var count := LeValue(s[1..5]);
      if s[0] == RUN_MARKER then
        if |s| < 6 then None else Some((Run(count, s[5]), 6))
      else if s[0] == LIT_MARKER then
        if 5 + count > |s| then None else Some((Lit(s[5..5 + count]), 5 + count))
      else None
  }

  /** Decode into exactly `room` bytes; input left over once they are filled is ignored. */
  function Decode(s: seq<Byte>, room: nat): (r: Option<seq<Byte>>)
    ensures r.Some? ==> |r.value| == room
    decreases |s|
  {
    if room == 0 then Some([])
    else if s == [] then None
    else
      match NextChunk(s)
      case None => None
      case Some((c, used)) =>
        if |Expand(c)| > room then None
        else
          Prepend(Expand(c), Decode(s[used..], room - |Expand(c)|))
  }

  function Prepend(s: seq<Byte>, r: Option<seq<Byte>>): Option<seq<Byte>> {
    if r.None? then None else Some(s + r.value)
  }

  // ---- round trip -------------------------------------------------------

  lemma ChunkRoundTrip(c: Chunk, tail: seq<Byte>)
    requires Encodable(c)
    ensures NextChunk(ChunkBytes(c) + tail) == Some((c, |ChunkBytes(c)|))
  {
    Pow256Values();
    var s := ChunkBytes(c) + tail;
    var n := if c.Run? then c.count else |c.bytes|;
    LeRoundTrip(n, 4);
    assert s[1..5] == LeBytes(n, 4);
    if c.Lit? {
      assert s[5..5 + n] == c.bytes;
    }
  }

  /** A chunk cut short is not accepted. */
  lemma ChunkTruncated(c: Chunk, k: nat, room: nat)
    requires Encodable(c) && k < |ChunkBytes(c)| && room > 0
    ensures Decode(ChunkBytes(c)[..k], room).None?
  {
    Pow256Values();
    var p := ChunkBytes(c)[..k];
    var n := if c.Run? then c.count else |c.bytes|;
    if k >= 5 {
      LeRoundTrip(n, 4);
      assert p[1..5] == LeBytes(n, 4);
    }
  }

  /** Prepending a whole chunk to an input prepends its expansion to the output. */
  lemma DecodeChunk(c: Chunk, tail: seq<Byte>, room: nat)
    requires Encodable(c) && 0 < |Expand(c)| <= room
    ensures Decode(ChunkBytes(c) + tail, room) ==
            Prepend(Expand(c), Decode(tail, room - |Expand(c)|))
  {
    hide NextChunk, ChunkBytes, Expand, Prepend, Encodable, Decode;
    ChunkRoundTrip(c, tail);
    assert (ChunkBytes(c) + tail)[|ChunkBytes(c)|..] == tail;
    DecodeHead(ChunkBytes(c) + tail, room);
  }

  lemma DecodeHead(s: seq<Byte>, room: nat)
    requires room > 0 && NextChunk(s).Some? && |Expand(NextChunk(s).value.0)| <= room
    ensures var (c, used) := NextChunk(s).value;
            Decode(s, room) == Prepend(Expand(c), Decode(s[used..], room - |Expand(c)|))
  {
    hide NextChunk, Expand, Prepend;
    NotEmpty(s);
  }

  lemma NotEmpty(s: seq<Byte>)
    ensures NextChunk(s).Some? ==> s != []
  {
  }

  lemma PrependNone(s: seq<Byte>)
    ensures Prepend(s, None) == None
  {
  }

  /** Decoding undoes encoding, whatever follows the encoded bytes. */
  lemma {:induction false} RoundTrip(s: seq<Byte>, junk: seq<Byte>)
    ensures Decode(Encode(s) + junk, |s|) == Some(s)
    decreases |s|
  {
    if s != [] {
      var c := FirstChunk(s);
      assert Encode(s) + junk == ChunkBytes(c) + (Encode(Rest(s)) + junk);
      DecodeChunk(c, Encode(Rest(s)) + junk, |s|);
      RoundTrip(Rest(s), junk);
    }
  }

  /** No strict prefix of an encoding decodes to the full size. */
  lemma {:induction false} PrefixRejected(s: seq<Byte>, k: nat)
    requires s != [] && k < |Encode(s)|
    ensures Decode(Encode(s)[..k], |s|).None?
    decreases |s|
  {
    hide *;
    var c := FirstChunk(s);
    var head := ChunkBytes(c);
    EncodeUnfold(s);
    EncodeUnfold([]);
    if k < |head| {
      assert Encode(s)[..k] == head[..k];
      ChunkTruncated(c, k, |s|);
    } else {
      var tail := Encode(Rest(s))[..k - |head|];
      assert Encode(s)[..k] == head + tail;
      DecodeChunk(c, tail, |s|);
      PrefixRejected(Rest(s), k - |head|);
      PrependNone(Expand(c));
    }
  }

  // ---- the two kinds of chunk -------------------------------------------

  /** A run of four or more equal bytes is a 1, the count in four bytes and the byte. */
  lemma RunForm(v: Byte, n: nat)
    requires 4 <= n <= MAX_COUNT
    ensures Encode(seq(n, _ => v)) == [1] + LeBytes(n, 4) + [v]
  {
    hide LeBytes;
    var s := seq(n, _ => v);
    assert IsRun(s, n);
    RunUnique(s, n, RunLength(s));
    EncodeUnfold(s);
    EncodeUnfold(Rest(s));
  }

  /** Bytes without four equal ones in a row are a 0, the count in four bytes and the bytes. */
  lemma LiteralForm(s: seq<Byte>)
    requires 1 <= |s| <= MAX_COUNT
    requires forall i :: 0 <= i <= |s| - 4 ==> !(s[i] == s[i + 1] == s[i + 2] == s[i + 3])
    ensures Encode(s) == [0] + LeBytes(|s|, 4) + s
  {
    hide LeBytes;
    assert forall j :: 0 <= j < |s| ==> !Quad(s, j);
    ShortRunIsNoQuad(s);
    assert IsLiteral(s, |s|);
    LiteralUnique(s, |s|, LiteralLength(s));
    EncodeUnfold(s);
    EncodeUnfold(Rest(s));
  }

  // ---- size bound -------------------------------------------------------

  /** A literal shorter than the maximum is followed by a run or by the end. */
  lemma AfterLiteral(s: seq<Byte>)
    requires s != [] && FirstChunk(s).Lit? && |FirstChunk(s).bytes| < MAX_COUNT
    ensures Rest(s) == [] || FirstChunk(Rest(s)).Run?
  {
    ShortRunIsNoQuad(s);
    var n := LiteralLength(s);
    if n < |s| {
      assert Quad(s, n);
      assert Quad(s[n..], 0);
      ShortRunIsNoQuad(s[n..]);
    }
  }

  /**
  Amortised expansion bound: each short literal's overhead is paid by the run
  after it, so only a final literal costs the constant 18.
  */
  lemma {:induction false} ExpansionBound(s: seq<Byte>)
    ensures s == [] || FirstChunk(s).Run? ==> 5 * |Encode(s)| <= 12 * |s|
    ensures 5 * |Encode(s)| <= 12 * |s| + 18
    decreases |s|
  {
    if s != [] {
      ExpansionBound(Rest(s));
      var c := FirstChunk(s);
      ShortRunIsNoQuad(s);
      if c.Run? {
        assert c.count >= 4;
      } else if |c.bytes| < MAX_COUNT {
        AfterLiteral(s);
      }
    }
  }

  /** k copies of a lone byte and a run of four, then a lone byte. */
  function Alternating(k: nat): (s: seq<Byte>)
    ensures |s| == 5 * k + 1 && s[0] == 0
    ensures k > 0 ==> s[1] == 1
  {
    if k == 0 then [0] else [0, 1, 1, 1, 1] + Alternating(k - 1)
  }

  /** The bound is attained at every size 5k+1. */
  lemma {:induction false} BoundTight(k: nat)
    ensures 5 * |Encode(Alternating(k))| == 12 * |Alternating(k)| + 18
  {
    var s := Alternating(k);
    if k == 0 {
      assert IsRun(s, 1);
      RunUnique(s, 1, RunLength(s));
      assert Encode(s) == ChunkBytes(Lit([0])) + Encode([]);
    } else {
      var t := s[1..];
      var u := Alternating(k - 1);
      assert t == [1, 1, 1, 1] + u;
      assert IsRun(s, 1) && !Quad(s, 0) && Quad(s, 1) && IsLiteral(s, 1);
      RunUnique(s, 1, RunLength(s));
      LiteralUnique(s, 1, LiteralLength(s));
      assert FirstChunk(s) == Lit([0]) && Rest(s) == t;
      assert t[4] == 0;
      assert IsRun(t, 4);
      RunUnique(t, 4, RunLength(t));
      assert FirstChunk(t) == Run(4, 1) && Rest(t) == u;
      BoundTight(k - 1);
    }
  }

  // ---- the C loops ------------------------------------------------------

  /** A literal or run scanned in the middle of the input, in terms of its suffix. */
  lemma SuffixQuad(s: seq<Byte>, i: nat, j: nat)
    requires i <= j <= |s|
    ensures Quad(s, j) <==> Quad(s[i..], j - i)
  {
  }

  /** One step of the encoder's outer loop: the chunk at offset i and its end. */
  method ScanChunk(input: seq<Byte>, start: nat) returns (i: nat, chunk: Chunk)
    requires start < |input|
    ensures start < i <= |input|
    ensures chunk == FirstChunk(input[start..])
    ensures input[i..] == Rest(input[start..])
  {
    ghost var s := input[start..];
    i := start;
    var val := input[i];
    while i < |input| && input[i] == val && i - start < MAX_COUNT
      invariant start <= i <= |input| && i - start <= MAX_COUNT
      invariant forall j :: 0 <= j < i - start ==> s[j] == val
    {
      i := i + 1;
    }
    assert IsRun(s, i - start);
    RunUnique(s, i - start, RunLength(s));
    ShortRunIsNoQuad(s);
    if i - start >= 4 {
      chunk := Run(i - start, val);
    } else {
      i := start;
      var more := true;
      while more && i < |input|
        invariant start <= i <= |input| && i - start <= MAX_COUNT
        invariant forall j :: 0 <= j < i - start ==> !Quad(s, j)
        invariant i == start ==> more
        invariant more ==> i - start < MAX_COUNT
        invariant !more ==> i - start == MAX_COUNT || (i < |input| && Quad(s, i - start))
        decreases |input| - i, more
      {
        SuffixQuad(input, start, i);
        if Quad(input, i) {
          more := false;
        } else {
          i := i + 1;
          if i - start >= MAX_COUNT {
            more := false;
          }
        }
      }
      assert IsLiteral(s, i - start);
      LiteralUnique(s, i - start, LiteralLength(s));
      chunk := Lit(input[start..i]);
      assert s[..i - start] == input[start..i];
    }
    assert s[i - start..] == input[i..];
  }

  /** `memcpy`/`memset` into the output buffer at offset `at`. */
  method StoreBytes(out: array<Byte>, at: nat, data: seq<Byte>)
    requires at + |data| <= out.Length
    modifies out
    ensures out[..at + |data|] == old(out[..at]) + data
  {
    var k := 0;
    while k < |data|
      invariant 0 <= k <= |data|
      invariant out[..at + k] == old(out[..at]) + data[..k]
    {
      out[at + k] := data[k];
      k := k + 1;
    }
  }

  /**
  `rle_encode`: with a null buffer a dry run that returns the exact size; with
  a buffer, the encoding itself, or 0 when it does not fit.
  */
  method RleEncode(input: seq<Byte>, out: array?<Byte>, cap: nat) returns (size: nat)
    requires out != null ==> cap <= out.Length
    modifies out
    ensures out == null ==> size == |Encode(input)|
    ensures out != null && |Encode(input)| <= cap ==>
              size == |Encode(input)| && out[..size] == Encode(input)
    ensures out != null && |Encode(input)| > cap ==> size == 0
  {
    hide *;
    size := 0;
    var i := 0;
    ghost var done: seq<Byte> := [];
    assert input[0..] == input && [] + Encode(input) == Encode(input);
    while i < |input|
      invariant 0 <= i <= |input|
      invariant size == |done|
      invariant Encode(input) == done + Encode(input[i..])
      invariant out != null ==> size <= cap && out[..size] == done
    {
      ghost var s := input[i..];
      var chunk;
      i, chunk := ScanChunk(input, i);
      var bytes := ChunkBytes(chunk);
      EncodeUnfold(s);
      assert done + Encode(s) == (done + bytes) + Encode(input[i..]);
      if out != null {
        if size + |bytes| > cap {
          size := 0;
          return;
        }
        StoreBytes(out, size, bytes);
      }
      size := size + |bytes|;
      done := done + bytes;
    }
    assert input[i..] == [];
    EncodeUnfold([]);
    assert done + [] == done;
  }


  /** Parse the chunk at `ip`, as the decoder's loop body does. */
  method ReadChunk(input: seq<Byte>, ip: nat) returns (chunk: Option<Chunk>, next: nat)
    requires ip < |input|
    ensures chunk.Some? <==> NextChunk(input[ip..]).Some?
    ensures chunk.Some? ==> ip < next <= |input| && NextChunk(input[ip..]) == Some((chunk.value, next - ip))
  {
    ghost var s := input[ip..];
    var marker := input[ip];
    next := ip + 1;
    if next + 4 > |input| {
      return None, next;
    }
    var count := LeValue(input[next..next + 4]);
    assert s[1..5] == input[next..next + 4];
    next := next + 4;
    if marker == RUN_MARKER {
      if next >= |input| {
        return None, next;
      }
      chunk := Some(Run(count, input[next]));
      next := next + 1;
    } else if marker == LIT_MARKER {
      if next + count > |input| {
        return None, next;
      }
      chunk := Some(Lit(input[next..next + count]));
      assert s[5..5 + count] == input[next..next + count];
      next := next + count;
    } else {
      chunk := None;
    }
  }

  /** `rle_decode`: fills the whole buffer, or reports failure. */
  method RleDecode(input: seq<Byte>, out: array<Byte>) returns (ok: bool)
    modifies out
    ensures ok <==> Decode(input, out.Length).Some?
    ensures ok ==> out[..] == Decode(input, out.Length).value
  {
    hide *;
    var ip, op := 0, 0;
    ghost var goal := Decode(input, out.Length);
    assert input[0..] == input;
    PrependNothing(out[..0], goal);
    while ip < |input| && op < out.Length
      invariant 0 <= ip <= |input| && 0 <= op <= out.Length
      invariant goal == Prepend(out[..op], Decode(input[ip..], out.Length - op))
    {
      ghost var before, s, room := out[..op], input[ip..], out.Length - op;
      var chunk, next := ReadChunk(input, ip);
      DecodeStep(before, s, room);
      if chunk.None? {
        return false;
      }
      var bytes := Expand(chunk.value);
      if op + |bytes| > out.Length {
        return false;
      }
      assert s[next - ip..] == input[next..];
      StoreBytes(out, op, bytes);
      ip, op := next, op + |bytes|;
    }
    DecodeEnd(out[..op], input[ip..], out.Length - op);
    ok := op == out.Length;
    assert out[..out.Length] == out[..];
  }

  /** What the decoder's loop body does to the result still owed. */
  lemma DecodeStep(before: seq<Byte>, s: seq<Byte>, room: nat)
    requires s != [] && room > 0
    ensures NextChunk(s).None? ==> Prepend(before, Decode(s, room)).None?
    ensures NextChunk(s).Some? ==>
              var (c, used) := NextChunk(s).value;
              if |Expand(c)| > room then Prepend(before, Decode(s, room)).None?
              else Prepend(before, Decode(s, room)) ==
                   Prepend(before + Expand(c), Decode(s[used..], room - |Expand(c)|))
  {
    if NextChunk(s).Some? {
      var (c, used) := NextChunk(s).value;
      if |Expand(c)| <= room {
        PrependTwice(before, Expand(c), Decode(s[used..], room - |Expand(c)|));
      }
    }
  }

  lemma DecodeEnd(before: seq<Byte>, s: seq<Byte>, room: nat)
    requires s == [] || room == 0
    ensures Prepend(before, Decode(s, room)) == if room == 0 then Some(before) else None
  {
    assert before + [] == before;
  }

  lemma PrependNothing(s: seq<Byte>, r: Option<seq<Byte>>)
    requires s == []
    ensures Prepend(s, r) == r
  {
    assert r.Some? ==> s + r.value == r.value;
  }

  lemma PrependTwice(s: seq<Byte>, t: seq<Byte>, r: Option<seq<Byte>>)
    ensures Prepend(s, Prepend(t, r)) == Prepend(s + t, r)
  {
    if r.Some? {
      assert s + (t + r.value) == (s + t) + r.value;
    }
  }
}
