/**
The checkpoint handle of src/core/checkpoint.c: an object whose calls append to
or consume a record stream, with the sticky error flag, the growing v3 buffer
and the header written at open or close.
*/
module Checkpoint {
  import opened Words
  import opened CheckpointFormat
  import Rle

  const MAGIC_LEN: nat := 8
  const BUILD_ID_LEN: nat := 20
  const MODEL_ID_LEN: nat := 16
  const COPY_CHUNK: nat := 8192

  // ---- header -----------------------------------------------------------

  /** "GSCHKPT2" or "GSCHKPT3". */
  function Magic(fmt: Format): (m: seq<Byte>)
    ensures |m| == MAGIC_LEN
  {
    [0x47, 0x53, 0x43, 0x48, 0x4B, 0x50, 0x54, if fmt.V2? then 0x32 else 0x33]
  }

  /** Model name, cut to 15 bytes and null-padded to 16. */
  function ModelField(id: seq<Byte>): (m: seq<Byte>)
    ensures |m| == MODEL_ID_LEN && m[15] == 0
  {
    var n := Min(|id|, MODEL_ID_LEN - 1);
    id[..n] + seq(MODEL_ID_LEN - n, _ => 0)
  }

  datatype Header = Header(fmt: Format, model: seq<Byte>, ram: nat)

  predicate ValidHeader(h: Header) {
    |h.model| == MODEL_ID_LEN && h.model[15] == 0 && h.ram < 0x1_0000_0000
  }

  function HeaderBytes(h: Header, build: seq<Byte>): seq<Byte> {
    Magic(h.fmt) + build + h.model + LeBytes(h.ram, 4)
  }

  /** The file a closed handle leaves behind; v3 stores its size twice to mark a raw payload. */
  function Image(h: Header, build: seq<Byte>, payload: seq<Byte>): seq<Byte> {
    HeaderBytes(h, build) +
    (if h.fmt.V3? then LeBytes(|payload|, 8) + LeBytes(|payload|, 8) else []) + payload
  }

  datatype Opened = Opened(header: Header, stream: seq<Byte>, pos: nat)

  function ReadHeader(s: seq<Byte>, build: seq<Byte>): Option<(Header, nat)> {
    var magic :- Take(s, 0, MAGIC_LEN);
    if magic != Magic(V2) && magic != Magic(V3) then None
    else
      var id :- Take(s, MAGIC_LEN, BUILD_ID_LEN);
      if id != build then None
      else
        var model :- Take(s, 28, MODEL_ID_LEN);
        var ram :- TakeLe(s, 44, 4);
        Some((Header(if magic == Magic(V2) then V2 else V3, model[..15] + [0], ram), 48))
  }

  /** `checkpoint_open_read`: v3 loads and expands its payload, v2 streams from the file. */
  function Open(s: seq<Byte>, build: seq<Byte>): Option<Opened> {
    var (h, pos) :- ReadHeader(s, build);
    if h.fmt.V2? then Some(Opened(h, s, pos))
    else
      var raw :- TakeLe(s, pos, 8);
      var comp :- TakeLe(s, pos + 8, 8);
      if comp > MAX_ALLOC || raw > MAX_ALLOC then None
      else
        var body :- Take(s, pos + 16, comp);
        if comp == raw then Some(Opened(h, body, 0))
        else
          var b :- Rle.Decode(body, raw);
          Some(Opened(h, b, 0))
  }

  lemma HeaderRoundTrip(h: Header, build: seq<Byte>, rest: seq<Byte>)
    requires ValidHeader(h) && |build| == BUILD_ID_LEN
    ensures ReadHeader(HeaderBytes(h, build) + rest, build) == Some((h, 48))
  {
    Pow256Values();
    var s := HeaderBytes(h, build) + rest;
    assert s[0..8] == Magic(h.fmt) && s[8..28] == build && s[28..44] == h.model;
    assert At(s, 44, LeBytes(h.ram, 4));
    AtLe(s, 44, h.ram, 4);
    assert h.model[..15] + [0] == h.model;
    assert Magic(V2)[7] != Magic(V3)[7];
  }

  /** The name in a header is that of the machine, up to fifteen bytes, and null from there on. */
  lemma ModelName(id: seq<Byte>, i: nat)
    requires i < 16
    ensures ModelField(id)[i] == if i < |id| && i < 15 then id[i] else 0
  {
  }

  /** What opens begins with "GSCHKPT2" or "GSCHKPT3", then the build, the machine's name and its memory size. */
  lemma OpensOnly(s: seq<Byte>, build: seq<Byte>)
    requires |build| == 20 && Open(s, build).Some?
    ensures |s| >= 48 && (forall i :: 0 <= i < 7 ==> s[i] == "GSCHKPT"[i] as int) && s[8..28] == build
    ensures var h := Open(s, build).value.header;
            && s[7] == (if h.fmt.V2? then '2' else '3') as int
            && h.model == s[28..43] + [0] && h.ram == LeValue(s[44..48])
  {
    hide Rle.Decode, LeValue;
    var (h, pos) := ReadHeader(s, build).value;
    assert Open(s, build).value.header == h;
    assert s[28..44][..15] == s[28..43];
    assert s[0..8] == Magic(V2) || s[0..8] == Magic(V3);
    forall i | 0 <= i < 7 ensures s[i] == "GSCHKPT"[i] as int {
      assert s[i] == s[0..8][i];
    }
    assert s[7] == s[0..8][7];
  }

  /** Only files of the running build open. */
  lemma OtherBuildRejected(h: Header, build: seq<Byte>, other: seq<Byte>, payload: seq<Byte>)
    requires |build| == BUILD_ID_LEN && |other| == BUILD_ID_LEN && build != other
    ensures Open(Image(h, build, payload), other).None?
  {
    var s := Image(h, build, payload);
    assert s[0..8] == Magic(h.fmt) && s[8..28] == build;
  }

  lemma OpenImage(h: Header, build: seq<Byte>, payload: seq<Byte>)
    requires ValidHeader(h) && |build| == BUILD_ID_LEN && |payload| < 0x1_0000_0000_0000_0000
    ensures Open(Image(h, build, payload), build) ==
            if h.fmt.V2? then Some(Opened(h, Image(h, build, payload), 48))
            else if |payload| <= MAX_ALLOC then Some(Opened(h, payload, 0)) else None
  {
    hide ReadHeader, HeaderBytes, LeBytes, LeValue, Rle.Decode, At, Take, TakeLe;
    var s, n := Image(h, build, payload), LeBytes(|payload|, 8);
    if h.fmt.V2? {
      assert s == HeaderBytes(h, build) + payload;
      HeaderRoundTrip(h, build, payload);
    } else {
      assert s == HeaderBytes(h, build) + (n + n + payload);
      HeaderRoundTrip(h, build, n + n + payload);
      HeaderLength(h, build);
      AtSuffix(HeaderBytes(h, build), n + n + payload);
      AtSplit(s, 48, n + n, payload);
      AtSplit(s, 48, n, n);
      Pow256Values();
      AtLe(s, 48, |payload|, 8);
      AtLe(s, 56, |payload|, 8);
      AtTake(s, 64, payload);
    }
  }

  /** A v3 file whose payload is run-length coded opens to the payload, though no writer here makes one. */
  lemma OpenPacked(h: Header, build: seq<Byte>, payload: seq<Byte>)
    requires ValidHeader(h) && |build| == BUILD_ID_LEN && h.fmt.V3?
    requires var k := |Rle.Encode(payload)|; k != |payload| && k <= MAX_ALLOC && |payload| <= MAX_ALLOC
    ensures var e := Rle.Encode(payload);
            var s := HeaderBytes(h, build) + (LeBytes(|payload|, 8) + LeBytes(|e|, 8) + e);
            Open(s, build) == Some(Opened(h, payload, 0))
  {
    hide ReadHeader, HeaderBytes, LeBytes, LeValue, Rle.Decode, Rle.Encode, At, Take, TakeLe;
    var e := Rle.Encode(payload);
    var (n, k) := (LeBytes(|payload|, 8), LeBytes(|e|, 8));
    var s := HeaderBytes(h, build) + (n + k + e);
    HeaderRoundTrip(h, build, n + k + e);
    HeaderLength(h, build);
    AtSuffix(HeaderBytes(h, build), n + k + e);
    AtSplit(s, 48, n + k, e);
    AtSplit(s, 48, n, k);
    Pow256Values();
    AtLe(s, 48, |payload|, 8);
    AtLe(s, 56, |e|, 8);
    AtTake(s, 64, e);
    Rle.RoundTrip(payload, []);
    assert e + [] == e;
  }

  lemma HeaderLength(h: Header, build: seq<Byte>)
    requires ValidHeader(h) && |build| == BUILD_ID_LEN
    ensures |HeaderBytes(h, build)| == 48
  {
  }

  lemma AtSuffix(a: seq<Byte>, b: seq<Byte>)
    ensures At(a + b, |a|, b)
  {
  }

  /**
  A whole checkpoint: written by one handle with the files of fs, closed, opened
  by the same build and read with the same schema and the files of fs'.
  Everything comes back and the cursor ends on the last byte, exactly when each record is readable and a v3 payload is
  within the allocation limit.
  */
  lemma CheckpointRoundTrip(
    h: Header, build: seq<Byte>, fs: FileSystem, fs': FileSystem, asRefs: bool, rs: seq<Record>, qs: seq<Request>)
    requires ValidHeader(h) && |build| == BUILD_ID_LEN
    requires |rs| == |qs| && forall i :: 0 <= i < |rs| ==> Asks(qs[i], rs[i]) && Fits(fs, rs[i])
    requires |StreamBytes(h.fmt, fs, asRefs, rs)| < 0x1_0000_0000_0000_0000
    ensures var body := StreamBytes(h.fmt, fs, asRefs, rs);
            match Open(Image(h, build, body), build)
            case None => h.fmt.V3? && |body| > MAX_ALLOC
            case Some(o) =>
              && (h.fmt.V2? || |body| <= MAX_ALLOC)
              && o.header == h
              && ReadAll(h.fmt, fs', o.stream, o.pos, qs) ==
                 if forall i :: 0 <= i < |rs| ==> Readable(h.fmt, fs', asRefs, rs[i], qs[i])
                 then Some((ExpectedAll(h.fmt, fs, fs', asRefs, rs, qs), |o.stream|)) else None
  {
    hide Open, StreamBytes, ReadAll, ExpectedAll, Readable, Fits, At, HeaderBytes, LeBytes;
    var body := StreamBytes(h.fmt, fs, asRefs, rs);
    OpenImage(h, build, body);
    if h.fmt.V2? {
      var head := HeaderBytes(h, build);
      assert Image(h, build, body) == head + body;
      HeaderLength(h, build);
      AtSuffix(head, body);
      StreamRoundTrip(h.fmt, fs, fs', asRefs, Image(h, build, body), 48, rs, qs);
    } else if |body| <= MAX_ALLOC {
      assert [] + body == body;
      AtSuffix([], body);
      StreamRoundTrip(h.fmt, fs, fs', asRefs, body, 0, rs, qs);
    }
  }

  lemma SliceJoin(s: seq<Byte>, from: nat, at: nat, take: nat, k: nat)
    requires from <= at && at + take <= |s| && k <= take
    ensures s[from..at] + s[at..at + take][..k] == s[from..at + k]
  {
  }

  lemma Joined(s: seq<Byte>, a: seq<Byte>, b: seq<Byte>, c: seq<Byte>)
    ensures s + a + b == s + (a + b)
    ensures s + a + b + c == s + (a + b + c)
  {
  }

  lemma TakeSlice(s: seq<Byte>, pos: nat, n: nat)
    ensures Take(s, pos, n) == if pos + n <= |s| then Some(s[pos..pos + n]) else None
  {
  }

  lemma TakeLength(s: seq<Byte>, pos: nat, n: nat)
    ensures Take(s, pos, n).Some? ==> |Take(s, pos, n).value| == n
  {
  }

  // ---- the handle -------------------------------------------------------

  class Handle {
    var writing: bool
    var error: bool
    var header: Header
    var file: seq<Byte>    // bytes of the open file
    var filePos: nat
    var buf: array?<Byte>  // v3 accumulation or decompressed-read buffer
    var bufUsed: nat
    var bufPos: nat

    ghost predicate Valid()
      reads this, buf
    {
      && (buf != null <==> header.fmt.V3?)
      && (buf != null ==> bufUsed <= buf.Length)
      && (buf == null ==> filePos <= |file|)
    }

    /** The record stream: the v3 buffer, or the v2 file. */
    ghost function Stream(): seq<Byte>
      requires Valid()
      reads this, buf
    {
      if buf != null then buf[..bufUsed] else file
    }

    ghost function Pos(): nat
      reads this
    {
      if buf != null then bufPos else filePos
    }

    /** `checkpoint_open_write`: v2 streams its header at once, v3 accumulates. */
    constructor OpenWrite(fmt: Format, id: seq<Byte>, ram: nat, build: seq<Byte>, capacity: nat)
      requires ram < 0x1_0000_0000
      ensures Valid() && writing && !error
      ensures header == Header(fmt, ModelField(id), ram) && ValidHeader(header)
      ensures buf != null ==> fresh(buf)
      ensures Stream() == if fmt.V3? then [] else HeaderBytes(header, build)
    {
      var h := Header(fmt, ModelField(id), ram);
      writing, error, header := true, false, h;
      filePos, bufUsed, bufPos := 0, 0, 0;
      if fmt.V3? {
        buf := new Byte[capacity](_ => 0);
        file := [];
      } else {
        buf := null;
        file := HeaderBytes(h, build);
      }
    }

    /** A file just opened: nothing read yet, the format still unknown. */
    constructor Raw(image: seq<Byte>)
      ensures Valid() && !writing && !error && buf == null && file == image && filePos == 0
    {
      writing, error, header := false, false, Header(V2, [], 0);
      file, filePos, bufUsed, bufPos := image, 0, 0, 0;
      buf := null;
    }

    /** The v3 payload, raw when its two sizes agree and run-length encoded when not. */
    method LoadPayload(h: Header, body: seq<Byte>, raw: nat) returns (ok: bool)
      requires h.fmt.V3?
      modifies this
      ensures ok <==> |body| == raw || Rle.Decode(body, raw).Some?
      ensures ok ==> Valid() && buf != null && fresh(buf) && Pos() == 0 && header == h
      ensures ok ==> Stream() == if |body| == raw then body else Rle.Decode(body, raw).value
      ensures writing == old(writing) && error == old(error)
    {
      hide Rle.Decode;
      header, bufUsed, bufPos := h, raw, 0;
      var payload := new Byte[raw](_ => 0);
      if |body| == raw {
        Rle.StoreBytes(payload, 0, body);
        ok := true;
      } else {
        ok := Rle.RleDecode(body, payload);
      }
      buf := payload;
      assert payload[..raw] == payload[..];
    }

    /** Signature, build id, model and RAM size, each read in turn. */
    method NextHeader(build: seq<Byte>) returns (h: Option<Header>)
      requires Valid() && buf == null && filePos == 0
      modifies this`error, this`bufPos, this`filePos
      ensures Valid() && buf == null && file == old(file)
      ensures h.Some? <==> ReadHeader(file, build).Some?
      ensures h.Some? ==> ReadHeader(file, build) == Some((h.value, filePos)) && error == old(error)
    {
      hide Take, TakeLe, LeValue;
      h := None;
      var magic := Next(MAGIC_LEN);
      if magic.None? || (magic.value != Magic(V2) && magic.value != Magic(V3)) {
        return;
      }
      var id := Next(BUILD_ID_LEN);
      if id.None? || id.value != build {
        return;
      }
      var model := Next(MODEL_ID_LEN);
      if model.None? {
        return;
      }
      var ram := NextLe(4);
      if ram.None? {
        return;
      }
      TakeLength(file, 28, MODEL_ID_LEN);
      h := Some(Header(if magic.value == Magic(V2) then V2 else V3, model.value[..15] + [0], ram.value));
    }

    /** `checkpoint_open_read`: null for a bad signature, another build, a truncated file or a bad size. */
    static method OpenRead(image: seq<Byte>, build: seq<Byte>) returns (cp: Handle?)
      ensures cp == null <==> Open(image, build).None?
      ensures cp != null ==> fresh(cp) && cp.Valid() && !cp.writing && !cp.error
      ensures cp != null ==> Opened(cp.header, cp.Stream(), cp.Pos()) == Open(image, build).value
    {
      hide ReadHeader, Take, TakeLe, Rle.Decode;
      cp := null;
      var handle := new Handle.Raw(image);
      var h := handle.NextHeader(build);
      if h.None? {
        return;
      }
      if h.value.fmt.V2? {
        handle.header := h.value;
        cp := handle;
        return;
      }
      var raw := handle.NextLe(8);
      if raw.None? {
        return;
      }
      var comp := handle.NextLe(8);
      if comp.None? || comp.value > MAX_ALLOC || raw.value > MAX_ALLOC {
        return;
      }
      var body := handle.Next(comp.value);
      if body.None? {
        return;
      }
      TakeLength(image, handle.filePos - comp.value, comp.value);
      var ok := handle.LoadPayload(h.value, body.value, raw.value);
      if ok {
        cp := handle;
      }
    }

    /** `checkpoint_close` of a writer: a failed v3 writer leaves no payload. */
    method Close(build: seq<Byte>) returns (image: seq<Byte>)
      requires Valid()
      requires writing && (header.fmt.V2? ==> HeaderBytes(header, build) <= file)
      ensures !error && header.fmt.V3? ==> image == Image(header, build, Stream())
      ensures header.fmt.V2? ==> image == Image(header, build, file[|HeaderBytes(header, build)|..])
      ensures error && header.fmt.V3? ==> image == file
    {
      hide HeaderBytes, LeBytes;
      if buf != null && !error {
        var raw := LeBytes(bufUsed, 8);
        image := HeaderBytes(header, build) + (raw + raw) + buf[..bufUsed];
      } else {
        image := file;
        var head := HeaderBytes(header, build);
        if buf == null {
          assert image == head + [] + file[|head|..];
        }
      }
    }

    /** `buf_append`: grow to double or to exactly what is needed, then copy. */
    method BufAppend(data: seq<Byte>)
      requires Valid() && buf != null
      modifies this`buf, this`bufUsed, buf
      ensures Valid() && buf != null && (buf == old(buf) || fresh(buf))
      ensures Stream() == old(Stream()) + data
    {
      if bufUsed + |data| > buf.Length {
        var needed := bufUsed + |data|;
        var cap := if buf.Length * 2 < needed then needed else buf.Length * 2;
        var bigger := new Byte[cap](_ => 0);
        Rle.StoreBytes(bigger, 0, buf[..bufUsed]);
        buf := bigger;
        assert buf[..bufUsed] == old(buf[..bufUsed]);
      }
      Rle.StoreBytes(buf, bufUsed, data);
      bufUsed := bufUsed + |data|;
    }

    /** One `buf_append` or `fwrite`. */
    method Append(data: seq<Byte>)
      requires Valid()
      modifies this`file, this`buf, this`bufUsed, buf
      ensures Valid() && (buf == old(buf) || (old(buf) != null && fresh(buf)))
      ensures Stream() == old(Stream()) + data
    {
      if buf != null {
        BufAppend(data);
      } else {
        file := file + data;
      }
    }

    /** One `buf_read` or `fread`: all n bytes, or the error flag. */
    method Next(n: nat) returns (r: Option<seq<Byte>>)
      requires Valid()
      modifies this`error, this`bufPos, this`filePos
      ensures Valid() && Stream() == old(Stream())
      ensures r == Take(old(Stream()), old(Pos()), n)
      ensures r.Some? ==> error == old(error) && Pos() == old(Pos()) + n
      ensures r.None? ==> error
    {
      if buf != null {
        if bufPos + n > bufUsed {
          error := true;
          return None;
        }
        r := Some(buf[bufPos..bufPos + n]);
        assert buf[..bufUsed][bufPos..bufPos + n] == buf[bufPos..bufPos + n];
        bufPos := bufPos + n;
      } else {
        if filePos + n > |file| {
          error, filePos := true, |file|;
          return None;
        }
        r := Some(file[filePos..filePos + n]);
        filePos := filePos + n;
      }
    }

    method NextLe(k: nat) returns (r: Option<nat>)
      requires Valid()
      modifies this`error, this`bufPos, this`filePos
      ensures Valid() && Stream() == old(Stream())
      ensures r == TakeLe(old(Stream()), old(Pos()), k)
      ensures r.Some? ==> error == old(error) && Pos() == old(Pos()) + k
      ensures r.None? ==> error
    {
      var b := Next(k);
      r := if b.None? then None else Some(LeValue(b.value));
    }

    /** The v2 diagnostics between a size field and its payload. */
    method NextTag() returns (ok: bool)
      requires Valid()
      modifies this`error, this`bufPos, this`filePos
      ensures Valid() && Stream() == old(Stream())
      ensures ok <==> SkipTag(old(Stream()), old(Pos())).Some?
      ensures ok ==> error == old(error) && Some(Pos()) == SkipTag(old(Stream()), old(Pos()))
      ensures !ok ==> error
    {
      hide Take, TakeLe;
      ok := false;
      var n := NextLe(4);
      if n.None? { return; }
      var name := Next(n.value);
      if name.None? { return; }
      var line := NextLe(4);
      ok := line.Some?;
    }

    // ---- blocks -------------------------------------------------------

    /** The v2 size field and diagnostics. */
    method AppendHead(size: nat, tag: Tag)
      requires Valid() && buf == null
      modifies this`file, this`buf, this`bufUsed
      ensures Valid() && buf == null
      ensures Stream() == old(Stream()) + (LeBytes(size, 8) + TagBytes(tag))
    {
      hide LeBytes;
      Append(LeBytes(size, 8));
      Append(TagBytes(tag));
    }

    /** A dry run sizes the buffer exactly; the second pass fills it. */
    static method Compress(data: seq<Byte>) returns (comp: seq<Byte>)
      ensures comp == Rle.Encode(data)
    {
      hide Rle.Encode;
      var size := Rle.RleEncode(data, null, 0);
      var buffer := new Byte[size](_ => 0);
      var wrote := Rle.RleEncode(data, buffer, size);
      comp := buffer[..size];
    }

    /** A v2 block: raw below the threshold, else run-length encoded. */
    method AppendBlock(data: seq<Byte>)
      requires Valid() && buf == null
      modifies this`file, this`buf, this`bufUsed
      ensures Valid() && buf == null
      ensures Stream() == old(Stream()) + BlockBytes(data)
    {
      hide LeBytes, Rle.Encode;
      if |data| < RLE_THRESHOLD {
        Joined(Stream(), [0], data, []);
        Append([0]);
        Append(data);
      } else {
        var comp := Compress(data);
        Joined(Stream(), [1], LeBytes(|comp|, 8), comp);
        Append([1]);
        Append(LeBytes(|comp|, 8));
        Append(comp);
      }
    }

    /** `system_write_checkpoint_data_loc`. */
    method WriteData(data: seq<Byte>, tag: Tag)
      requires Valid()
      modifies this, buf
      ensures Valid() && header == old(header) && writing == old(writing)
      ensures buf == old(buf) || fresh(buf)
      ensures old(error) || !writing ==> error && Stream() == old(Stream())
      ensures !old(error) && writing ==>
                !error && Stream() == old(Stream()) + DataBytes(header.fmt, data, tag)
    {
      hide LeBytes, BlockBytes, TagBytes;
      if error || !writing {
        error := true;
        return;
      }
      if buf != null {
        Append(LeBytes(|data|, 4));
        Append(data);
      } else {
        AppendHead(|data|, tag);
        AppendBlock(data);
      }
    }

    /** The v2 block body: raw or run-length encoded. */
    method NextBlock(data: array<Byte>) returns (ok: bool)
      requires Valid() && buf == null
      modifies this`error, this`bufPos, this`filePos, data
      ensures Valid() && Stream() == old(Stream())
      ensures var r := ReadBlock(old(Stream()), old(Pos()), data.Length);
              && (ok <==> r.Some?)
              && (ok ==> error == old(error) && (data[..], Pos()) == r.value)
              && (!ok ==> error)
    {
      hide Take, TakeLe, Rle.Decode;
      ok := false;
      var flag := NextLe(1);
      if flag.None? { return; }
      if flag.value == 0 {
        var b := Next(data.Length);
        if b.None? { return; }
        Rle.StoreBytes(data, 0, b.value);
        assert data[..] == data[..data.Length] == b.value;
        ok := true;
      } else if flag.value == 1 {
        var comp := NextLe(8);
        if comp.None? { return; }
        if comp.value > MAX_ALLOC {
          error := true;
          return;
        }
        var b := Next(comp.value);
        if b.None? { return; }
        ok := Rle.RleDecode(b.value, data);
        if !ok {
          error := true;
        }
      } else {
        error := true;
      }
    }

    /** `system_read_checkpoint_data_loc`. */
    method ReadData(data: array<Byte>)
      requires Valid() && data != buf
      modifies this, data
      ensures Valid() && Stream() == old(Stream()) && header == old(header)
      ensures old(error) || writing ==> error
      ensures !old(error) && !writing ==>
                match CheckpointFormat.ReadData(header.fmt, old(Stream()), old(Pos()), data.Length)
                case None => error
                case Some((b, p)) => !error && data[..] == b && Pos() == p
    {
      hide Take, TakeLe, ReadBlock, SkipTag;
      if error || writing {
        error := true;
        return;
      }
      if buf != null {
        var stored := NextLe(4);
        if stored.None? { return; }
        if stored.value != data.Length {
          error := true;
          return;
        }
        var b := Next(data.Length);
        if b.None? { return; }
        Rle.StoreBytes(data, 0, b.value);
        assert data[..] == data[..data.Length] == b.value;
        return;
      }
      var stored := NextLe(8);
      if stored.None? { return; }
      var tag := NextTag();
      if !tag { return; }
      if stored.value != data.Length {
        error := true;
        return;
      }
      var ok := NextBlock(data);
    }

    // ---- files --------------------------------------------------------

    /** The 8 KiB copy loop that embeds a file's bytes. */
    method AppendContent(content: seq<Byte>)
      requires Valid()
      modifies this`file, this`buf, this`bufUsed, buf
      ensures Valid() && (buf == old(buf) || (old(buf) != null && fresh(buf)))
      ensures Stream() == old(Stream()) + content
    {
      var at := 0;
      while at < |content|
        invariant at <= |content| && Valid()
        invariant buf == old(buf) || (old(buf) != null && fresh(buf))
        invariant Stream() == old(Stream()) + content[..at]
      {
        var r := Min(COPY_CHUNK, |content| - at);
        Append(content[at..at + r]);
        assert content[..at] + content[at..at + r] == content[..at + r];
        at := at + r;
      }
      assert content[..at] == content;
    }

    /** The content flag and, for an embedded file, its size and bytes. */
    method AppendTail(embeds: bool, content: seq<Byte>)
      requires Valid()
      modifies this`file, this`buf, this`bufUsed, buf
      ensures Valid() && (buf == old(buf) || (old(buf) != null && fresh(buf)))
      ensures Stream() == old(Stream()) + if embeds then [1] + LeBytes(|content|, 8) + content else [0]
    {
      hide LeBytes;
      if embeds {
        Joined(Stream(), [1], LeBytes(|content|, 8), content);
        Append([1]);
        Append(LeBytes(|content|, 8));
        AppendContent(content);
      } else {
        Append([0]);
      }
    }

    method AppendPayload(path: seq<Byte>, embeds: bool, content: seq<Byte>)
      requires Valid()
      modifies this`file, this`buf, this`bufUsed, buf
      ensures Valid() && (buf == old(buf) || (old(buf) != null && fresh(buf)))
      ensures Stream() == old(Stream()) + PayloadBytes(path, embeds, content)
    {
      hide LeBytes;
      ghost var tail := if embeds then [1] + LeBytes(|content|, 8) + content else [0];
      Joined(Stream(), LeBytes(|path|, 4), path, tail);
      Append(LeBytes(|path|, 4));
      Append(path);
      AppendTail(embeds, content);
    }

    /** `checkpoint_write_file_loc`. */
    method WriteFile(fs: FileSystem, asRefs: bool, path: seq<Byte>, tag: Tag)
      requires Valid()
      modifies this, buf
      ensures Valid() && header == old(header) && writing == old(writing)
      ensures buf == old(buf) || fresh(buf)
      ensures old(error) || !writing ==> error && Stream() == old(Stream())
      ensures !old(error) && writing ==>
                !error && Stream() == old(Stream()) + FileBytes(header.fmt, fs, asRefs, path, tag)
    {
      hide LeBytes, TagBytes, Embeds, Contents;
      if error || !writing {
        error := true;
        return;
      }
      var embeds := Embeds(header.fmt, asRefs, path);
      var content := Contents(fs, path);
      if buf == null {
        AppendHead(4 + |path| + 1 + (if embeds then 8 + |content| else 0), tag);
      }
      AppendPayload(path, embeds, content);
    }

    /** v2 content: stream all of it, keeping what the destination holds. */
    method NextContentV2(n: nat, dest: array?<Byte>, capacity: nat) returns (ok: bool, loaded: nat)
      requires Valid() && buf == null && (dest != null ==> capacity <= dest.Length)
      modifies this`error, this`bufPos, this`filePos, dest
      ensures Valid() && Stream() == old(Stream())
      ensures ok <==> old(Pos()) + n <= |Stream()|
      ensures !ok ==> error
      ensures ok ==> && error == old(error) && Pos() == old(Pos()) + n
                     && loaded == Loadable(dest != null, capacity, n)
                     && (dest != null ==> dest[..loaded] == Stream()[old(Pos())..old(Pos()) + loaded])
    {
      hide Take;
      ok, loaded := true, 0;
      var remaining := n;
      ghost var from := Pos();
      while remaining > 0
        invariant 0 <= remaining <= n && Valid() && file == old(file)
        invariant error == old(error) && filePos == from + (n - remaining)
        invariant loaded == Loadable(dest != null, capacity, n - remaining)
        invariant dest != null ==> dest[..loaded] == file[from..from + loaded]
      {
        var take := Min(COPY_CHUNK, remaining);
        var at := filePos;
        TakeSlice(file, at, take);
        var b := Next(take);
        if b.None? {
          ok := false;
          return;
        }
        if dest != null {
          var before := loaded;
          loaded := KeepChunk(dest, capacity, before, b.value);
          SliceJoin(file, from, at, take, loaded - before);
        }
        remaining := remaining - take;
      }
    }

    /** The part of a chunk that still fits. */
    static method KeepChunk(dest: array<Byte>, capacity: nat, loaded: nat, b: seq<Byte>) returns (more: nat)
      requires loaded <= capacity <= dest.Length
      modifies dest
      ensures more == loaded + Min(capacity - loaded, |b|)
      ensures dest[..more] == old(dest[..loaded]) + b[..more - loaded]
    {
      var k := Min(capacity - loaded, |b|);
      Rle.StoreBytes(dest, loaded, b[..k]);
      more := loaded + k;
    }

    /** v3 content: copy what fits, step over the rest unchecked. */
    method NextContentV3(n: nat, dest: array?<Byte>, capacity: nat) returns (ok: bool, loaded: nat)
      requires Valid() && buf != null && dest != buf && (dest != null ==> capacity <= dest.Length)
      modifies this`error, this`bufPos, this`filePos, dest
      ensures Valid() && Stream() == old(Stream())
      ensures ok <==> Loadable(dest != null, capacity, n) == 0
                      || old(Pos()) + Loadable(dest != null, capacity, n) <= |Stream()|
      ensures !ok ==> error
      ensures ok ==> && error == old(error) && Pos() == old(Pos()) + n
                     && loaded == Loadable(dest != null, capacity, n)
                     && (dest != null && loaded > 0 ==>
                           dest[..loaded] == Stream()[old(Pos())..old(Pos()) + loaded])
    {
      ok, loaded := true, 0;
      if n > 0 && dest != null && capacity > 0 {
        var k := Min(capacity, n);
        var b := Next(k);
        if b.None? {
          ok := false;
          return;
        }
        Rle.StoreBytes(dest, 0, b.value);
        loaded := k;
        bufPos := bufPos + (n - k);
      } else {
        bufPos := bufPos + n;
      }
    }

    /** `checkpoint_read_file_loc`. */
    method ReadFile(fs: FileSystem, dest: array?<Byte>, capacity: nat, wantPath: bool)
      returns (loaded: nat, outPath: Option<seq<Byte>>)
      requires Valid() && (dest != null ==> dest != buf && capacity <= dest.Length)
      modifies this, dest
      ensures Valid() && Stream() == old(Stream()) && header == old(header)
      ensures old(error) || writing ==> error
      ensures !old(error) && !writing ==>
                match CheckpointFormat.ReadFile(
                        header.fmt, fs, old(Stream()), old(Pos()), WantFile(dest != null, capacity, wantPath))
                case None => error
                case Some((reply, p)) =>
                  !error && Pos() == p && GotFile(Loaded(dest, loaded), outPath) == reply
    {
      hide Take, TakeLe, SkipTag, ReadPayload;
      loaded, outPath := 0, None;
      if error || writing {
        error := true;
        return;
      }
      if buf == null {
        var size := NextLe(8);
        if size.None? { return; }
        var tag := NextTag();
        if !tag { return; }
      }
      loaded, outPath := NextPayload(fs, dest, capacity, wantPath);
    }

    /** The size and bytes of embedded content. */
    method NextContent(dest: array?<Byte>, capacity: nat) returns (loaded: nat)
      requires Valid() && !error && (dest != null ==> dest != buf && capacity <= dest.Length)
      modifies this`error, this`bufPos, this`filePos, dest
      ensures Valid() && Stream() == old(Stream())
      ensures match ReadContent(header.fmt, old(Stream()), old(Pos()), dest != null, capacity)
              case None => error
              case Some((b, p)) => !error && Pos() == p && Loaded(dest, loaded) == b
    {
      hide TakeLe;
      loaded := 0;
      var size := NextLe(8);
      if size.None? { return; }
      var ok;
      if buf != null {
        ok, loaded := NextContentV3(size.value, dest, capacity);
      } else {
        ok, loaded := NextContentV2(size.value, dest, capacity);
      }
    }

    /** What a destination holds after a read of `loaded` bytes. */
    static ghost function Loaded(dest: array?<Byte>, loaded: nat): seq<Byte>
      reads dest
    {
      if dest != null && loaded <= dest.Length then dest[..loaded] else []
    }

    /** The path, the content flag and the content or the referenced file. */
    method NextPayload(fs: FileSystem, dest: array?<Byte>, capacity: nat, wantPath: bool)
      returns (loaded: nat, outPath: Option<seq<Byte>>)
      requires Valid() && !error && (dest != null ==> dest != buf && capacity <= dest.Length)
      modifies this`error, this`bufPos, this`filePos, dest
      ensures Valid() && Stream() == old(Stream())
      ensures match ReadPayload(header.fmt, fs, old(Stream()), old(Pos()), WantFile(dest != null, capacity, wantPath))
              case None => error
              case Some((reply, p)) =>
                !error && Pos() == p && GotFile(Loaded(dest, loaded), outPath) == reply
    {
      hide Take, TakeLe, ReadContent;
      loaded, outPath := 0, None;
      var n := NextLe(4);
      if n.None? { return; }
      var path := Next(n.value);
      if path.None? { return; }
      if wantPath && n.value > 0 {
        outPath := path;
      }
      var has := NextLe(1);
      if has.None? { return; }
      if has.value != 0 {
        loaded := NextContent(dest, capacity);
      } else if outPath.Some? && dest != null && capacity > 0 {
        if path.value in fs {
          loaded := Min(capacity, |fs[path.value]|);
          Rle.StoreBytes(dest, 0, fs[path.value][..loaded]);
        } else if buf != null {
          error := true;
        }
      }
    }
  }
}
