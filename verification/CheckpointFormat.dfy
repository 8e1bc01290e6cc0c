/**
The two on-disk record streams of src/core/checkpoint.c as functions: what a
write appends and what a read of the same stream returns. v2 frames each block
with diagnostics and compresses large ones; v3 is a plain accumulation buffer.
*/
module CheckpointFormat {
  import opened Words
  import Rle

  const RLE_THRESHOLD: nat := 64
  const MAX_ALLOC: nat := 256 * 1024 * 1024

  datatype Format = V2 | V3

  /** Files by path; those found on reading need not be those there were on writing. */
  type FileSystem = map<seq<Byte>, seq<Byte>>

  /** __FILE__ and __LINE__ of the caller, stored for diagnostics (v2 only). */
  datatype Tag = Tag(file: seq<Byte>, line: nat)

  datatype Record =
    | Data(bytes: seq<Byte>, tag: Tag)
    | File(path: seq<Byte>, tag: Tag)

  /** What a reader asks for; a null destination is `dest == false`. */
  datatype Request =
    | WantData(size: nat)
    | WantFile(dest: bool, capacity: nat, wantPath: bool)

  datatype Reply =
    | GotData(bytes: seq<Byte>)
    | GotFile(loaded: seq<Byte>, path: Option<seq<Byte>>)

  // ---- writing ----------------------------------------------------------

  function TagBytes(t: Tag): seq<Byte> {
    LeBytes(|t.file|, 4) + t.file + LeBytes(t.line, 4)
  }

  function BlockBytes(b: seq<Byte>): seq<Byte> {
    if |b| < RLE_THRESHOLD then [0] + b
    else [1] + LeBytes(|Rle.Encode(b)|, 8) + Rle.Encode(b)
  }

  function DataBytes(fmt: Format, b: seq<Byte>, t: Tag): seq<Byte> {
    if fmt.V3? then LeBytes(|b|, 4) + b
    else LeBytes(|b|, 8) + TagBytes(t) + BlockBytes(b)
  }

  /** "/opfs/", the prefix of files that outlive the session. */
  const PERSISTENT_PREFIX: seq<Byte> := [0x2F, 0x6F, 0x70, 0x66, 0x73, 0x2F]

  /** Whether the record carries the file's bytes or only its path. */
  predicate Embeds(fmt: Format, asRefs: bool, path: seq<Byte>) {
    if fmt.V3? then path != [] && !(PERSISTENT_PREFIX <= path) else !asRefs
  }

  function Contents(fs: FileSystem, path: seq<Byte>): seq<Byte> {
    if path != [] && path in fs then fs[path] else []
  }

  function PayloadBytes(path: seq<Byte>, embeds: bool, content: seq<Byte>): seq<Byte> {
    LeBytes(|path|, 4) + path +
    (if embeds then [1] + LeBytes(|content|, 8) + content else [0])
  }

  function FileBytes(fmt: Format, fs: FileSystem, asRefs: bool, path: seq<Byte>, t: Tag): seq<Byte> {
    var payload := PayloadBytes(path, Embeds(fmt, asRefs, path), Contents(fs, path));
    if fmt.V3? then payload else LeBytes(|payload|, 8) + TagBytes(t) + payload
  }

  function RecordBytes(fmt: Format, fs: FileSystem, asRefs: bool, r: Record): seq<Byte> {
    match r
    case Data(b, t) => DataBytes(fmt, b, t)
    case File(p, t) => FileBytes(fmt, fs, asRefs, p, t)
  }

  function StreamBytes(fmt: Format, fs: FileSystem, asRefs: bool, rs: seq<Record>): seq<Byte> {
    if rs == [] then []
    else RecordBytes(fmt, fs, asRefs, rs[0]) + StreamBytes(fmt, fs, asRefs, rs[1..])
  }

  // ---- reading ----------------------------------------------------------

  /** `fread`/`buf_read` of n bytes at pos. */
  function Take(s: seq<Byte>, pos: nat, n: nat): (r: Option<seq<Byte>>)
    ensures r.Some? ==> |r.value| == n
  {
    if pos + n <= |s| then Some(s[pos..pos + n]) else None
  }

  function TakeLe(s: seq<Byte>, pos: nat, k: nat): Option<nat> {
    var b :- Take(s, pos, k); Some(LeValue(b))
  }

  /** Position after a length-prefixed file name and a line number. */
  function SkipTag(s: seq<Byte>, pos: nat): Option<nat> {
    var n :- TakeLe(s, pos, 4);
    var _ :- Take(s, pos + 4, n);
    var _ :- TakeLe(s, pos + 4 + n, 4);
    Some(pos + 8 + n)
  }

  function ReadBlock(s: seq<Byte>, pos: nat, size: nat): Option<(seq<Byte>, nat)> {
    var flag :- TakeLe(s, pos, 1);
    if flag == 0 then
      var b :- Take(s, pos + 1, size);
      Some((b, pos + 1 + size))
    else if flag == 1 then
      var comp :- TakeLe(s, pos + 1, 8);
      if comp > MAX_ALLOC then None
      else
        var c :- Take(s, pos + 9, comp);
        var b :- Rle.Decode(c, size);
        Some((b, pos + 9 + comp))
    else None
  }

  function ReadData(fmt: Format, s: seq<Byte>, pos: nat, size: nat): Option<(seq<Byte>, nat)> {
    if fmt.V3? then
      var stored :- TakeLe(s, pos, 4);
      if stored != size then None
      else
        var b :- Take(s, pos + 4, size);
        Some((b, pos + 4 + size))
    else
      var stored :- TakeLe(s, pos, 8);
      var p :- SkipTag(s, pos + 8);
      if stored != size then None else ReadBlock(s, p, size)
  }

  function Min(a: nat, b: nat): nat { if a < b then a else b }

  /** Bytes a destination receives of an n-byte file. */
  function Loadable(dest: bool, capacity: nat, n: nat): nat {
    if dest then Min(capacity, n) else 0
  }

  /**
  Embedded content at pos. v2 streams through all of it; v3 copies what fits
  and steps over the rest without looking.
  */
  function ReadContent(fmt: Format, s: seq<Byte>, pos: nat, dest: bool, capacity: nat): Option<(seq<Byte>, nat)> {
    var n :- TakeLe(s, pos, 8);
    var k := Loadable(dest, capacity, n);
    if fmt.V3? && k == 0 then Some(([], pos + 8 + n))
    else
      var b :- Take(s, pos + 8, if fmt.V3? then k else n);
      Some((b[..k], pos + 8 + n))
  }

  /** Content of a file stored by reference: v3 reports a missing file, v2 does not. */
  function ReadReference(fmt: Format, fs: FileSystem, path: seq<Byte>, q: Request): Option<seq<Byte>>
    requires q.WantFile?
  {
    if q.wantPath && path != [] && q.dest && q.capacity > 0 then
      if path in fs then Some(fs[path][..Min(q.capacity, |fs[path]|)])
      else if fmt.V3? then None else Some([])
    else Some([])
  }

  function ReadPayload(fmt: Format, fs: FileSystem, s: seq<Byte>, pos: nat, q: Request): Option<(Reply, nat)>
    requires q.WantFile?
  {
    var n :- TakeLe(s, pos, 4);
    var path :- Take(s, pos + 4, n);
    var out := if q.wantPath && n > 0 then Some(path) else None;
    var has :- TakeLe(s, pos + 4 + n, 1);
    if has != 0 then
      var (b, p) :- ReadContent(fmt, s, pos + 5 + n, q.dest, q.capacity);
      Some((GotFile(b, out), p))
    else
      var b :- ReadReference(fmt, fs, path, q);
      Some((GotFile(b, out), pos + 5 + n))
  }

  function ReadFile(fmt: Format, fs: FileSystem, s: seq<Byte>, pos: nat, q: Request): Option<(Reply, nat)>
    requires q.WantFile?
  {
    if fmt.V3? then ReadPayload(fmt, fs, s, pos, q)
    else
      var _ :- TakeLe(s, pos, 8);
      var p :- SkipTag(s, pos + 8);
      ReadPayload(fmt, fs, s, p, q)
  }

  /** One read call; None means the handle's error flag was set. */
  function ReadRecord(fmt: Format, fs: FileSystem, s: seq<Byte>, pos: nat, q: Request): Option<(Reply, nat)> {
    match q
    case WantData(size) =>
      var (b, p) :- ReadData(fmt, s, pos, size);
      Some((GotData(b), p))
    case WantFile(_, _, _) => ReadFile(fmt, fs, s, pos, q)
  }

  function ReadAll(fmt: Format, fs: FileSystem, s: seq<Byte>, pos: nat, qs: seq<Request>): Option<(seq<Reply>, nat)>
    decreases |qs|
  {
    if qs == [] then Some(([], pos))
    else
      var (r, p) :- ReadRecord(fmt, fs, s, pos, qs[0]);
      var (more, q) :- ReadAll(fmt, fs, s, p, qs[1..]);
      Some(([r] + more, q))
  }

  // ---- what a reader should get -----------------------------------------

  /** The request the same schema issues for a record; file capacities are free. */
  predicate Asks(q: Request, r: Record) {
    match r
    case Data(b, _) => q == WantData(|b|)
    case File(_, _) => q.WantFile?
  }

  /** The path begins with "/opfs/", where files outlive the session. */
  predicate Persistent(path: seq<Byte>) {
    |path| >= 6 && forall i :: 0 <= i < 6 ==> path[i] == "/opfs/"[i] as int
  }

  /** A v3 checkpoint carries every named file that would not outlive the session; v2 all files unless told not to. */
  predicate Carried(fmt: Format, asRefs: bool, path: seq<Byte>) {
    match fmt
    case V3 => path != [] && !Persistent(path)
    case V2 => !asRefs
  }

  /** A carried file comes back as it was on writing, any other as it is on reading, if the path is asked for. */
  function Expected(fmt: Format, fs: FileSystem, fs': FileSystem, asRefs: bool, r: Record, q: Request): Reply
    requires Asks(q, r)
  {
    match r
    case Data(b, _) => GotData(b)
    case File(path, _) =>
      var c := if Carried(fmt, asRefs, path) then Contents(fs, path)
               else if q.wantPath then Contents(fs', path) else [];
      GotFile(if !q.dest then [] else if q.capacity < |c| then c[..q.capacity] else c,
              if q.wantPath && path != [] then Some(path) else None)
  }

  /** Names, lines and lengths fit the fields that store them. */
  predicate Fits(fs: FileSystem, r: Record) {
    && |r.tag.file| < 0x1_0000_0000 && r.tag.line < 0x1_0000_0000
    && match r
       case Data(b, _) => |b| < 0x1_0000_0000_0000_0000 && |Rle.Encode(b)| < 0x1_0000_0000_0000_0000
       case File(path, _) =>
         |path| < 0x1_0000_0000 && |Contents(fs, path)| < 0x1_0000_0000_0000_0000
  }

  /** Exactly the records a reader can get back with the files it finds. */
  predicate Readable(fmt: Format, fs': FileSystem, asRefs: bool, r: Record, q: Request)
    requires Asks(q, r)
  {
    match r
    case Data(b, _) =>
      if fmt.V3? then |b| < 0x1_0000_0000
      else |b| < RLE_THRESHOLD || |Rle.Encode(b)| <= MAX_ALLOC
    case File(path, _) =>
      || fmt.V2? || Carried(fmt, asRefs, path) || path == [] || path in fs'
      || !q.wantPath || !q.dest || q.capacity == 0
  }

  // ---- round trip -------------------------------------------------------

  /** b lies in s at pos. */
  predicate At(s: seq<Byte>, pos: nat, b: seq<Byte>) {
    pos + |b| <= |s| && s[pos..pos + |b|] == b
  }

  lemma AtSplit(s: seq<Byte>, pos: nat, a: seq<Byte>, b: seq<Byte>)
    requires At(s, pos, a + b)
    ensures At(s, pos, a) && At(s, pos + |a|, b)
  {
    assert s[pos..pos + |a|] == (a + b)[..|a|];
    assert s[pos + |a|..pos + |a| + |b|] == (a + b)[|a|..];
  }

  lemma AtTake(s: seq<Byte>, pos: nat, b: seq<Byte>)
    requires At(s, pos, b)
    ensures Take(s, pos, |b|) == Some(b)
  {
  }

  lemma AtLe(s: seq<Byte>, pos: nat, n: nat, k: nat)
    requires At(s, pos, LeBytes(n, k)) && n < Pow256(k)
    ensures TakeLe(s, pos, k) == Some(n)
  {
    hide At, Take, LeBytes, LeValue, Pow256;
    AtTake(s, pos, LeBytes(n, k));
    LeRoundTrip(n, k);
  }

  /** A field that is there can be read, and cannot hold more than fits in it. */
  lemma AtField(s: seq<Byte>, pos: nat, n: nat, k: nat)
    requires At(s, pos, LeBytes(n, k))
    ensures TakeLe(s, pos, k).Some? && (n >= Pow256(k) ==> TakeLe(s, pos, k).value != n)
  {
    hide At, Take, LeBytes, LeValue, Pow256;
    AtTake(s, pos, LeBytes(n, k));
    LeValueBound(LeBytes(n, k));
  }

  lemma AtByte(s: seq<Byte>, pos: nat, b: Byte)
    requires At(s, pos, [b])
    ensures TakeLe(s, pos, 1) == Some(b)
  {
    assert LeValue([b]) == b + 256 * LeValue([]);
  }

  lemma TagRoundTrip(s: seq<Byte>, pos: nat, t: Tag)
    requires At(s, pos, TagBytes(t))
    requires |t.file| < 0x1_0000_0000 && t.line < 0x1_0000_0000
    ensures SkipTag(s, pos) == Some(pos + |TagBytes(t)|)
  {
    Pow256Values();
    var n := LeBytes(|t.file|, 4);
    AtSplit(s, pos, n + t.file, LeBytes(t.line, 4));
    AtSplit(s, pos, n, t.file);
    AtLe(s, pos, |t.file|, 4);
    AtLe(s, pos + 4 + |t.file|, t.line, 4);
  }

  lemma BlockRoundTrip(s: seq<Byte>, pos: nat, b: seq<Byte>)
    requires At(s, pos, BlockBytes(b)) && |Rle.Encode(b)| < 0x1_0000_0000_0000_0000
    ensures ReadBlock(s, pos, |b|) ==
            if |b| < RLE_THRESHOLD || |Rle.Encode(b)| <= MAX_ALLOC
            then Some((b, pos + |BlockBytes(b)|)) else None
  {
    hide At, Take, TakeLe, LeBytes, LeValue, Rle.Encode, Rle.Decode;
    Pow256Values();
    if |b| < RLE_THRESHOLD {
      AtSplit(s, pos, [0], b);
      AtByte(s, pos, 0);
      AtTake(s, pos + 1, b);
    } else {
      var e := Rle.Encode(b);
      AtSplit(s, pos, [1] + LeBytes(|e|, 8), e);
      AtSplit(s, pos, [1], LeBytes(|e|, 8));
      AtByte(s, pos, 1);
      AtLe(s, pos + 1, |e|, 8);
      AtTake(s, pos + 9, e);
      Rle.RoundTrip(b, []);
      assert e + [] == e;
    }
  }

  lemma DataRoundTrip(fmt: Format, fs: FileSystem, s: seq<Byte>, pos: nat, b: seq<Byte>, t: Tag)
    requires At(s, pos, DataBytes(fmt, b, t)) && Fits(fs, Data(b, t))
    ensures ReadData(fmt, s, pos, |b|) ==
            if Readable(fmt, fs, false, Data(b, t), WantData(|b|))
            then Some((b, pos + |DataBytes(fmt, b, t)|)) else None
  {
    hide BlockBytes, ReadBlock, SkipTag, TagBytes, Rle.Encode, At, Take, TakeLe, LeBytes, Pow256;
    Pow256Values();
    if fmt.V3? {
      AtSplit(s, pos, LeBytes(|b|, 4), b);
      AtTake(s, pos + 4, b);
      AtField(s, pos, |b|, 4);
      if |b| < 0x1_0000_0000 {
        AtLe(s, pos, |b|, 4);
      }
    } else {
      AtSplit(s, pos, LeBytes(|b|, 8) + TagBytes(t), BlockBytes(b));
      AtSplit(s, pos, LeBytes(|b|, 8), TagBytes(t));
      AtLe(s, pos, |b|, 8);
      TagRoundTrip(s, pos + 8, t);
      BlockRoundTrip(s, pos + 8 + |TagBytes(t)|, b);
    }
  }

  lemma ContentRoundTrip(fmt: Format, s: seq<Byte>, pos: nat, c: seq<Byte>, dest: bool, capacity: nat)
    requires At(s, pos, LeBytes(|c|, 8) + c) && |c| < 0x1_0000_0000_0000_0000
    ensures ReadContent(fmt, s, pos, dest, capacity)
         == Some((c[..Loadable(dest, capacity, |c|)], pos + 8 + |c|))
  {
    hide At, Take, TakeLe, LeBytes, LeValue;
    Pow256Values();
    AtSplit(s, pos, LeBytes(|c|, 8), c);
    AtLe(s, pos, |c|, 8);
    AtTake(s, pos + 8, c);
    var k := Loadable(dest, capacity, |c|);
    assert c == c[..k] + c[k..];
    AtSplit(s, pos + 8, c[..k], c[k..]);
    AtTake(s, pos + 8, c[..k]);
    assert c[..k][..k] == c[..k];
  }

  lemma Whole(c: seq<Byte>)
    ensures c[..|c|] == c && c[..0] == []
  {
  }

  lemma EmbedsCarried(fmt: Format, asRefs: bool, path: seq<Byte>)
    ensures Embeds(fmt, asRefs, path) == Carried(fmt, asRefs, path)
  {
    var p := PERSISTENT_PREFIX;
    assert Persistent(path) ==> path[..6] == p;
  }

  lemma PayloadRoundTrip(
    fmt: Format, fs: FileSystem, fs': FileSystem, asRefs: bool, s: seq<Byte>, pos: nat, r: Record, q: Request)
    requires r.File? && q.WantFile? && Fits(fs, r)
    requires At(s, pos, PayloadBytes(r.path, Embeds(fmt, asRefs, r.path), Contents(fs, r.path)))
    ensures ReadPayload(fmt, fs', s, pos, q) ==
            if Readable(fmt, fs', asRefs, r, q)
            then Some((Expected(fmt, fs, fs', asRefs, r, q),
                       pos + |PayloadBytes(r.path, Embeds(fmt, asRefs, r.path), Contents(fs, r.path))|))
            else None
  {
    hide At, Take, TakeLe, LeBytes, LeValue, ReadContent, Carried, Embeds;
    Pow256Values();
    EmbedsCarried(fmt, asRefs, r.path);
    Whole(Contents(fs, r.path));
    Whole(Contents(fs', r.path));
    var path, c, n := r.path, Contents(fs, r.path), |r.path|;
    var embeds := Embeds(fmt, asRefs, path);
    var tail := if embeds then [1] + LeBytes(|c|, 8) + c else [0];
    AtSplit(s, pos, LeBytes(n, 4) + path, tail);
    AtSplit(s, pos, LeBytes(n, 4), path);
    AtLe(s, pos, n, 4);
    AtTake(s, pos + 4, path);
    if embeds {
      assert tail == [1] + (LeBytes(|c|, 8) + c);
      AtSplit(s, pos + 4 + n, [1], LeBytes(|c|, 8) + c);
      AtByte(s, pos + 4 + n, 1);
      ContentRoundTrip(fmt, s, pos + 5 + n, c, q.dest, q.capacity);
    } else {
      AtByte(s, pos + 4 + n, 0);
    }
  }

  lemma RecordRoundTrip(
    fmt: Format, fs: FileSystem, fs': FileSystem, asRefs: bool, s: seq<Byte>, pos: nat, r: Record, q: Request)
    requires Asks(q, r) && Fits(fs, r) && At(s, pos, RecordBytes(fmt, fs, asRefs, r))
    ensures ReadRecord(fmt, fs', s, pos, q) ==
            if Readable(fmt, fs', asRefs, r, q)
            then Some((Expected(fmt, fs, fs', asRefs, r, q), pos + |RecordBytes(fmt, fs, asRefs, r)|)) else None
  {
    hide PayloadBytes, ReadPayload, DataBytes, ReadData, SkipTag, TagBytes, LeBytes, LeValue, At, TakeLe, Embeds,
         Carried, Pow256, Rle.Encode, Expected, Readable;
    ExpectedData(fmt, fs, fs', asRefs, r, q);
    match r
    case Data(b, t) =>
      DataRoundTrip(fmt, fs, s, pos, b, t);
    case File(path, t) =>
      var payload := PayloadBytes(path, Embeds(fmt, asRefs, path), Contents(fs, path));
      if fmt.V3? {
        PayloadRoundTrip(fmt, fs, fs', asRefs, s, pos, r, q);
      } else {
        AtSplit(s, pos, LeBytes(|payload|, 8) + TagBytes(t), payload);
        AtSplit(s, pos, LeBytes(|payload|, 8), TagBytes(t));
        AtField(s, pos, |payload|, 8);
        TagRoundTrip(s, pos + 8, t);
        PayloadRoundTrip(fmt, fs, fs', asRefs, s, pos + 8 + |TagBytes(t)|, r, q);
      }
  }

  lemma ExpectedData(fmt: Format, fs: FileSystem, fs': FileSystem, asRefs: bool, r: Record, q: Request)
    requires Asks(q, r)
    ensures r.Data? ==>
              && Expected(fmt, fs, fs', asRefs, r, q) == GotData(r.bytes)
              && Readable(fmt, fs', asRefs, r, q) == Readable(fmt, fs, false, r, q)
  {
    hide Rle.Encode;
  }

  /** Bytes a file adds to the stream: its contents only if they are carried, and a v2 header before it. */
  lemma FileSize(fmt: Format, fs: FileSystem, asRefs: bool, path: seq<Byte>, t: Tag)
    ensures |FileBytes(fmt, fs, asRefs, path, t)| ==
            (if fmt.V2? then 16 + |t.file| else 0) + 5 + |path|
            + if Carried(fmt, asRefs, path) then 8 + |Contents(fs, path)| else 0
  {
    hide LeBytes;
    EmbedsCarried(fmt, asRefs, path);
  }

  /**
  A named file read whole is what it was when the checkpoint was written,
  whatever is found on reading, if and only if the checkpoint carries it.
  */
  lemma CarriedExactly(fmt: Format, fs: FileSystem, asRefs: bool, s: seq<Byte>, pos: nat, r: Record, capacity: nat)
    requires r.File? && r.path != [] && Fits(fs, r) && At(s, pos, RecordBytes(fmt, fs, asRefs, r))
    requires capacity > |Contents(fs, r.path)|
    ensures (forall fs' :: ReadsAs(fmt, fs', s, pos, capacity, Contents(fs, r.path)))
       <==> (if fmt.V3? then !Persistent(r.path) else !asRefs)
  {
    hide RecordBytes, ReadRecord, Fits, At;
    var (c, q) := (Contents(fs, r.path), WantFile(true, capacity, true));
    var other: FileSystem := map[r.path := c + [0]];
    RecordRoundTrip(fmt, fs, other, asRefs, s, pos, r, q);
    assert Contents(other, r.path) == c + [0];
    if Carried(fmt, asRefs, r.path) {
      forall fs' ensures ReadsAs(fmt, fs', s, pos, capacity, c) {
        RecordRoundTrip(fmt, fs, fs', asRefs, s, pos, r, q);
      }
    } else {
      assert !ReadsAs(fmt, other, s, pos, capacity, c);
    }
  }

  /** A file request of that capacity at pos yields these bytes. */
  predicate ReadsAs(fmt: Format, fs': FileSystem, s: seq<Byte>, pos: nat, capacity: nat, c: seq<Byte>) {
    var r := ReadRecord(fmt, fs', s, pos, WantFile(true, capacity, true));
    r.Some? && r.value.0.GotFile? && r.value.0.loaded == c
  }

  function ExpectedAll(
    fmt: Format, fs: FileSystem, fs': FileSystem, asRefs: bool, rs: seq<Record>, qs: seq<Request>): seq<Reply>
    requires |rs| == |qs| && forall i :: 0 <= i < |rs| ==> Asks(qs[i], rs[i])
  {
    if rs == [] then []
    else [Expected(fmt, fs, fs', asRefs, rs[0], qs[0])] + ExpectedAll(fmt, fs, fs', asRefs, rs[1..], qs[1..])
  }

  /**
  Reading back a whole stream succeeds exactly when every record is readable;
  it then yields every block and file and ends on the byte after the stream.
  */
  lemma {:induction false} StreamRoundTrip(
    fmt: Format, fs: FileSystem, fs': FileSystem, asRefs: bool, s: seq<Byte>, pos: nat, rs: seq<Record>,
    qs: seq<Request>)
    requires |rs| == |qs| && forall i :: 0 <= i < |rs| ==> Asks(qs[i], rs[i]) && Fits(fs, rs[i])
    requires At(s, pos, StreamBytes(fmt, fs, asRefs, rs))
    ensures ReadAll(fmt, fs', s, pos, qs) ==
            if forall i :: 0 <= i < |rs| ==> Readable(fmt, fs', asRefs, rs[i], qs[i])
            then Some((ExpectedAll(fmt, fs, fs', asRefs, rs, qs), pos + |StreamBytes(fmt, fs, asRefs, rs)|))
            else None
    decreases |rs|
  {
    hide Readable, Expected, RecordBytes, ReadRecord, Fits;
    if rs != [] {
      var b := RecordBytes(fmt, fs, asRefs, rs[0]);
      AtSplit(s, pos, b, StreamBytes(fmt, fs, asRefs, rs[1..]));
      RecordRoundTrip(fmt, fs, fs', asRefs, s, pos, rs[0], qs[0]);
      StreamRoundTrip(fmt, fs, fs', asRefs, s, pos + |b|, rs[1..], qs[1..]);
      var rest, asks := rs[1..], qs[1..];
      assert forall i {:trigger rest[i]} :: 0 <= i < |rest| ==> rest[i] == rs[i + 1] && asks[i] == qs[i + 1];
      if forall i :: 0 <= i < |rs| ==> Readable(fmt, fs', asRefs, rs[i], qs[i]) {
        assert forall i :: 0 <= i < |rest| ==> Readable(fmt, fs', asRefs, rest[i], asks[i]);
      } else {
        var i :| 0 <= i < |rs| && !Readable(fmt, fs', asRefs, rs[i], qs[i]);
        assert i > 0 ==> rs[i] == rest[i - 1] && qs[i] == asks[i - 1];
      }
    }
  }

  // ---- block size limit -------------------------------------------------

  /** A v2 block takes one byte more than its data below 64 bytes; from there on a run of any length takes 15. */
  lemma BlockSize(b: seq<Byte>)
    ensures |b| < 64 ==> |BlockBytes(b)| == |b| + 1
    ensures 64 <= |b| <= 0xFFFF_FFFF && (forall i :: 0 <= i < |b| ==> b[i] == b[0]) ==> |BlockBytes(b)| == 15
  {
    hide Rle.Encode;
    if 64 <= |b| <= 0xFFFF_FFFF && forall i :: 0 <= i < |b| ==> b[i] == b[0] {
      assert b == seq(|b|, _ => b[0]);
      Rle.RunForm(b[0], |b|);
    }
  }


  /** Every block of at most 111,848,105 bytes survives the reader's 256 MiB check. */
  lemma SmallBlocksReadable(fs: FileSystem, fmt: Format, b: seq<Byte>, t: Tag)
    requires |b| <= 111_848_105
    ensures Readable(fmt, fs, false, Data(b, t), WantData(|b|))
  {
    Rle.ExpansionBound(b);
  }

  /** One byte more and there is a block that is written but cannot be read back. */
  lemma NextSizeHasUnreadableBlock(fs: FileSystem, t: Tag)
    ensures var b := Rle.Alternating(22_369_621);
            |b| == 111_848_106 && !Readable(V2, fs, false, Data(b, t), WantData(|b|))
  {
    Rle.BoundTight(22_369_621);
  }
}
