/** The streaming bitrot writer and the seeking, verifying reader. */
module BitrotStreaming {
  import opened Base
  import opened BitrotFormat

  // What a sink that will take `room` more bytes keeps of a write.
  function Taken(data: Bytes, room: nat): (t: Bytes)
    ensures |t| == Min(room, |data|) && t <= data
    ensures |data| <= room ==> t == data
  {
    data[..Min(room, |data|)]
  }

  lemma FrameTaken(h: Hash, p: Bytes, room: nat)
    requires h.Valid()
    ensures |Frame(h, p)| == h.size + |p|
    ensures Taken(Frame(h, p), room) == Taken(h.sum(p), room) + Taken(p, room - |Taken(h.sum(p), room)|)
  {}

  /** streamingBitrotWriter over a sink that may fail: it accepts `room` more
      bytes and then reports an error. */
  class StreamingWriter {
    const h: Hash
    const shardSize: int
    var sink: Bytes
    var room: nat
    var fed: Bytes              // what the hash has been given since its Reset
    var closedWithError: bool

    constructor (h: Hash, shardSize: int, room: nat)
      ensures this.h == h && this.shardSize == shardSize
      ensures sink == [] && this.room == room && !closedWithError
    {
      this.h, this.shardSize, this.room := h, shardSize, room;
      sink, fed, closedWithError := [], [], false;
    }

    method WriteSink(p: Bytes) returns (n: nat, failed: bool)
      modifies this`sink, this`room
      ensures sink == old(sink) + Taken(p, old(room))
      ensures n == |Taken(p, old(room))| && room == old(room) - n
      ensures failed <==> n < |p|
    {
      n := Min(room, |p|);
      sink := sink + p[..n];
      room := room - n;
      failed := n < |p|;
    }

    /** A chunk goes out as one frame; the sink never holds anything but a
        prefix of the frame, and the count returned is the part of the chunk
        itself that went out. */
    method Write(p: Bytes) returns (n: nat, failed: bool)
      requires h.Valid()
      modifies this
      ensures p == [] ==> n == 0 && !failed && sink == old(sink) && room == old(room)
      ensures p != [] ==>
        && sink == old(sink) + Taken(Frame(h, p), old(room))
        && room == old(room) - |Taken(Frame(h, p), old(room))|
        && (failed <==> old(room) < |Frame(h, p)|)
        && n == (if old(room) < h.size then 0 else Min(old(room) - h.size, |p|))
      ensures closedWithError == (old(closedWithError) || failed)
    {
      hide Taken, Frame;
      if |p| == 0 {
        return 0, false;
      }
      fed := [];
      fed := fed + p;
      assert fed == p;
      var hashBytes := h.sum(fed);
      FrameTaken(h, p, room);
      ghost var before := sink;
      var k, f := WriteSink(hashBytes);
      if f {
        closedWithError := true;
        return 0, true;
      }
      ghost var left := room;
      k, f := WriteSink(p);
      assert sink == before + (hashBytes + Taken(p, left));
      if f {
        closedWithError := true;
      }
      return k, f;
    }
  }

  // What a run of Write calls leaves in the sink.
  function Session(h: Hash, chunks: seq<Bytes>, room: nat): Bytes {
    if chunks == [] then []
    else
      var got := Taken(Frame(h, chunks[0]), room);
      got + Session(h, chunks[1..], room - |got|)
  }

  lemma {:induction false} SessionTaken(h: Hash, chunks: seq<Bytes>, room: nat)
    ensures Session(h, chunks, room) == Taken(Frames(h, chunks), room)
    decreases |chunks|
  {
    if chunks != [] {
      var f := Frame(h, chunks[0]);
      var got := Taken(f, room);
      SessionTaken(h, chunks[1..], room - |got|);
      if room < |f| {
        assert Taken(f + Frames(h, chunks[1..]), room) == f[..room];
      } else {
        assert Taken(f + Frames(h, chunks[1..]), room) == f + Taken(Frames(h, chunks[1..]), room - |f|);
      }
    }
  }

  /** Whenever the sink fails, what it holds is a prefix of the payload's
      stored form; it is the whole of it exactly when there was room. */
  lemma WrittenIsPrefix(h: Hash, s: int, chunks: seq<Bytes>, room: nat)
    requires s > 0 && h.Valid() && InShards(chunks, s)
    ensures Session(h, chunks, room) <= Encode(h, s, Flatten(chunks))
    ensures Session(h, chunks, room) == Encode(h, s, Flatten(chunks))
       <==> |Encode(h, s, Flatten(chunks))| <= room
  {
    SessionTaken(h, chunks, room);
    FramesEncode(h, s, chunks);
  }

  /** The size newStreamingBitrotWriter announces to CreateFile. */
  function AnnouncedSize(length: int, shardSize: int, h: Hash): int {
    if length != -1 then CeilFrac(length, shardSize) * h.size + length else -1
  }

  /** A complete session writes exactly the announced number of bytes, which
      is bitrotShardFileSize of the payload. */
  lemma WrittenLength(h: Hash, s: int, chunks: seq<Bytes>, room: nat)
    requires s > 0 && h.Valid() && InShards(chunks, s)
    requires |Encode(h, s, Flatten(chunks))| <= room
    ensures |Session(h, chunks, room)| == AnnouncedSize(|Flatten(chunks)|, s, h)
         == ShardFileSize(|Flatten(chunks)|, s, HighwayHash256S, h)
  {
    WrittenIsPrefix(h, s, chunks, room);
    EncodedLength(h, s, Flatten(chunks));
  }

  // ----- the reader -----

  datatype ReadError = ErrUnexpected | ErrDisk | ErrRead | ErrFileCorrupt

  // newStreamingBitrotReader's arguments that matter here; tillOffset is
  // already the stored offset.
  datatype ReaderConfig = ReaderConfig(h: Hash, shardSize: int, data: Bytes, tillOffset: int) {
    ghost predicate Valid() { h.Valid() && shardSize > 0 }
  }

  // rc is what is left of the opened stream, if one is open.
  datatype ReaderState = ReaderState(rc: Option<Bytes>, currOffset: int)

  // io.SectionReader and io.LimitReader over a seeked file: at most n bytes
  // from off, and nothing at all for a nonsensical range.
  function Section(file: Bytes, off: int, n: int): Bytes {
    if off < 0 || n <= 0 || off >= |file| then []
    else file[off..Min(off + n, |file|)]
  }

  function StreamOffset(offset: int, shardSize: int, h: Hash): int
    requires shardSize > 0
  {
    GoDiv(offset, shardSize) * h.size + offset
  }

  // The opening of the stream by the first call; `disk` is the file's
  // content, or None when the disk refuses.
  function OpenAt(cfg: ReaderConfig, offset: int, streamOffset: int, disk: Option<Bytes>): ReaderState {
    if |cfg.data| == 0 && cfg.tillOffset != streamOffset then
      if streamOffset < 0 || disk.None? then ReaderState(None, offset)
      else ReaderState(Some(Section(disk.value, streamOffset, cfg.tillOffset - streamOffset)), offset)
    else ReaderState(Some(Section(cfg.data, streamOffset, cfg.tillOffset - streamOffset)), offset)
  }

  function OpenStream(cfg: ReaderConfig, st: ReaderState, offset: int, disk: Option<Bytes>): ReaderState
    requires cfg.shardSize > 0
  {
    if st.rc.Some? then st
    else OpenAt(cfg, offset, StreamOffset(offset, cfg.shardSize, cfg.h), disk)
  }

  // The reading and checking of one chunk of n bytes from an open stream.
  function ReadChunk(cfg: ReaderConfig, st: ReaderState, n: nat, offset: int)
    : (ReaderState, Result<Bytes, ReadError>)
    requires st.rc.Some?
  {
    var s := st.rc.value;
    if offset != st.currOffset then (st, Err(ErrUnexpected))
    else if |s| < cfg.h.size then (st.(rc := Some([])), Err(ErrRead))
    else if |s| < cfg.h.size + n then (st.(rc := Some([])), Err(ErrRead))
    else
      var digest, buf := s[..cfg.h.size], s[cfg.h.size..cfg.h.size + n];
      var left := st.(rc := Some(s[cfg.h.size + n..]));
      if cfg.h.sum(buf) != digest then (left, Err(ErrFileCorrupt))
      else (left.(currOffset := st.currOffset + n), Ok(buf))
  }

  function ReadStep(cfg: ReaderConfig, st: ReaderState, n: nat, offset: int, disk: Option<Bytes>)
    : (ReaderState, Result<Bytes, ReadError>)
    requires cfg.shardSize > 0
  {
    if GoMod(offset, cfg.shardSize) != 0 then (st, Err(ErrUnexpected))
    else
      var live := OpenStream(cfg, st, offset, disk);
      if live.rc.None? then (live, Err(ErrDisk))
      else ReadChunk(cfg, live, n, offset)
  }

  class StreamingReader {
    const cfg: ReaderConfig
    var rc: Option<Bytes>
    var currOffset: int
    var fed: Bytes
    var hashBytes: Bytes

    constructor (h: Hash, shardSize: int, data: Bytes, tillOffset: int)
      ensures cfg == NewConfig(h, shardSize, data, tillOffset)
      ensures State() == ReaderState(None, 0)
    {
      cfg := NewConfig(h, shardSize, data, tillOffset);
      rc, currOffset, fed, hashBytes := None, 0, [], [];
    }

    function State(): ReaderState
      reads this
    {
      ReaderState(rc, currOffset)
    }

    // io.ReadFull on the open stream.
    method ReadFull(n: nat) returns (got: Bytes, failed: bool)
      requires rc.Some?
      modifies this`rc
      ensures rc.Some?
      ensures failed <==> |old(rc).value| < n
      ensures !failed ==> got == old(rc).value[..n] && rc.value == old(rc).value[n..]
      ensures failed ==> got == old(rc).value && rc.value == []
    {
      var k := Min(n, |rc.value|);
      got, failed := rc.value[..k], k < n;
      rc := Some(rc.value[k..]);
    }

    /** The first call opens the stream at the stored offset. */
    method Open(offset: int, streamOffset: int, disk: Option<Bytes>) returns (failed: bool)
      requires rc.None?
      modifies this`rc, this`currOffset
      ensures State() == OpenAt(cfg, offset, streamOffset, disk)
      ensures failed <==> rc.None?
    {
      currOffset := offset;
      if |cfg.data| == 0 && cfg.tillOffset != streamOffset {
        if streamOffset < 0 || disk.None? {
          return true;
        }
        rc := Some(Section(disk.value, streamOffset, cfg.tillOffset - streamOffset));
      } else {
        rc := Some(Section(cfg.data, streamOffset, cfg.tillOffset - streamOffset));
      }
      failed := false;
    }

    /** The digest and then the chunk are read, and compared. */
    method ReadOpenStream(buf: array<byte>, offset: int) returns (r: Result<nat, ReadError>)
      requires cfg.h.Valid() && rc.Some?
      modifies this, buf
      ensures var (st, out) := ReadChunk(cfg, old(State()), buf.Length, offset);
        && State() == st
        && (out.Ok? ==> r == Ok(buf.Length) && buf[..] == out.value)
        && (out.Err? ==> r == Err(out.error))
    {
      if offset != currOffset {
        return Err(ErrUnexpected);
      }
      ghost var s := rc.value;
      fed := [];
      var failed;
      hashBytes, failed := ReadFull(cfg.h.size);
      if failed {
        return Err(ErrRead);
      }
      var got;
      got, failed := ReadFull(buf.Length);
      forall i | 0 <= i < |got| {
        buf[i] := got[i];
      }
      if failed {
        return Err(ErrRead);
      }
      assert got == s[cfg.h.size..cfg.h.size + buf.Length];
      assert buf[..] == got;
      fed := fed + buf[..];
      assert fed == got;
      if cfg.h.sum(fed) != hashBytes {
        return Err(ErrFileCorrupt);
      }
      currOffset := currOffset + buf.Length;
      return Ok(buf.Length);
    }

    /** ReadAt fills buf with the next chunk or reports why not. */
    method ReadAt(buf: array<byte>, offset: int, disk: Option<Bytes>) returns (r: Result<nat, ReadError>)
      requires cfg.Valid()
      modifies this, buf
      ensures var (st, out) := ReadStep(cfg, old(State()), buf.Length, offset, disk);
        && State() == st
        && (out.Ok? ==> r == Ok(buf.Length) && buf[..] == out.value)
        && (out.Err? ==> r == Err(out.error))
      ensures GoMod(offset, cfg.shardSize) != 0 ==> r == Err(ErrUnexpected) && State() == old(State())
      ensures GoMod(offset, cfg.shardSize) == 0 && old(rc).Some? ==>
        if offset != old(currOffset) then r == Err(ErrUnexpected) && State() == old(State())
        else if |old(rc).value| < cfg.h.size + buf.Length then r == Err(ErrRead)
        else if cfg.h.sum(old(rc).value[cfg.h.size..cfg.h.size + buf.Length]) != old(rc).value[..cfg.h.size]
        then r == Err(ErrFileCorrupt)
        else
          && r == Ok(buf.Length)
          && State() == ReaderState(Some(old(rc).value[cfg.h.size + buf.Length..]), offset + buf.Length)
    {
      if GoMod(offset, cfg.shardSize) != 0 {
        return Err(ErrUnexpected);
      }
      if rc.None? {
        var failed := Open(offset, StreamOffset(offset, cfg.shardSize, cfg.h), disk);
        if failed {
          return Err(ErrDisk);
        }
      }
      r := ReadOpenStream(buf, offset);
    }
  }

  function NewConfig(h: Hash, shardSize: int, data: Bytes, tillOffset: int): ReaderConfig {
    ReaderConfig(h, shardSize, data, CeilFrac(tillOffset, shardSize) * h.size + tillOffset)
  }

  // ----- what a single call can and cannot return -----

  /** Data comes back only for an aligned offset that continues the previous
      read (or opens the stream), and only if it stands in the stream right
      behind its own digest. */
  lemma OnlyIntactData(cfg: ReaderConfig, st: ReaderState, n: nat, offset: int, disk: Option<Bytes>)
    requires cfg.Valid()
    requires ReadStep(cfg, st, n, offset, disk).1.Ok?
    ensures GoMod(offset, cfg.shardSize) == 0
    ensures st.rc.Some? ==> offset == st.currOffset
    ensures var (st', out) := ReadStep(cfg, st, n, offset, disk);
      var live := OpenStream(cfg, st, offset, disk);
      && |out.value| == n && live.rc.Some? && st'.rc.Some?
      && live.rc.value == Frame(cfg.h, out.value) + st'.rc.value
      && st'.currOffset == offset + n
  {}

  /** A chunk changed under an intact digest is reported as corrupt, unless
      the two chunks collide. */
  lemma ChangedChunkRejected(cfg: ReaderConfig, offset: int, disk: Option<Bytes>, good: Bytes, bad: Bytes, tail: Bytes)
    requires cfg.Valid() && GoMod(offset, cfg.shardSize) == 0
    requires cfg.h.sum(good) != cfg.h.sum(bad)
    ensures ReadStep(cfg, ReaderState(Some(cfg.h.sum(good) + bad + tail), offset), |bad|, offset, disk).1
         == Err(ErrFileCorrupt)
  {
    var s := cfg.h.sum(good) + bad + tail;
    assert s[..cfg.h.size] == cfg.h.sum(good);
    assert s[cfg.h.size..cfg.h.size + |bad|] == bad;
  }

  // ----- consecutive reads -----

  /** Reading shard after shard up to `till`, as the decoder does. */
  function ReadShards(cfg: ReaderConfig, st: ReaderState, offset: nat, till: nat, disk: Option<Bytes>): Option<Bytes>
    requires cfg.shardSize > 0
    decreases till - offset
  {
    if till <= offset then Some([])
    else
      var n := Min(cfg.shardSize, till - offset);
      var (st', out) := ReadStep(cfg, st, n, offset, disk);
      if out.Err? then None
      else
        match ReadShards(cfg, st', offset + n, till, disk)
        case None => None
        case Some(rest) => Some(out.value + rest)
  }

  // One intact frame at the head of the stream is read and checked.
  lemma ReadIntactFrame(cfg: ReaderConfig, chunk: Bytes, tail: Bytes, offset: nat, disk: Option<Bytes>)
    requires cfg.Valid() && GoMod(offset, cfg.shardSize) == 0
    ensures ReadStep(cfg, ReaderState(Some(Frame(cfg.h, chunk) + tail), offset), |chunk|, offset, disk)
         == (ReaderState(Some(tail), offset + |chunk|), Ok(chunk))
  {
    var e := Frame(cfg.h, chunk) + tail;
    assert e[..cfg.h.size] == cfg.h.sum(chunk);
    assert e[cfg.h.size..cfg.h.size + |chunk|] == chunk;
    assert e[cfg.h.size + |chunk|..] == tail;
  }

  // One turn of ReadShards over an intact frame.
  lemma ReadShardsTurn(cfg: ReaderConfig, chunk: Bytes, tail: Bytes, offset: nat, till: nat, disk: Option<Bytes>)
    requires cfg.Valid() && GoMod(offset, cfg.shardSize) == 0
    requires offset < till && |chunk| == Min(cfg.shardSize, till - offset)
    ensures ReadShards(cfg, ReaderState(Some(Frame(cfg.h, chunk) + tail), offset), offset, till, disk)
         == match ReadShards(cfg, ReaderState(Some(tail), offset + |chunk|), offset + |chunk|, till, disk)
            case None => None
            case Some(rest) => Some(chunk + rest)
  {
    hide ReadStep, Frame, GoMod;
    ReadIntactFrame(cfg, chunk, tail, offset, disk);
  }

  lemma {:induction false} ReadShardsOpen(cfg: ReaderConfig, offset: nat, payload: Bytes, disk: Option<Bytes>)
    requires cfg.Valid() && (payload == [] || GoMod(offset, cfg.shardSize) == 0)
    ensures ReadShards(cfg, ReaderState(Some(Encode(cfg.h, cfg.shardSize, payload)), offset),
                       offset, offset + |payload|, disk)
         == Some(payload)
    decreases |payload|
  {
    hide ReadStep, Frame, GoMod;
    if payload != [] {
      var s := cfg.shardSize;
      var n := Min(s, |payload|);
      var chunk, rest := payload[..n], payload[n..];
      assert chunk + rest == payload;
      EncodeFrame(cfg.h, s, chunk, rest);
      if rest != [] {
        AlignedNext(offset, s);
      }
      ReadShardsOpen(cfg, offset + n, rest, disk);
      ReadShardsTurn(cfg, chunk, Encode(cfg.h, s, rest), offset, offset + |payload|, disk);
    }
  }

  lemma AlignedNext(offset: nat, s: int)
    requires s > 0 && GoMod(offset, s) == 0
    ensures GoMod(offset + s, s) == 0
  {
    DivAddOne(offset, s);
  }

  lemma StreamOffsetIsStoredLength(offset: nat, s: int, h: Hash)
    requires s > 0 && GoMod(offset, s) == 0
    ensures StreamOffset(offset, s, h) == ShardFileSize(offset, s, HighwayHash256S, h)
  {
    CeilNonPositive(0, s);
  }

  lemma EncodeInThree(h: Hash, s: int, a: Bytes, b: Bytes, c: Bytes)
    requires s > 0 && h.Valid()
    requires |a| % s == 0 && (c == [] || |a + b| % s == 0)
    ensures Encode(h, s, a + b) == Encode(h, s, a) + Encode(h, s, b)
    ensures Encode(h, s, a + b + c) == Encode(h, s, a) + Encode(h, s, b) + Encode(h, s, c)
  {
    EncodeAppend(h, s, a, b);
    if c == [] {
      assert a + b + c == a + b;
    } else {
      EncodeAppend(h, s, a + b, c);
    }
  }

  /** The reader's own offset arithmetic selects exactly the stored form of
      the requested range of the payload. */
  lemma SectionOfEncoding(h: Hash, s: int, payload: Bytes, start: nat, till: nat)
    requires s > 0 && h.Valid()
    requires start < till <= |payload| && GoMod(start, s) == 0
    requires till == |payload| || GoMod(till, s) == 0
    ensures var so := StreamOffset(start, s, h);
      var to := CeilFrac(till, s) * h.size + till;
      && 0 <= so < to
      && Section(Encode(h, s, payload), so, to - so) == Encode(h, s, payload[start..till])
  {
    var a, b, c := payload[..start], payload[start..till], payload[till..];
    assert payload == a + b + c && a + b == payload[..till];
    EncodeInThree(h, s, a, b, c);
    StreamOffsetIsStoredLength(start, s, h);
    EncodedLength(h, s, a);
    EncodedLength(h, s, a + b);
    EncodeEmptyOnlyForEmpty(h, s, b);
    MiddleSection(Encode(h, s, a), Encode(h, s, b), Encode(h, s, c));
  }

  lemma MiddleSection(x: Bytes, y: Bytes, z: Bytes)
    requires y != []
    ensures Section(x + y + z, |x|, |y|) == y
  {}

  // A reader over a payload's stored form, on disk or inline.
  function ReaderFor(h: Hash, s: int, payload: Bytes, till: nat, inlined: bool): ReaderConfig
    requires s > 0
  {
    NewConfig(h, s, if inlined then Encode(h, s, payload) else [], till)
  }

  function DiskFor(h: Hash, s: int, payload: Bytes, inlined: bool): Option<Bytes>
    requires s > 0
  {
    if inlined then None else Some(Encode(h, s, payload))
  }

  lemma OpensAtRange(h: Hash, s: int, payload: Bytes, start: nat, till: nat, inlined: bool)
    requires s > 0 && h.Valid()
    requires start < till <= |payload| && GoMod(start, s) == 0
    requires till == |payload| || GoMod(till, s) == 0
    ensures OpenStream(ReaderFor(h, s, payload, till, inlined), ReaderState(None, 0), start,
                       DiskFor(h, s, payload, inlined))
         == ReaderState(Some(Encode(h, s, payload[start..till])), start)
  {
    SectionOfEncoding(h, s, payload, start, till);
    EncodeEmptyOnlyForEmpty(h, s, payload);
  }

  /** Opening at any aligned offset and reading on to `till` returns exactly
      that slice of the payload, from disk or from inline data. */
  lemma ConsecutiveReads(h: Hash, s: int, payload: Bytes, start: nat, till: nat, inlined: bool)
    requires s > 0 && h.Valid()
    requires start <= till <= |payload| && GoMod(start, s) == 0
    requires till == |payload| || GoMod(till, s) == 0
    ensures ReadShards(ReaderFor(h, s, payload, till, inlined), ReaderState(None, 0), start, till,
                       DiskFor(h, s, payload, inlined))
         == Some(payload[start..till])
  {
    if start < till {
      var cfg, disk := ReaderFor(h, s, payload, till, inlined), DiskFor(h, s, payload, inlined);
      OpensAtRange(h, s, payload, start, till, inlined);
      OpenedBehavesAlike(cfg, ReaderState(None, 0), start, till, disk);
      ReadShardsOpen(cfg, start, payload[start..till], disk);
    } else {
      assert payload[start..till] == [];
    }
  }

  lemma OpenedBehavesAlike(cfg: ReaderConfig, st: ReaderState, offset: nat, till: nat, disk: Option<Bytes>)
    requires cfg.Valid() && OpenStream(cfg, st, offset, disk).rc.Some?
    ensures ReadShards(cfg, st, offset, till, disk)
         == ReadShards(cfg, OpenStream(cfg, st, offset, disk), offset, till, disk)
  {}

  /** The converse, for whatever bytes are on disk: a run of reads that all
      succeed has returned a payload whose stored form is what was read. */
  lemma {:induction false} ReadsAreSound(
      cfg: ReaderConfig, st: ReaderState, offset: nat, till: nat, disk: Option<Bytes>)
    requires cfg.Valid() && st.rc.Some? && offset < till
    requires ReadShards(cfg, st, offset, till, disk).Some?
    ensures var d := ReadShards(cfg, st, offset, till, disk).value;
      && |d| == till - offset
      && Encode(cfg.h, cfg.shardSize, d) <= st.rc.value
    decreases till - offset
  {
    var n := Min(cfg.shardSize, till - offset);
    var (st', out) := ReadStep(cfg, st, n, offset, disk);
    var d := ReadShards(cfg, st, offset, till, disk).value;
    OnlyIntactData(cfg, st, n, offset, disk);
    if offset + n < till {
      ReadsAreSound(cfg, st', offset + n, till, disk);
      var rest := ReadShards(cfg, st', offset + n, till, disk).value;
      assert d[..n] == out.value && d[n..] == rest;
    } else {
      assert d[..n] == out.value && d[n..] == [];
    }
  }
}
