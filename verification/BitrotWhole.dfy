/** Whole-file bitrot protection: one digest kept beside the file. */
module BitrotWhole {
  import opened Base
  import opened BitrotFormat
  import V = BitrotVerify

  /** wholeBitrotWriter over a disk whose AppendFile may fail part way. */
  class WholeWriter {
    const h: Hash
    var file: Bytes
    var fed: Bytes

    constructor (h: Hash)
      ensures this.h == h && file == [] && fed == []
    {
      this.h, file, fed := h, [], [];
    }

    /** The file and the hash advance together, except past a failed append,
        whose bytes the hash never sees. */
    method Write(p: Bytes, accepted: nat) returns (n: nat, failed: bool)
      modifies this
      ensures failed <==> accepted < |p|
      ensures file == old(file) + p[..Min(accepted, |p|)]
      ensures !failed ==> n == |p| && fed == old(fed) + p
      ensures failed ==> n == 0 && fed == old(fed)
    {
      file := file + p[..Min(accepted, |p|)];
      if accepted < |p| {
        return 0, true;
      }
      fed := fed + p;
      return |p|, false;
    }

    method Sum() returns (digest: Bytes)
      ensures digest == h.sum(fed)
    {
      digest := h.sum(fed);
    }
  }

  datatype ReadError = ErrDisk | ErrRead | ErrFileCorrupt | ErrLessData | Panics

  datatype ReaderConfig = ReaderConfig(h: Hash, sum: Bytes, tillOffset: int)

  function Zeros(n: nat): Bytes { seq(n, _ => 0) }

  /** xlStorage.ReadFile with a verifier: what it leaves in an n-byte buffer
      and whether it succeeds.  file is None when the disk refuses. */
  function ReadFile(cfg: ReaderConfig, file: Option<Bytes>, offset: int, n: nat): (Bytes, Option<ReadError>) {
    if offset < 0 || file.None? then (Zeros(n), Some(ErrDisk))
    else
      var there := if offset <= |file.value| then file.value[offset..] else [];
      var got := Min(n, |there|);
      var buf := there[..got] + Zeros(n - got);
      if got < n then (buf, Some(ErrRead))
      else if cfg.h.sum(file.value) != cfg.sum then (buf, Some(ErrFileCorrupt))
      else (buf, None)
  }

  // The reader's only state is what is left of its buffer.
  function ReadStep(cfg: ReaderConfig, st: Option<Bytes>, n: nat, offset: int, file: Option<Bytes>)
    : (Option<Bytes>, Result<Bytes, ReadError>)
  {
    if st.None? && cfg.tillOffset < offset then (None, Err(Panics))
    else
      var (b, err) := if st.Some? then (st.value, None) else ReadFile(cfg, file, offset, cfg.tillOffset - offset);
      if err.Some? then (Some(b), Err(err.value))
      else if |b| < n then (Some(b), Err(ErrLessData))
      else (Some(b[n..]), Ok(b[..n]))
  }

  /** wholeBitrotReader. */
  class WholeReader {
    const cfg: ReaderConfig
    var buf: Option<Bytes>

    constructor (cfg: ReaderConfig)
      ensures this.cfg == cfg && buf == None
    {
      this.cfg, buf := cfg, None;
    }

    method ReadAt(out: array<byte>, offset: int, file: Option<Bytes>) returns (r: Result<nat, ReadError>)
      modifies this, out
      ensures var (st, res) := ReadStep(cfg, old(buf), out.Length, offset, file);
        && buf == st
        && (res.Ok? ==> r == Ok(out.Length) && out[..] == res.value)
        && (res.Err? ==> r == Err(res.error) && out[..] == old(out[..]))
    {
      if buf.None? {
        if cfg.tillOffset < offset {
          return Err(Panics);
        }
        var (b, err) := ReadFile(cfg, file, offset, cfg.tillOffset - offset);
        buf := Some(b);
        if err.Some? {
          return Err(err.value);
        }
      }
      if |buf.value| < out.Length {
        return Err(ErrLessData);
      }
      ghost var b := buf.value;
      forall i | 0 <= i < out.Length {
        out[i] := buf.value[i];
      }
      assert out[..] == b[..out.Length];
      buf := Some(buf.value[out.Length..]);
      return Ok(out.Length);
    }
  }

  // A run of calls (size, offset) on one file; the bytes handed out, in order.
  function Delivered(cfg: ReaderConfig, st: Option<Bytes>, calls: seq<(nat, int)>, file: Option<Bytes>): Bytes
    decreases |calls|
  {
    if calls == [] then []
    else
      var (st', r) := ReadStep(cfg, st, calls[0].0, calls[0].1, file);
      (if r.Ok? then r.value else []) + Delivered(cfg, st', calls[1..], file)
  }

  lemma {:induction false} DeliveredFromBuffer(cfg: ReaderConfig, b: Bytes, calls: seq<(nat, int)>, file: Option<Bytes>)
    ensures Delivered(cfg, Some(b), calls, file) <= b
    decreases |calls|
  {
    if calls != [] {
      var n := calls[0].0;
      if n <= |b| {
        DeliveredFromBuffer(cfg, b[n..], calls[1..], file);
        assert b == b[..n] + b[n..];
      } else {
        DeliveredFromBuffer(cfg, b, calls[1..], file);
      }
    }
  }

  // The first call read the range, which may be an empty one beyond the end,
  // and its verification succeeded.
  predicate Verified(cfg: ReaderConfig, offset: int, file: Option<Bytes>) {
    && 0 <= offset <= cfg.tillOffset
    && file.Some? && (cfg.tillOffset <= |file.value| || offset == cfg.tillOffset)
    && cfg.h.sum(file.value) == cfg.sum
  }

  // The bytes of the file from one offset up to another.
  function Range(file: Bytes, offset: nat, till: nat): Bytes
    requires offset <= till && (till <= |file| || offset == till)
  {
    if offset == till then [] else file[offset..till]
  }

  // What a verified first call reads.
  lemma VerifiedRead(cfg: ReaderConfig, offset: int, file: Option<Bytes>)
    requires Verified(cfg, offset, file)
    ensures ReadFile(cfg, file, offset, cfg.tillOffset - offset) == (Range(file.value, offset, cfg.tillOffset), None)
  {
    var (b, err) := ReadFile(cfg, file, offset, cfg.tillOffset - offset);
    assert b == Range(file.value, offset, cfg.tillOffset);
  }

  lemma VerifiedExactly(cfg: ReaderConfig, offset: int, file: Option<Bytes>)
    requires offset <= cfg.tillOffset
    ensures ReadFile(cfg, file, offset, cfg.tillOffset - offset).1 == None <==> Verified(cfg, offset, file)
    ensures ReadFile(cfg, file, offset, cfg.tillOffset - offset).1 != Some(ErrLessData)
  {}

  /** Whatever the later offsets say, a run hands out a prefix of the range
      the first call selected; and the first call reports success, or too
      little data, exactly when that range is there and the file's digest is
      the expected one. */
  lemma RunDeliversPrefix(cfg: ReaderConfig, offset: int, n: nat, calls: seq<(nat, int)>, file: Option<Bytes>)
    ensures var first := ReadStep(cfg, None, n, offset, file).1;
      (first.Ok? || first == Err(ErrLessData)) <==> Verified(cfg, offset, file)
    ensures Verified(cfg, offset, file) ==>
      Delivered(cfg, None, [(n, offset)] + calls, file) <= Range(file.value, offset, cfg.tillOffset)
  {
    hide ReadFile, Range;
    if offset <= cfg.tillOffset {
      VerifiedExactly(cfg, offset, file);
    }
    if Verified(cfg, offset, file) {
      VerifiedRead(cfg, offset, file);
      var b, all := Range(file.value, offset, cfg.tillOffset), [(n, offset)] + calls;
      assert all[0] == (n, offset) && all[1..] == calls;
      if n <= |b| {
        DeliveredFromBuffer(cfg, b[n..], calls, file);
        assert b == b[..n] + b[n..];
      } else {
        DeliveredFromBuffer(cfg, b, calls, file);
      }
    }
  }

  /** The reader keeps the buffer of a failed first call, whatever made it
      fail: a second call on it succeeds and hands out what the file had of
      the range, filled up with zeros. */
  lemma FailedReaderHandsOutUnverified(
      cfg: ReaderConfig, offset: int, n: nat, m: nat, later: int, file: Option<Bytes>)
    requires offset <= cfg.tillOffset && m <= cfg.tillOffset - offset && !Verified(cfg, offset, file)
    ensures var (st, first) := ReadStep(cfg, None, n, offset, file);
      && first.Err?
      && ReadStep(cfg, st, m, later, file).1 == Ok(ReadFile(cfg, file, offset, cfg.tillOffset - offset).0[..m])
  {
    var (b, err) := ReadFile(cfg, file, offset, cfg.tillOffset - offset);
    assert |b| == cfg.tillOffset - offset;
  }

  // Some run that begins at this offset hands out bytes that were not
  // verified.
  ghost predicate HandsOutUnverified(cfg: ReaderConfig, offset: int, file: Option<Bytes>) {
    && !Verified(cfg, offset, file)
    && exists calls: seq<(nat, int)> :: calls != [] && calls[0].1 == offset && Delivered(cfg, None, calls, file) != []
  }

  /** "Every byte handed out was verified" fails for exactly the readers of a
      non-empty range that is not there in full under the expected digest:
      it holds only because decoders drop a reader at its first error. */
  lemma UnverifiedExactly(cfg: ReaderConfig, offset: int, file: Option<Bytes>)
    requires offset <= cfg.tillOffset
    ensures HandsOutUnverified(cfg, offset, file) <==> offset < cfg.tillOffset && !Verified(cfg, offset, file)
  {
    var size := cfg.tillOffset - offset;
    if !Verified(cfg, offset, file) {
      if size > 0 {
        var calls := [(0, offset), (size, offset)];
        FailedReaderHandsOutUnverified(cfg, offset, 0, size, offset, file);
        var st := ReadStep(cfg, None, 0, offset, file).0;
        assert calls[1..] == [(size, offset)] && [(size, offset)][1..] == [];
        assert Delivered(cfg, st, [(size, offset)], file) == ReadStep(cfg, st, size, offset, file).1.value + [];
        assert |Delivered(cfg, None, calls, file)| == size;
      } else {
        forall calls: seq<(nat, int)> | calls != [] && calls[0].1 == offset
          ensures Delivered(cfg, None, calls, file) == []
        {
          var st := ReadStep(cfg, None, calls[0].0, offset, file).0;
          DeliveredFromBuffer(cfg, st.value, calls[1..], file);
        }
      }
    }
  }

  // ----- what is written is what is read -----

  // Calls that take exactly b, piece by piece.
  function Total(calls: seq<(nat, int)>): nat {
    if calls == [] then 0 else calls[0].0 + Total(calls[1..])
  }

  lemma {:induction false} DeliveredWhole(cfg: ReaderConfig, b: Bytes, calls: seq<(nat, int)>, file: Option<Bytes>)
    requires Total(calls) == |b|
    ensures Delivered(cfg, Some(b), calls, file) == b
    decreases |calls|
  {
    if calls != [] {
      var n := calls[0].0;
      DeliveredWhole(cfg, b[n..], calls[1..], file);
      assert b == b[..n] + b[n..];
    }
  }

  /** A session of appends that all succeed, on a new writer: the file is the
      chunks, and Sum is the file's digest. */
  method WriteAll(h: Hash, chunks: seq<Bytes>) returns (w: WholeWriter, digest: Bytes)
    ensures fresh(w) && w.file == Flatten(chunks) && digest == h.sum(Flatten(chunks))
  {
    w := new WholeWriter(h);
    for i := 0 to |chunks|
      invariant w.h == h && w.file == w.fed == Flatten(chunks[..i])
    {
      FlattenNext(chunks[..i], chunks[i]);
      assert chunks[..i + 1] == chunks[..i] + [chunks[i]];
      var n, failed := w.Write(chunks[i], |chunks[i]|);
    }
    assert chunks[..|chunks|] == chunks;
    digest := w.Sum();
  }

  lemma {:induction false} FlattenNext(chunks: seq<Bytes>, last: Bytes)
    ensures Flatten(chunks + [last]) == Flatten(chunks) + last
    decreases |chunks|
  {
    if chunks == [] {
      assert [] + [last] == [last] && [last][1..] == [];
      assert Flatten([last]) == last + [] == last == [] + last;
    } else {
      FlattenNext(chunks[1..], last);
      assert (chunks + [last])[1..] == chunks[1..] + [last];
      assert chunks[0] + (Flatten(chunks[1..]) + last) == chunks[0] + Flatten(chunks[1..]) + last;
    }
  }

  lemma FirstCall(cfg: ReaderConfig, offset: nat, n: nat, file: Option<Bytes>)
    requires Verified(cfg, offset, file) && n <= cfg.tillOffset - offset
    ensures var range := Range(file.value, offset, cfg.tillOffset);
      ReadStep(cfg, None, n, offset, file) == (Some(range[n..]), Ok(range[..n]))
  {
    VerifiedRead(cfg, offset, file);
  }

  lemma VerifiedRangeRead(cfg: ReaderConfig, offset: nat, calls: seq<(nat, int)>, file: Option<Bytes>)
    requires Verified(cfg, offset, file)
    requires calls != [] && calls[0].1 == offset && Total(calls) == cfg.tillOffset - offset
    ensures Delivered(cfg, None, calls, file) == Range(file.value, offset, cfg.tillOffset)
  {
    hide ReadStep;
    var n, range := calls[0].0, Range(file.value, offset, cfg.tillOffset);
    FirstCall(cfg, offset, n, file);
    DeliveredWhole(cfg, range[n..], calls[1..], file);
    assert range == range[..n] + range[n..];
  }

  /** Whatever was written chunk by chunk, a reader with the writer's digest
      gives back any range of it, in whatever pieces it is asked for. */
  lemma WholeRoundTrip(h: Hash, chunks: seq<Bytes>, offset: nat, till: nat, calls: seq<(nat, int)>)
    requires offset <= till <= |Flatten(chunks)|
    requires calls != [] && calls[0].1 == offset && Total(calls) == till - offset
    ensures var file := Flatten(chunks);
      Delivered(ReaderConfig(h, h.sum(file), till), None, calls, Some(file)) == file[offset..till]
  {
    hide Flatten, Delivered, Total;
    var file := Flatten(chunks);
    VerifiedRangeRead(ReaderConfig(h, h.sum(file), till), offset, calls, Some(file));
  }

  /** ... and the whole-file verifier accepts it. */
  method WriteThenVerify(h: Hash, chunks: seq<Bytes>, algo: Algorithm, shardSize: int)
    returns (err: Option<V.VerifyError>)
    requires h.Valid() && shardSize > 0 && algo != HighwayHash256S
    ensures err.None?
  {
    var w, digest := WriteAll(h, chunks);
    var r := new V.Reader(w.file, false);
    err := V.BitrotVerify(r, |w.file|, |w.file|, algo, digest, shardSize, h);
  }
}
