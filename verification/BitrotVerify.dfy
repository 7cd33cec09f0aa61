/** bitrotVerify: the whole-file acceptor of shard files. */
module BitrotVerify {
  import opened Base
  import opened BitrotFormat

  // Either the file's content is wrong or the stream gave out.
  datatype VerifyError = ErrFileCorrupt | ErrRead

  /** An io.Reader: the bytes still to come, after which it reports either
      end of file or, if broken, an error. */
  class Reader {
    var rest: Bytes
    const broken: bool

    constructor (content: Bytes, broken: bool)
      ensures rest == content && this.broken == broken
    {
      rest, this.broken := content, broken;
    }

    // io.ReadFull
    method ReadFull(n: nat) returns (got: Bytes, failed: bool)
      modifies this
      ensures got == old(rest)[..Min(n, |old(rest)|)] && rest == old(rest)[|got|..]
      ensures failed <==> |old(rest)| < n
    {
      got := rest[..Min(n, |rest|)];
      rest := rest[|got|..];
      failed := |got| < n;
    }

    // io.CopyBuffer from io.LimitReader(r, limit): a short stream is no error.
    method CopyLimited(limit: nat) returns (got: Bytes, failed: bool)
      modifies this
      ensures got == old(rest)[..Min(limit, |old(rest)|)] && rest == old(rest)[|got|..]
      ensures failed <==> broken && |old(rest)| < limit
    {
      got := rest[..Min(limit, |rest|)];
      rest := rest[|got|..];
      failed := broken && |got| < limit;
    }

    // io.Copy
    method CopyAll() returns (got: Bytes, failed: bool)
      modifies this
      ensures got == old(rest) && rest == [] && failed == broken
    {
      got, rest, failed := rest, [], broken;
    }
  }

  /** stored is what the streaming writer stores for some payload of this size. */
  ghost predicate IsShardFile(h: Hash, s: int, partSize: nat, stored: Bytes)
    requires s > 0
  {
    exists p: Bytes :: |p| == partSize && Encode(h, s, p) == stored
  }

  // Being a shard file of the size announced by its length is decidable by
  // decoding.
  lemma ShardFileDecodes(h: Hash, s: int, partSize: nat, stored: Bytes)
    requires s > 0 && h.Valid()
    requires |stored| == ShardFileSize(partSize, s, HighwayHash256S, h)
    ensures IsShardFile(h, s, partSize, stored) <==> Decode(h, s, stored).Some?
  {
    if Decode(h, s, stored).Some? {
      var p := Decode(h, s, stored).value;
      EncodeDecode(h, s, stored);
      EncodedLength(h, s, p);
      ShardFileSizeInjective(|p|, partSize, s, h);
    }
    if IsShardFile(h, s, partSize, stored) {
      var p: Bytes :| |p| == partSize && Encode(h, s, p) == stored;
      DecodeEncode(h, s, p);
    }
  }

  // One round of the loop is one step of Decode.
  lemma DecodeRound(h: Hash, s: int, stored: Bytes)
    requires s > 0 && h.Valid() && |stored| > h.size
    ensures var c := Min(s, |stored| - h.size);
      Decode(h, s, stored).Some? <==>
        && stored[..h.size] == h.sum(stored[h.size..h.size + c])
        && Decode(h, s, stored[h.size + c..]).Some?
  {}

  /** The streaming branch accepts exactly the shard files: the announced
      size is the size of a shard file for partSize, and the first wantSize
      bytes are the stored form of some payload of that length.  (A negative
      partSize is accepted unread: its size is negative too.)  The other
      algorithms compare one digest of the whole stream.  Only a stream too
      short for the announced size may be refused as unreadable rather than
      corrupt. */
  method BitrotVerify(r: Reader, wantSize: int, partSize: int, algo: Algorithm, want: Bytes, shardSize: int, h: Hash)
    returns (err: Option<VerifyError>)
    requires h.Valid() && shardSize > 0
    modifies r
    ensures algo == HighwayHash256S ==>
      (err.None? <==>
        && wantSize == ShardFileSize(partSize, shardSize, algo, h)
        && (partSize <= 0 ||
            (wantSize <= |old(r.rest)| && IsShardFile(h, shardSize, partSize, old(r.rest)[..wantSize]))))
    ensures algo != HighwayHash256S ==>
      (err.None? <==> !r.broken && |old(r.rest)| == wantSize && h.sum(old(r.rest)) == want)
    ensures err == Some(ErrRead) ==>
      algo == HighwayHash256S && wantSize == ShardFileSize(partSize, shardSize, algo, h) && |old(r.rest)| < wantSize
  {
    if algo != HighwayHash256S {
      var all, failed := r.CopyAll();
      if failed || |all| != wantSize {
        return Some(ErrFileCorrupt);
      }
      if h.sum(all) != want {
        return Some(ErrFileCorrupt);
      }
      return None;
    }
    if wantSize != ShardFileSize(partSize, shardSize, algo, h) {
      return Some(ErrFileCorrupt);
    }
    if partSize < 0 {
      SizeNonPositive(partSize, shardSize, h);
      return None;
    }
    err := VerifyChunks(r, wantSize, partSize, shardSize, h);
    SizePositive(partSize, shardSize, h);
    IntactDecodes(h, shardSize, partSize, wantSize, old(r.rest));
    if wantSize <= |old(r.rest)| {
      ShardFileDecodes(h, shardSize, partSize, old(r.rest)[..wantSize]);
    }
  }

  lemma SizeNonPositive(n: int, s: int, h: Hash)
    requires s > 0 && n <= 0
    ensures ShardFileSize(n, s, HighwayHash256S, h) <= 0
  {
    CeilNonPositive(n, s);
    MulMonotone(CeilFrac(n, s), 0, h.size);
  }

  // One round on values: a digest and then at most `limit` bytes of chunk.
  // The result is what is left to come, or None if the round fails.
  function Round(h: Hash, limit: nat, left: int, rest: Bytes): Option<(int, Bytes)> {
    if |rest| < h.size then None
    else
      var end := Min(h.size + limit, |rest|);
      if h.sum(rest[h.size..end]) != rest[..h.size] then None
      else Some((left - end, rest[end..]))
  }

  function Limit(h: Hash, s: int, left: int): nat { Max(Min(s, left - h.size), 0) }

  /** What the loop decides, on values: left bytes are still expected and
      `rest` is what the stream still holds. */
  predicate Intact(h: Hash, s: int, left: int, rest: Bytes)
    requires h.size > 0
    decreases left
  {
    left > 0 ==>
      match Round(h, Limit(h, s, left), left, rest)
      case None => false
      case Some((left', rest')) => Intact(h, s, left', rest')
  }

  function Max(a: int, b: int): int { if a < b then b else a }

  // One round of Intact beside one step of Decode.
  lemma IntactRound(h: Hash, s: int, left: int, rest: Bytes)
    requires s > 0 && h.Valid() && left > h.size
    ensures var c := Min(s, left - h.size);
      if |rest| < h.size + c then !Intact(h, s, left, rest)
      else
        Intact(h, s, left, rest) ==
          (h.sum(rest[h.size..h.size + c]) == rest[..h.size]
           && Intact(h, s, left - h.size - c, rest[h.size + c..]))
  {
    var c := Min(s, left - h.size);
    if h.size <= |rest| < h.size + c {
      assert rest[h.size + (|rest| - h.size)..] == [];
    }
  }

  lemma DecodePrefixRound(h: Hash, s: int, left: int, rest: Bytes)
    requires s > 0 && h.Valid() && h.size < left <= |rest|
    ensures var c := Min(s, left - h.size);
      Decode(h, s, rest[..left]).Some? ==
        (h.sum(rest[h.size..h.size + c]) == rest[..h.size]
         && Decode(h, s, rest[h.size + c..][..left - h.size - c]).Some?)
  {
    var c, stored := Min(s, left - h.size), rest[..left];
    DecodeRound(h, s, stored);
    assert stored[h.size..h.size + c] == rest[h.size..h.size + c];
    assert stored[..h.size] == rest[..h.size];
    assert stored[h.size + c..] == rest[h.size + c..][..left - h.size - c];
  }

  // The size of a shard file whose payload has k bytes to come.
  function SizeOf(h: Hash, s: int, k: nat): int {
    ShardFileSize(k, s, HighwayHash256S, h)
  }

  lemma SizeOfFacts(h: Hash, s: int, k: nat)
    requires s > 0 && h.size > 0
    ensures SizeOf(h, s, k) >= 0
    ensures k == 0 ==> SizeOf(h, s, k) == 0
    ensures k > 0 ==>
      && Min(s, SizeOf(h, s, k) - h.size) == Min(s, k)
      && SizeOf(h, s, k) == h.size + Min(s, k) + SizeOf(h, s, k - Min(s, k))
  {
    SizePositive(k, s, h);
    ShardFileSizeStep(k, s, h);
    if k > 0 {
      SizePositive(k - Min(s, k), s, h);
      if k < s { ShardFileSizeStep(0, s, h); }
    }
  }

  lemma NothingLeft(h: Hash, s: int, rest: Bytes)
    requires s > 0 && h.Valid()
    ensures Intact(h, s, 0, rest) && Decode(h, s, rest[..0]) == Some([])
  {}

  /** On a length that belongs to a payload, the loop accepts exactly the
      streams that begin with something that decodes; a stream that gives out
      inside a chunk is never accepted, even if the short chunk matches. */
  lemma {:induction false} IntactDecodes(h: Hash, s: int, k: nat, left: int, rest: Bytes)
    requires s > 0 && h.Valid() && left == SizeOf(h, s, k)
    ensures left >= 0
    ensures Intact(h, s, left, rest) <==> left <= |rest| && Decode(h, s, rest[..left]).Some?
    decreases k
  {
    hide Intact, Decode, SizeOf;
    SizeOfFacts(h, s, k);
    if k == 0 {
      NothingLeft(h, s, rest);
    } else {
      var c := Min(s, k);
      SizeOfFacts(h, s, k - c);
      IntactRound(h, s, left, rest);
      if h.size + c <= |rest| {
        IntactDecodes(h, s, k - c, left - h.size - c, rest[h.size + c..]);
        if left <= |rest| {
          DecodePrefixRound(h, s, left, rest);
        }
      }
    }
  }

  // The body of the loop.  A broken stream fails where a short one would be
  // let through to the next round, which then fails.
  method VerifyChunk(r: Reader, left0: int, shardSize0: int, h: Hash)
    returns (err: Option<VerifyError>, left: int, shardSize: int)
    requires h.Valid() && left0 > 0 && shardSize0 >= 0
    requires h.size <= |r.rest| ==> h.size <= left0
    modifies r
    ensures var out := Round(h, Limit(h, shardSize0, left0), left0, old(r.rest));
      && (err.None? ==> out == Some((left, r.rest)) && shardSize == Min(shardSize0, left0 - h.size))
      && (err.Some? ==> out.None? || (out.value.0 > 0 && out.value.1 == []))
      && (err == Some(ErrRead) <==> |old(r.rest)| < h.size)
  {
    var hashBuf, failed := r.ReadFull(h.size);
    left, shardSize := left0, shardSize0;
    if failed {
      return Some(ErrRead), left, shardSize;
    }
    left := left - |hashBuf|;
    if left < shardSize {
      shardSize := left;
    }
    var chunk;
    chunk, failed := r.CopyLimited(shardSize);
    assert chunk == old(r.rest)[h.size..Min(h.size + shardSize, |old(r.rest)|)];
    assert r.rest == old(r.rest)[h.size + |chunk|..];
    if failed {
      return Some(ErrFileCorrupt), left, shardSize;
    }
    left := left - |chunk|;
    if h.sum(chunk) != hashBuf {
      return Some(ErrFileCorrupt), left, shardSize;
    }
    err := None;
  }

  // The loop of the streaming branch.  `left` never goes negative, on short
  // streams too, and every round consumes at least the digest's length.
  method VerifyChunks(r: Reader, wantSize: int, ghost partSize: nat, size: int, h: Hash)
    returns (err: Option<VerifyError>)
    requires h.Valid() && size > 0
    requires wantSize == SizeOf(h, size, partSize)
    modifies r
    ensures err.None? <==> Intact(h, size, wantSize, old(r.rest))
    ensures err == Some(ErrRead) ==> |old(r.rest)| < wantSize
  {
    var left, shardSize := wantSize, size;
    ghost var k: nat := partSize;  // payload still to come
    SizeOfFacts(h, size, partSize);
    while left > 0
      invariant left >= 0
      invariant (left == SizeOf(h, size, k) && (shardSize == size || left == 0))
             || (left > 0 && r.rest == [] && shardSize >= 0)
      invariant Intact(h, size, wantSize, old(r.rest)) == Intact(h, size, left, r.rest)
      invariant wantSize <= |old(r.rest)| ==> left <= |r.rest|
      decreases left
    {
      SizeOfFacts(h, size, k);
      SizeOfFacts(h, size, k - Min(size, k));
      err, left, shardSize := VerifyChunk(r, left, shardSize, h);
      if err.Some? {
        return;
      }
      k := k - Min(size, k);
    }
    return None;
  }

  lemma SizePositive(n: int, s: int, h: Hash)
    requires s > 0 && h.size > 0 && n >= 0
    ensures ShardFileSize(n, s, HighwayHash256S, h) >= 0
    ensures n > 0 ==> ShardFileSize(n, s, HighwayHash256S, h) >= h.size + Min(s, n)
  {
    CeilMonotone(0, n, s);
    MulMonotone(0, CeilFrac(n, s), h.size);
    if n > 0 {
      ShardFileSizeStep(n, s, h);
      CeilMonotone(0, n - Min(s, n), s);
      MulMonotone(0, CeilFrac(n - Min(s, n), s), h.size);
    }
  }
}
