/** The bitrot-protected shard file: every chunk of at most shardSize bytes is
    stored behind its own digest.  Everything here is on values; the writer,
    the random-access reader and the whole-file verifier are proved against it
    in the modules that follow. */
module BitrotFormat {
  import opened Base

  // BitrotAlgorithm: three whole-file algorithms and the streaming one.
  datatype Algorithm = SHA256 | BLAKE2b512 | HighwayHash256 | HighwayHash256S

  /** A digest is an arbitrary function of the bytes fed to it, with a fixed
      positive output length.  Nothing else about hashing is assumed. */
  datatype Hash = Hash(sum: Bytes -> Bytes, size: nat) {
    ghost predicate Valid() {
      size > 0 && forall p: Bytes :: |sum(p)| == size
    }
  }

  // Go's integer division and remainder, which truncate toward zero.
  function GoDiv(a: int, b: int): int
    requires b > 0
  {
    if a >= 0 then a / b else -((-a) / b)
  }

  function GoMod(a: int, b: int): int
    requires b > 0
  {
    if a >= 0 then a % b else -((-a) % b)
  }

  /** ceilFrac, with its zero and negative denominators. */
  function CeilFrac(numerator: int, denominator: int): int {
    if denominator == 0 then 0
    else
      var n := if denominator < 0 then -numerator else numerator;
      var d := if denominator < 0 then -denominator else denominator;
      var c := GoDiv(n, d);
      if n > 0 && GoMod(n, d) != 0 then c + 1 else c
  }

  /** bitrotShardFileSize. */
  function ShardFileSize(size: int, shardSize: int, algo: Algorithm, h: Hash): int {
    if algo != HighwayHash256S then size
    else CeilFrac(size, shardSize) * h.size + size
  }

  // The stored form of one chunk.
  function Frame(h: Hash, chunk: Bytes): Bytes { h.sum(chunk) + chunk }

  /** The stored form of a payload. */
  function Encode(h: Hash, shardSize: int, payload: Bytes): Bytes
    requires shardSize > 0
  {
    if payload == [] then []
    else
      var c := Min(shardSize, |payload|);
      Frame(h, payload[..c]) + Encode(h, shardSize, payload[c..])
  }

  /** The payload a stored form stands for, if every digest matches. */
  function Decode(h: Hash, shardSize: int, stored: Bytes): Option<Bytes>
    requires shardSize > 0 && h.size > 0
    decreases |stored|
  {
    if stored == [] then Some([])
    else if |stored| <= h.size then None
    else
      var c := Min(shardSize, |stored| - h.size);
      var chunk := stored[h.size..h.size + c];
      if stored[..h.size] != h.sum(chunk) then None
      else
        match Decode(h, shardSize, stored[h.size + c..])
        case None => None
        case Some(tail) => Some(chunk + tail)
  }

  // ----- arithmetic of the shard file size -----

  lemma DivAddOne(a: int, d: int)
    requires d > 0
    ensures (a + d) / d == a / d + 1
    ensures (a + d) % d == a % d
  {
    var q, r := a / d, a % d;
    assert a + d == (q + 1) * d + r;
    DivUnique(a + d, d, q + 1, r);
  }

  lemma DivUnique(a: int, d: int, q: int, r: int)
    requires d > 0 && 0 <= r < d && a == q * d + r
    ensures a / d == q && a % d == r
  {
    var q', r' := a / d, a % d;
    QuotientUnique(d, q, r, q', r');
  }

  lemma QuotientUnique(d: int, q: int, r: int, q': int, r': int)
    requires 0 <= r < d && 0 <= r' < d && q * d + r == q' * d + r'
    ensures q == q' && r == r'
  {
    if q > q' {
      MulMonotone(q' + 1, q, d);
    } else if q < q' {
      MulMonotone(q + 1, q', d);
    }
  }

  lemma CeilStep(n: int, s: int)
    requires s > 0 && n > 0
    ensures CeilFrac(n, s) == 1 + CeilFrac(n - Min(s, n), s)
    ensures CeilFrac(0, s) == 0
  {
    DivUnique(0, s, 0, 0);
    if n >= s {
      DivAddOne(n - s, s);
      if n == s {
        DivUnique(s, s, 1, 0);
      }
    } else {
      DivUnique(n, s, 0, n);
    }
  }

  lemma CeilNonPositive(n: int, s: int)
    requires s > 0 && n <= 0
    ensures CeilFrac(n, s) <= 0
    ensures n == 0 ==> CeilFrac(n, s) == 0
  {
    DivUnique(0, s, 0, 0);
    var q := (-n) / s;
    assert q >= 0;
  }

  lemma {:induction false} CeilMonotone(m: int, n: int, s: int)
    requires s > 0 && 0 <= m <= n
    ensures 0 <= CeilFrac(m, s) <= CeilFrac(n, s)
    decreases n
  {
    if m > 0 {
      CeilStep(m, s);
      CeilStep(n, s);
      CeilMonotone(m - Min(s, m), n - Min(s, n), s);
    } else if n > 0 {
      CeilStep(n, s);
      CeilMonotone(0, n - Min(s, n), s);
    } else {
      CeilNonPositive(0, s);
    }
  }

  lemma ShardFileSizeStep(n: int, s: int, h: Hash)
    requires s > 0 && n >= 0
    ensures ShardFileSize(0, s, HighwayHash256S, h) == 0
    ensures n > 0 ==>
      ShardFileSize(n, s, HighwayHash256S, h)
        == h.size + Min(s, n) + ShardFileSize(n - Min(s, n), s, HighwayHash256S, h)
  {
    CeilNonPositive(0, s);
    if n > 0 {
      CeilStep(n, s);
      Distribute(CeilFrac(n - Min(s, n), s), h.size);
    }
  }

  lemma Distribute(a: int, k: int)
    ensures (1 + a) * k == k + a * k
  {}

  /** Two payload sizes never share a shard file size, so a stored length
      determines the payload length. */
  lemma ShardFileSizeInjective(m: int, n: int, s: int, h: Hash)
    requires s > 0 && h.size > 0 && 0 <= m && 0 <= n
    requires ShardFileSize(m, s, HighwayHash256S, h) == ShardFileSize(n, s, HighwayHash256S, h)
    ensures m == n
  {
    if m < n {
      CeilMonotone(m, n, s);
      MulMonotone(CeilFrac(m, s), CeilFrac(n, s), h.size);
    } else if n < m {
      CeilMonotone(n, m, s);
      MulMonotone(CeilFrac(n, s), CeilFrac(m, s), h.size);
    }
  }

  lemma MulMonotone(a: int, b: int, k: int)
    requires a <= b && k >= 0
    ensures a * k <= b * k
  {
    assert (b - a) * k >= 0;
  }

  // ----- the format -----

  /** The stored length is bitrotShardFileSize of the payload length. */
  lemma {:induction false} EncodedLength(h: Hash, s: int, p: Bytes)
    requires s > 0 && h.Valid()
    ensures |Encode(h, s, p)| == ShardFileSize(|p|, s, HighwayHash256S, h)
    decreases |p|
  {
    ShardFileSizeStep(|p|, s, h);
    if p != [] {
      EncodedLength(h, s, p[Min(s, |p|)..]);
    }
  }

  /** Decoding what was encoded gives the payload back. */
  lemma {:induction false} DecodeEncode(h: Hash, s: int, p: Bytes)
    requires s > 0 && h.Valid()
    ensures Decode(h, s, Encode(h, s, p)) == Some(p)
    decreases |p|
  {
    if p != [] {
      var c := Min(s, |p|);
      var chunk, rest := p[..c], p[c..];
      assert chunk + rest == p;
      var tail := Encode(h, s, rest);
      assert Encode(h, s, p) == Frame(h, chunk) + tail;
      assert |chunk| == s || tail == [] by { EncodeEmptyOnlyForEmpty(h, s, rest); }
      DecodeEncode(h, s, rest);
      DecodeFrame(h, s, chunk, tail);
    }
  }

  // Decoding peels off one intact frame.
  lemma DecodeFrame(h: Hash, s: int, chunk: Bytes, tail: Bytes)
    requires s > 0 && h.Valid() && 0 < |chunk| <= s
    requires |chunk| == s || tail == []
    ensures Decode(h, s, Frame(h, chunk) + tail)
         == match Decode(h, s, tail)
            case None => None
            case Some(p) => Some(chunk + p)
  {
    var e := Frame(h, chunk) + tail;
    assert |e| == h.size + |chunk| + |tail|;
    assert e[..h.size] == h.sum(chunk);
    assert e[h.size..h.size + |chunk|] == chunk;
    assert e[h.size + |chunk|..] == tail;
  }

  lemma EncodeEmptyOnlyForEmpty(h: Hash, s: int, p: Bytes)
    requires s > 0 && h.Valid()
    ensures Encode(h, s, p) == [] <==> p == []
  {
    if p != [] {
      assert |Encode(h, s, p)| >= h.size;
    }
  }

  // Encoding puts one frame in front.
  lemma EncodeFrame(h: Hash, s: int, chunk: Bytes, p: Bytes)
    requires s > 0 && 0 < |chunk| <= s && (|chunk| == s || p == [])
    ensures Encode(h, s, chunk + p) == Frame(h, chunk) + Encode(h, s, p)
  {
    assert (chunk + p)[..|chunk|] == chunk;
    assert (chunk + p)[|chunk|..] == p;
  }

  // What a successful decode saw first.
  lemma DecodedFrame(h: Hash, s: int, stored: Bytes) returns (chunk: Bytes, rest: Bytes)
    requires s > 0 && h.Valid() && stored != []
    requires Decode(h, s, stored).Some?
    ensures 0 < |chunk| <= s && (|chunk| == s || rest == [])
    ensures stored == Frame(h, chunk) + rest && Decode(h, s, rest).Some?
    ensures Decode(h, s, stored).value == chunk + Decode(h, s, rest).value
  {
    var c := Min(s, |stored| - h.size);
    chunk, rest := stored[h.size..h.size + c], stored[h.size + c..];
    assert stored == stored[..h.size] + chunk + rest;
  }

  /** Whatever decodes is exactly the encoding of what it decodes to, so the
      two functions are inverse to each other. */
  lemma {:induction false} EncodeDecode(h: Hash, s: int, stored: Bytes)
    requires s > 0 && h.Valid()
    requires Decode(h, s, stored).Some?
    ensures Encode(h, s, Decode(h, s, stored).value) == stored
    decreases |stored|
  {
    if stored != [] {
      var chunk, rest := DecodedFrame(h, s, stored);
      assert |Frame(h, chunk)| > 0;
      EncodeDecode(h, s, rest);
      if rest == [] {
        assert Decode(h, s, rest).value == [];
      }
      EncodeFrame(h, s, chunk, Decode(h, s, rest).value);
    }
  }

  /** Cutting a payload at a shard boundary cuts its stored form at the
      boundary the reader computes for that offset. */
  lemma {:induction false} EncodeAppend(h: Hash, s: int, a: Bytes, b: Bytes)
    requires s > 0 && h.Valid()
    requires |a| % s == 0
    ensures Encode(h, s, a + b) == Encode(h, s, a) + Encode(h, s, b)
    decreases |a|
  {
    if a == [] {
      assert a + b == b;
    } else {
      assert |a| >= s by { if |a| < s { DivUnique(|a|, s, 0, |a|); } }
      assert (a + b)[..s] == a[..s];
      assert (a + b)[s..] == a[s..] + b;
      DivAddOne(|a| - s, s);
      EncodeAppend(h, s, a[s..], b);
    }
  }

  // The writer is handed a payload one chunk at a time.
  function Flatten(chunks: seq<Bytes>): Bytes {
    if chunks == [] then [] else chunks[0] + Flatten(chunks[1..])
  }

  // Every chunk is full except possibly the last, and none is empty.
  predicate InShards(chunks: seq<Bytes>, s: int) {
    forall i :: 0 <= i < |chunks| ==>
      0 < |chunks[i]| <= s && (i < |chunks| - 1 ==> |chunks[i]| == s)
  }

  function Frames(h: Hash, chunks: seq<Bytes>): Bytes {
    if chunks == [] then [] else Frame(h, chunks[0]) + Frames(h, chunks[1..])
  }

  /** Writing chunk after chunk produces the stored form of the payload. */
  lemma {:induction false} FramesEncode(h: Hash, s: int, chunks: seq<Bytes>)
    requires s > 0 && h.Valid() && InShards(chunks, s)
    ensures Frames(h, chunks) == Encode(h, s, Flatten(chunks))
    decreases |chunks|
  {
    if chunks != [] {
      var rest := chunks[1..];
      FramesEncode(h, s, rest);
      assert |rest| == 0 ==> Flatten(rest) == [];
      EncodeFrame(h, s, chunks[0], Flatten(rest));
    }
  }
}
