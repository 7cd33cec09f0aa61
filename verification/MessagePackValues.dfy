/** Field values of the generated codecs: how each kind is written, read back
    and bounded in size. */
module MessagePackValues {
  import opened Base
  import opened MessagePack

  datatype Kind = KindStr | KindInt | KindUint | KindBool | KindTime | KindBin | KindStrs

  datatype Value =
    | VStr(s: Bytes)
    | VInt(i: int64)
    | VUint(u: uint64)
    | VBool(b: bool)
    | VTime(sec: int64, nsec: uint32)
    | VBin(bin: Bytes)
    | VStrs(strs: seq<Bytes>)

  // A Go value of this kind, short enough for the format's length fields.
  predicate Fits(k: Kind, v: Value) {
    match k
    case KindStr => v.VStr? && |v.s| < TWO32
    case KindInt => v.VInt?
    case KindUint => v.VUint?
    case KindBool => v.VBool?
    case KindTime => v.VTime?
    case KindBin => v.VBin? && |v.bin| < TWO32
    case KindStrs => v.VStrs? && |v.strs| < TWO32 && forall i :: 0 <= i < |v.strs| ==> |v.strs[i]| < TWO32
  }

  function EncStr(s: Bytes): Bytes { EncStrHead(|s|) + s }

  function StrParts(ss: seq<Bytes>): seq<Bytes> {
    seq(|ss|, i requires 0 <= i < |ss| => EncStr(ss[i]))
  }

  function EncStrs(ss: seq<Bytes>): Bytes { Concat(StrParts(ss)) }

  // The time extension: type 5, seconds and nanoseconds in 12 bytes.
  const TIME_HEAD: Bytes := [0xc7, 12, 5]

  function EncTime(sec: int, nsec: nat): Bytes
    requires IsInt64(sec) && nsec < TWO32
  {
    TIME_HEAD + (ToBE(8, if sec >= 0 then sec else sec + TWO64) + ToBE(4, nsec))
  }

  // A value of another kind has no encoding.
  function EncValue(k: Kind, v: Value): Bytes {
    match (k, v)
    case (KindStr, VStr(s)) => EncStr(s)
    case (KindInt, VInt(i)) => EncInt(i)
    case (KindUint, VUint(u)) => EncUint(u)
    case (KindBool, VBool(b)) => [if b then 0xc3 else 0xc2]
    case (KindTime, VTime(sec, nsec)) => EncTime(sec, nsec)
    case (KindBin, VBin(bin)) => EncBinHead(|bin|) + bin
    case (KindStrs, VStrs(strs)) => EncArrHead(|strs|) + EncStrs(strs)
    case _ => []
  }

  // ReadStringBytes, ReadBytesBytes: a head and the bytes it announces.
  function ReadStr(b: Bytes): Option<(Bytes, Bytes)> {
    match ReadToken(b)
    case Some((Str(n), rest)) => if |rest| < n then None else Some((rest[..n], rest[n..]))
    case _ => None
  }

  function ReadBin(b: Bytes): Option<(Bytes, Bytes)> {
    match ReadToken(b)
    case Some((Bin(n), rest)) => if |rest| < n then None else Some((rest[..n], rest[n..]))
    case _ => None
  }

  // ReadIntBytes, ReadUint64Bytes: any integer format whose value is in range.
  function ReadInt(b: Bytes): Option<(int64, Bytes)> {
    match ReadToken(b)
    case Some((Int(v), rest)) => if IsInt64(v) then Some((v, rest)) else None
    case _ => None
  }

  function ReadUint(b: Bytes): Option<(uint64, Bytes)> {
    match ReadToken(b)
    case Some((Int(v), rest)) => if 0 <= v < TWO64 then Some((v, rest)) else None
    case _ => None
  }

  function ReadBool(b: Bytes): Option<(bool, Bytes)> {
    match ReadToken(b)
    case Some((Bool(x), rest)) => Some((x, rest))
    case _ => None
  }

  function ReadTime(b: Bytes): Option<(int64, uint32, Bytes)> {
    if |b| < 15 || b[..3] != TIME_HEAD then None
    else
      WidthExp(4);
      WidthExp(8);
      var s := FromBE(b[3..11]);
      Some((if 2 * s < TWO64 then s else s - TWO64, FromBE(b[11..15]), b[15..]))
  }

  function ReadStrs(n: nat, b: Bytes): Option<(seq<Bytes>, Bytes)> {
    if n == 0 then Some(([], b))
    else
      match ReadStr(b)
      case None => None
      case Some((s, rest)) =>
        match ReadStrs(n - 1, rest)
        case None => None
        case Some((ss, rest')) => Some(([s] + ss, rest'))
  }

  function PrependStrs(ss: seq<Bytes>, r: Option<(seq<Bytes>, Bytes)>): Option<(seq<Bytes>, Bytes)> {
    if r.None? then None else Some((ss + r.value.0, r.value.1))
  }

  // One more string read, with `ss` read before it.
  lemma ReadStrsTurn(ss: seq<Bytes>, n: nat, b: Bytes)
    requires n > 0
    ensures PrependStrs(ss, ReadStrs(n, b)) ==
      match ReadStr(b)
      case None => None
      case Some((s, rest)) => PrependStrs(ss + [s], ReadStrs(n - 1, rest))
  {
    hide ReadStr;
    if ReadStr(b).Some? && ReadStrs(n, b).Some? {
      var (s, rest) := ReadStr(b).value;
      var tail := ReadStrs(n - 1, rest).value.0;
      assert ss + ([s] + tail) == ss + [s] + tail;
    }
  }

  function ReadArrHead(b: Bytes): Option<(nat, Bytes)> {
    match ReadToken(b)
    case Some((Arr(n), rest)) => Some((n, rest))
    case _ => None
  }

  function ReadList(b: Bytes): Option<(seq<Bytes>, Bytes)> {
    match ReadArrHead(b)
    case None => None
    case Some((n, rest)) => ReadStrs(n, rest)
  }

  function ReadValue(k: Kind, b: Bytes): Option<(Value, Bytes)> {
    match k
    case KindStr => (match ReadStr(b) case None => None case Some((x, r)) => Some((VStr(x), r)))
    case KindInt => (match ReadInt(b) case None => None case Some((x, r)) => Some((VInt(x), r)))
    case KindUint => (match ReadUint(b) case None => None case Some((x, r)) => Some((VUint(x), r)))
    case KindBool => (match ReadBool(b) case None => None case Some((x, r)) => Some((VBool(x), r)))
    case KindTime => (match ReadTime(b) case None => None case Some((x, y, r)) => Some((VTime(x, y), r)))
    case KindBin => (match ReadBin(b) case None => None case Some((x, r)) => Some((VBin(x), r)))
    case KindStrs => (match ReadList(b) case None => None case Some((x, r)) => Some((VStrs(x), r)))
  }

  // ----- round trips -----

  lemma ReadEncStr(s: Bytes, more: Bytes)
    requires |s| < TWO32
    ensures ReadStr(EncStr(s) + more) == Some((s, more))
  {
    assert EncStr(s) + more == EncStrHead(|s|) + (s + more);
    ReadStrToken(|s|, s + more);
  }

  lemma ReadEncBin(s: Bytes, more: Bytes)
    requires |s| < TWO32
    ensures ReadBin(EncBinHead(|s|) + s + more) == Some((s, more))
  {
    assert EncBinHead(|s|) + s + more == EncBinHead(|s|) + (s + more);
    ReadBinToken(|s|, s + more);
  }

  lemma ReadEncTime(sec: int, nsec: nat, more: Bytes)
    requires IsInt64(sec) && nsec < TWO32
    ensures |EncTime(sec, nsec)| == 15
    ensures ReadTime(EncTime(sec, nsec) + more) == Some((sec, nsec, more))
  {
    var b, u := EncTime(sec, nsec) + more, if sec >= 0 then sec else sec + TWO64;
    assert b[..3] == TIME_HEAD;
    assert b[3..11] == ToBE(8, u);
    assert b[11..15] == ToBE(4, nsec);
    assert b[15..] == more;
    WidthExp(8);
    WidthExp(4);
    BigEndianRoundTrip(8, u);
    BigEndianRoundTrip(4, nsec);
  }

  lemma ReadStrsStep(n: nat, b: Bytes, s: Bytes, rest: Bytes, ss: seq<Bytes>, more: Bytes)
    requires ReadStr(b) == Some((s, rest)) && ReadStrs(n, rest) == Some((ss, more))
    ensures ReadStrs(n + 1, b) == Some(([s] + ss, more))
  {
  }

  lemma {:induction false} ReadEncStrs(ss: seq<Bytes>, more: Bytes, b: Bytes)
    requires forall i :: 0 <= i < |ss| ==> |ss[i]| < TWO32
    requires b == EncStrs(ss) + more
    ensures ReadStrs(|ss|, b) == Some((ss, more))
    decreases |ss|
  {
    hide ReadStr, EncStr;
    if ss != [] {
      var tail := EncStrs(ss[1..]) + more;
      ConcatSplit(StrParts(ss), more);
      assert StrParts(ss)[1..] == StrParts(ss[1..]);
      ReadEncStr(ss[0], tail);
      ReadEncStrs(ss[1..], more, tail);
      ReadStrsStep(|ss| - 1, b, ss[0], tail, ss[1..], more);
      assert [ss[0]] + ss[1..] == ss;
    } else {
      assert EncStrs(ss) + more == more;
    }
  }

  lemma ReadEncList(ss: seq<Bytes>, more: Bytes)
    requires |ss| < TWO32 && forall i :: 0 <= i < |ss| ==> |ss[i]| < TWO32
    ensures ReadList(EncArrHead(|ss|) + EncStrs(ss) + more) == Some((ss, more))
  {
    var h, l := EncArrHead(|ss|), EncStrs(ss);
    assert (h + l) + more == h + (l + more);
    ReadArrToken(|ss|, l + more);
    ReadEncStrs(ss, more, l + more);
  }

  lemma ReadEncBool(x: bool, more: Bytes)
    ensures ReadBool([if x then 0xc3 else 0xc2] + more) == Some((x, more))
  {
    var b: Bytes := [if x then 0xc3 else 0xc2];
    assert (b + more)[1..] == more;
  }

  lemma ReadEncInt(v: int, more: Bytes)
    requires IsInt64(v)
    ensures ReadInt(EncInt(v) + more) == Some((v, more))
  {
    ReadIntToken(v, more);
  }

  lemma ReadEncUint(v: nat, more: Bytes)
    requires v < TWO64
    ensures ReadUint(EncUint(v) + more) == Some((v, more))
  {
    ReadUintToken(v, more);
  }

  /** Every value is read back from its own bytes, whatever follows. */
  lemma ReadEncValue(k: Kind, v: Value, more: Bytes)
    requires Fits(k, v)
    ensures ReadValue(k, EncValue(k, v) + more) == Some((v, more))
  {
    match k
    case KindStr => ReadEncStr(v.s, more);
    case KindInt => ReadEncInt(v.i, more);
    case KindUint => ReadEncUint(v.u, more);
    case KindBool => ReadEncBool(v.b, more);
    case KindTime => ReadEncTime(v.sec, v.nsec, more);
    case KindBin => ReadEncBin(v.bin, more);
    case KindStrs => ReadEncList(v.strs, more);
  }

  // ----- size bounds: msgp's IntSize, StringPrefixSize and so on -----

  const INT_SIZE := 9
  const PREFIX_SIZE := 5
  const TIME_SIZE := 15

  function StrsSize(ss: seq<Bytes>): nat {
    if ss == [] then 0 else StrsSize(ss[..|ss| - 1]) + PREFIX_SIZE + |ss[|ss| - 1]|
  }

  function MaxSize(k: Kind, v: Value): nat {
    match (k, v)
    case (KindStr, VStr(s)) => PREFIX_SIZE + |s|
    case (KindInt, _) => INT_SIZE
    case (KindUint, _) => INT_SIZE
    case (KindBool, _) => 1
    case (KindTime, _) => TIME_SIZE
    case (KindBin, VBin(bin)) => PREFIX_SIZE + |bin|
    case (KindStrs, VStrs(strs)) => PREFIX_SIZE + StrsSize(strs)
    case _ => 0
  }

  lemma {:induction false} StrsWithinSize(ss: seq<Bytes>)
    ensures |EncStrs(ss)| <= StrsSize(ss)
    decreases |ss|
  {
    if ss != [] {
      StrsWithinSize(ss[..|ss| - 1]);
      assert StrParts(ss)[..|ss| - 1] == StrParts(ss[..|ss| - 1]);
    }
  }

  lemma ValueWithinSize(k: Kind, v: Value)
    ensures |EncValue(k, v)| <= MaxSize(k, v)
  {
    match (k, v)
    case (KindStrs, VStrs(strs)) => StrsWithinSize(strs);
    case (KindTime, VTime(sec, nsec)) => ReadEncTime(sec, nsec, []);
    case _ =>
  }

  // ----- what is read fits -----

  /** No length on the wire reaches 2^32. */
  lemma TokenLengthBound(b: Bytes)
    requires ReadToken(b).Some?
    ensures var t := ReadToken(b).value.0;
      && (t.Str? ==> t.len < TWO32) && (t.Bin? ==> t.len < TWO32) && (t.Arr? ==> t.n < TWO32)
  {
    var t := b[1..];
    forall w: nat | (w == 1 || w == 2 || w == 4) && |t| >= w ensures FromBE(t[..w]) < TWO32 {
      WidthExp(w);
    }
  }

  lemma ReadStrFits(b: Bytes)
    ensures ReadStr(b).Some? ==> |ReadStr(b).value.0| < TWO32
    ensures ReadBin(b).Some? ==> |ReadBin(b).value.0| < TWO32
    ensures ReadArrHead(b).Some? ==> ReadArrHead(b).value.0 < TWO32
  {
    hide ReadToken;
    if ReadToken(b).Some? {
      TokenLengthBound(b);
    }
  }

  lemma {:induction false} ReadStrsFit(n: nat, b: Bytes)
    requires ReadStrs(n, b).Some?
    ensures var ss := ReadStrs(n, b).value.0;
      |ss| == n && forall i :: 0 <= i < |ss| ==> |ss[i]| < TWO32
  {
    hide ReadStr;
    if n > 0 {
      ReadStrFits(b);
      ReadStrsFit(n - 1, ReadStr(b).value.1);
    }
  }

  /** Whatever is read as a value of a kind fits it. */
  lemma ReadValueFits(k: Kind, b: Bytes)
    requires ReadValue(k, b).Some?
    ensures Fits(k, ReadValue(k, b).value.0)
  {
    hide ReadStr, ReadBin, ReadArrHead, ReadStrs, ReadInt, ReadUint, ReadBool, ReadTime;
    ReadStrFits(b);
    if k == KindStrs {
      var (n, rest) := ReadArrHead(b).value;
      ReadStrsFit(n, rest);
    }
  }
}
