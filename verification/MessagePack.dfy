/** The MessagePack wire format, as far as the generated codecs need it: the
    appending functions in their shortest forms, and readers that take every
    format the specification's "Formats" section gives for a type. */
module MessagePack {
  import opened Base

  const TWO16: int := 0x1_0000
  const TWO32: int := 0x1_0000_0000
  const TWO64: int := 0x1_0000_0000_0000_0000

  type uint32 = v: int | 0 <= v < TWO32
  type uint64 = v: int | 0 <= v < TWO64
  type int64 = v: int | -TWO64 <= 2 * v < TWO64

  // ----- big-endian numbers -----

  // 256^w, for the widths in use.
  function Pow256(w: nat): nat
    requires w == 1 || w == 2 || w == 4 || w == 8
  {
    if w == 1 then 256 else if w == 2 then TWO16 else if w == 4 then TWO32 else TWO64
  }

  function FromBE(b: Bytes): (v: nat)
    ensures v < Exp256(|b|)
  {
    if b == [] then 0 else FromBE(b[..|b| - 1]) * 256 + b[|b| - 1] as int
  }

  function ToBE(w: nat, v: nat): (b: Bytes)
    ensures |b| == w
  {
    if w == 0 then [] else ToBE(w - 1, v / 256) + [(v % 256) as byte]
  }

  function Exp256(w: nat): nat { if w == 0 then 1 else 256 * Exp256(w - 1) }

  lemma {:induction false} BigEndianRoundTrip(w: nat, v: nat)
    requires v < Exp256(w)
    ensures FromBE(ToBE(w, v)) == v
  {
    if w > 0 {
      BigEndianRoundTrip(w - 1, v / 256);
      assert ToBE(w, v)[..w - 1] == ToBE(w - 1, v / 256);
    }
  }

  lemma WidthExp(w: nat)
    requires w == 1 || w == 2 || w == 4 || w == 8
    ensures Exp256(w) == Pow256(w)
  {
    assert Exp256(2) == 256 * Exp256(1);
    assert Exp256(4) == 256 * 256 * Exp256(2);
    assert Exp256(8) == 256 * 256 * 256 * 256 * Exp256(4);
  }

  // ----- pieces -----

  // Pieces put one after the other, as an encoder appends them.
  function Concat(parts: seq<Bytes>): Bytes {
    if parts == [] then [] else Concat(parts[..|parts| - 1]) + parts[|parts| - 1]
  }

  lemma {:induction false} ConcatFront(parts: seq<Bytes>)
    requires parts != []
    ensures Concat(parts) == parts[0] + Concat(parts[1..])
    decreases |parts|
  {
    if |parts| > 1 {
      var front, last := parts[..|parts| - 1], parts[|parts| - 1];
      ConcatFront(front);
      assert front[1..] == parts[1..][..|parts| - 2];
      assert (parts[0] + Concat(front[1..])) + last == parts[0] + (Concat(front[1..]) + last);
    }
  }

  // The first piece set apart from the rest and from what follows.
  lemma ConcatSplit(parts: seq<Bytes>, more: Bytes)
    requires parts != []
    ensures Concat(parts) + more == parts[0] + (Concat(parts[1..]) + more)
  {
    ConcatFront(parts);
    var a, b := parts[0], Concat(parts[1..]);
    assert (a + b) + more == a + (b + more);
  }

  // ----- tokens -----

  /** The head of a value: a complete scalar, or what is to follow. */
  datatype Token =
    | Int(v: int)
    | Str(len: nat)
    | Bin(len: nat)
    | Ext(tag: byte, len: nat)
    | Arr(n: nat)
    | Map(n: nat)
    | Bool(b: bool)
    | Nil
    | Float(len: nat)

  // What the token says follows it: raw bytes, and further values.
  function RawBytes(t: Token): nat {
    match t
    case Str(n) => n
    case Bin(n) => n
    case Ext(_, n) => n
    case Float(n) => n
    case _ => 0
  }

  function Children(t: Token): nat {
    match t
    case Arr(n) => n
    case Map(n) => 2 * n
    case _ => 0
  }

  datatype TokenKind = KUint | KInt | KStr | KBin | KArr | KMap | KExt

  function MakeToken(k: TokenKind, w: nat, v: nat, rest: Bytes): Option<(Token, Bytes)>
    requires w == 1 || w == 2 || w == 4 || w == 8
  {
    match k
    case KUint => Some((Int(v), rest))
    case KInt => Some((Int(if 2 * v < Pow256(w) then v else v - Pow256(w)), rest))
    case KStr => Some((Str(v), rest))
    case KBin => Some((Bin(v), rest))
    case KArr => Some((Arr(v), rest))
    case KMap => Some((Map(v), rest))
    case KExt => if |rest| < 1 then None else Some((Ext(rest[0], v), rest[1..]))
  }

  // A token whose number stands in the next w bytes.
  function Wide(k: TokenKind, w: nat, b: Bytes): Option<(Token, Bytes)>
    requires w == 1 || w == 2 || w == 4 || w == 8
  {
    if |b| < w then None else MakeToken(k, w, FromBE(b[..w]), b[w..])
  }

  // fixext: one type byte, then n bytes.
  function FixExt(n: nat, b: Bytes): Option<(Token, Bytes)> {
    if |b| < 1 then None else Some((Ext(b[0], n), b[1..]))
  }

  /** The head of any MessagePack value. */
  function ReadToken(b: Bytes): (r: Option<(Token, Bytes)>)
    ensures r.Some? ==> |r.value.1| < |b|
  {
    if b == [] then None
    else
      var c, t := b[0] as int, b[1..];
      if c < 0x80 then Some((Int(c), t))
      else if c < 0x90 then Some((Map(c - 0x80), t))
      else if c < 0xa0 then Some((Arr(c - 0x90), t))
      else if c < 0xc0 then Some((Str(c - 0xa0), t))
      else if c >= 0xe0 then Some((Int(c - 256), t))
      else if c < 0xca then
        match c
        case 0xc0 => Some((Nil, t))
        case 0xc2 => Some((Bool(false), t))
        case 0xc3 => Some((Bool(true), t))
        case 0xc4 => Wide(KBin, 1, t)
        case 0xc5 => Wide(KBin, 2, t)
        case 0xc6 => Wide(KBin, 4, t)
        case 0xc7 => Wide(KExt, 1, t)
        case 0xc8 => Wide(KExt, 2, t)
        case 0xc9 => Wide(KExt, 4, t)
        case _ => None
      else if c < 0xd4 then
        match c
        case 0xca => Some((Float(4), t))
        case 0xcb => Some((Float(8), t))
        case 0xcc => Wide(KUint, 1, t)
        case 0xcd => Wide(KUint, 2, t)
        case 0xce => Wide(KUint, 4, t)
        case 0xcf => Wide(KUint, 8, t)
        case 0xd0 => Wide(KInt, 1, t)
        case 0xd1 => Wide(KInt, 2, t)
        case 0xd2 => Wide(KInt, 4, t)
        case _ => Wide(KInt, 8, t)
      else
        match c
        case 0xd4 => FixExt(1, t)
        case 0xd5 => FixExt(2, t)
        case 0xd6 => FixExt(4, t)
        case 0xd7 => FixExt(8, t)
        case 0xd8 => FixExt(16, t)
        case 0xd9 => Wide(KStr, 1, t)
        case 0xda => Wide(KStr, 2, t)
        case 0xdb => Wide(KStr, 4, t)
        case 0xdc => Wide(KArr, 2, t)
        case 0xdd => Wide(KArr, 4, t)
        case 0xde => Wide(KMap, 2, t)
        case _ => Wide(KMap, 4, t)
  }

  // ----- skipping -----

  /** Skip over `pending` values.  The library's recursive Skip visits the
      same heads in the same order. */
  function SkipMany(pending: nat, b: Bytes): (r: Option<Bytes>)
    ensures r.Some? ==> |r.value| <= |b|
    decreases |b|, pending
  {
    if pending == 0 then Some(b)
    else
      match ReadToken(b)
      case None => None
      case Some((t, rest)) =>
        if |rest| < RawBytes(t) then None
        else SkipMany(pending - 1 + Children(t), rest[RawBytes(t)..])
  }

  function Skip(b: Bytes): Option<Bytes> { SkipMany(1, b) }

  // ----- appending: lengths past 2^32 are cut to their low 32 bits -----

  // A width-w head: a format byte and a big-endian number.
  function Head(c: byte, w: nat, v: nat): Bytes { [c] + ToBE(w, v) }

  function EncUint(v: nat): Bytes
    requires v < TWO64
  {
    if v < 0x80 then [v as byte]
    else if v < 256 then Head(0xcc, 1, v)
    else if v < TWO16 then Head(0xcd, 2, v)
    else if v < TWO32 then Head(0xce, 4, v)
    else Head(0xcf, 8, v)
  }

  predicate IsInt64(v: int) { -TWO64 <= 2 * v < TWO64 }

  function EncInt(v: int): Bytes
    requires IsInt64(v)
  {
    if v >= 0 then EncUint(v)
    else if v >= -32 then [(256 + v) as byte]
    else if v >= -128 then Head(0xd0, 1, 256 + v)
    else if v >= -0x8000 then Head(0xd1, 2, TWO16 + v)
    else if v >= -0x8000_0000 then Head(0xd2, 4, TWO32 + v)
    else Head(0xd3, 8, TWO64 + v)
  }

  function EncStrHead(n: nat): Bytes {
    if n < 32 then [(0xa0 + n) as byte]
    else if n < 256 then Head(0xd9, 1, n)
    else if n < TWO16 then Head(0xda, 2, n)
    else Head(0xdb, 4, n)
  }

  function EncBinHead(n: nat): Bytes {
    if n < 256 then Head(0xc4, 1, n)
    else if n < TWO16 then Head(0xc5, 2, n)
    else Head(0xc6, 4, n)
  }

  function EncArrHead(n: nat): Bytes {
    if n < 16 then [(0x90 + n) as byte]
    else if n < TWO16 then Head(0xdc, 2, n)
    else Head(0xdd, 4, n)
  }

  function EncMapHead(n: nat): Bytes {
    if n < 16 then [(0x80 + n) as byte]
    else if n < TWO16 then Head(0xde, 2, n)
    else Head(0xdf, 4, n)
  }

  lemma WideHead(k: TokenKind, c: byte, w: nat, v: nat, more: Bytes)
    requires w == 1 || w == 2 || w == 4 || w == 8
    requires v < Pow256(w)
    ensures (Head(c, w, v) + more)[0] == c
    ensures Wide(k, w, (Head(c, w, v) + more)[1..]) == MakeToken(k, w, v, more)
    ensures (Head(c, w, v) + more) != []
  {
    var b := Head(c, w, v) + more;
    assert b[1..] == ToBE(w, v) + more;
    assert b[1..][..w] == ToBE(w, v);
    assert b[1..][w..] == more;
    WidthExp(w);
    BigEndianRoundTrip(w, v);
  }

  lemma ReadUintToken(v: nat, more: Bytes)
    requires v < TWO64
    ensures ReadToken(EncUint(v) + more) == Some((Int(v), more))
  {
    if v < 0x80 {
      assert ([v as byte] + more)[1..] == more;
    } else if v < 256 {
      WideHead(KUint, 0xcc, 1, v, more);
    } else if v < TWO16 {
      WideHead(KUint, 0xcd, 2, v, more);
    } else if v < TWO32 {
      WideHead(KUint, 0xce, 4, v, more);
    } else {
      WideHead(KUint, 0xcf, 8, v, more);
    }
  }

  lemma ReadIntToken(v: int, more: Bytes)
    requires IsInt64(v)
    ensures ReadToken(EncInt(v) + more) == Some((Int(v), more))
  {
    if v >= 0 {
      ReadUintToken(v, more);
    } else if v >= -32 {
      assert ([(256 + v) as byte] + more)[1..] == more;
    } else if v >= -128 {
      WideHead(KInt, 0xd0, 1, 256 + v, more);
    } else if v >= -0x8000 {
      WideHead(KInt, 0xd1, 2, TWO16 + v, more);
    } else if v >= -0x8000_0000 {
      WideHead(KInt, 0xd2, 4, TWO32 + v, more);
    } else {
      WideHead(KInt, 0xd3, 8, TWO64 + v, more);
    }
  }

  lemma ReadStrToken(n: nat, more: Bytes)
    requires n < TWO32
    ensures ReadToken(EncStrHead(n) + more) == Some((Str(n), more))
  {
    if n < 32 {
      assert ([(0xa0 + n) as byte] + more)[1..] == more;
    } else if n < 256 {
      WideHead(KStr, 0xd9, 1, n, more);
    } else if n < TWO16 {
      WideHead(KStr, 0xda, 2, n, more);
    } else {
      WideHead(KStr, 0xdb, 4, n, more);
    }
  }

  lemma ReadBinToken(n: nat, more: Bytes)
    requires n < TWO32
    ensures ReadToken(EncBinHead(n) + more) == Some((Bin(n), more))
  {
    if n < 256 {
      WideHead(KBin, 0xc4, 1, n, more);
    } else if n < TWO16 {
      WideHead(KBin, 0xc5, 2, n, more);
    } else {
      WideHead(KBin, 0xc6, 4, n, more);
    }
  }

  lemma ReadArrToken(n: nat, more: Bytes)
    requires n < TWO32
    ensures ReadToken(EncArrHead(n) + more) == Some((Arr(n), more))
  {
    if n < 16 {
      assert ([(0x90 + n) as byte] + more)[1..] == more;
    } else if n < TWO16 {
      WideHead(KArr, 0xdc, 2, n, more);
    } else {
      WideHead(KArr, 0xdd, 4, n, more);
    }
  }

  lemma ReadMapToken(n: nat, more: Bytes)
    requires n < TWO32
    ensures ReadToken(EncMapHead(n) + more) == Some((Map(n), more))
  {
    if n < 16 {
      assert ([(0x80 + n) as byte] + more)[1..] == more;
    } else if n < TWO16 {
      WideHead(KMap, 0xde, 2, n, more);
    } else {
      WideHead(KMap, 0xdf, 4, n, more);
    }
  }
}
