/** The values of MessagePack, as the "Formats" section of its specification
    defines them, in every format a writer may choose; and Skip against it. */
module MessagePackGrammar {
  import opened Base
  import opened MessagePack
  import V = MessagePackValues

  // An array, map, string, binary or extension says its length in `width`
  // bytes; width 0 is the form whose length is part of the first byte.  The
  // items of a map are its keys and values by turns.
  datatype Value =
    | VNil
    | VBool(b: bool)
    | PositiveFixint(v: nat)
    | NegativeFixint(v: nat)
    | Unsigned(width: nat, v: nat)
    | Signed(width: nat, v: nat)           // v is the two's complement
    | VFloat(width: nat, bits: Bytes)
    | Text(width: nat, text: Bytes)
    | Binary(width: nat, data: Bytes)
    | Extension(width: nat, tag: byte, data: Bytes)
    | Array(width: nat, elems: seq<Value>)
    | Dictionary(width: nat, n: nat, items: seq<Value>)

  predicate FitsIn(n: nat, width: nat) { (width == 1 || width == 2 || width == 4 || width == 8) && n < Pow256(width) }

  // The specification's limits on each format.
  predicate Valid(m: Value) {
    match m
    case VNil => true
    case VBool(_) => true
    case PositiveFixint(v) => v <= 0x7f
    case NegativeFixint(v) => 0xe0 <= v <= 0xff
    case Unsigned(w, v) => FitsIn(v, w)
    case Signed(w, v) => FitsIn(v, w)
    case VFloat(w, bits) => (w == 4 || w == 8) && |bits| == w
    case Text(w, text) => if w == 0 then |text| <= 31 else w <= 4 && FitsIn(|text|, w)
    case Binary(w, data) => w <= 4 && FitsIn(|data|, w)
    case Extension(w, _, data) =>
      if w == 0 then |data| == 1 || |data| == 2 || |data| == 4 || |data| == 8 || |data| == 16
      else w <= 4 && FitsIn(|data|, w)
    case Array(w, elems) =>
      && (if w == 0 then |elems| <= 15 else 2 <= w <= 4 && FitsIn(|elems|, w))
      && forall i :: 0 <= i < |elems| ==> Valid(elems[i])
    case Dictionary(w, n, items) =>
      && |items| == 2 * n
      && (if w == 0 then n <= 15 else 2 <= w <= 4 && FitsIn(n, w))
      && forall i :: 0 <= i < |items| ==> Valid(items[i])
  }

  predicate AllValid(ms: seq<Value>) { forall i :: 0 <= i < |ms| ==> Valid(ms[i]) }

  // A first byte, and a number behind it.
  function Lead(c: byte, width: nat, n: nat): Bytes { [c] + ToBE(width, n) }

  /** What comes before the contents: the first byte is the one the
      specification gives the format. */
  function Opening(m: Value): Bytes
    requires Valid(m)
  {
    match m
    case VNil => [0xc0]
    case VBool(b) => [if b then 0xc3 else 0xc2]
    case PositiveFixint(v) => [v as byte]
    case NegativeFixint(v) => [v as byte]
    case Unsigned(w, v) => Lead(if w == 1 then 0xcc else if w == 2 then 0xcd else if w == 4 then 0xce else 0xcf, w, v)
    case Signed(w, v) => Lead(if w == 1 then 0xd0 else if w == 2 then 0xd1 else if w == 4 then 0xd2 else 0xd3, w, v)
    case VFloat(w, _) => [if w == 4 then 0xca else 0xcb]
    case Text(w, text) =>
      if w == 0 then [(0xa0 + |text|) as byte]
      else Lead(if w == 1 then 0xd9 else if w == 2 then 0xda else 0xdb, w, |text|)
    case Binary(w, data) => Lead(if w == 1 then 0xc4 else if w == 2 then 0xc5 else 0xc6, w, |data|)
    case Extension(w, tag, data) =>
      (if w == 0 then [FixextByte(|data|)]
       else Lead(if w == 1 then 0xc7 else if w == 2 then 0xc8 else 0xc9, w, |data|)) + [tag]
    case Array(w, elems) =>
      if w == 0 then [(0x90 + |elems|) as byte] else Lead(if w == 2 then 0xdc else 0xdd, w, |elems|)
    case Dictionary(w, n, _) =>
      if w == 0 then [(0x80 + n) as byte] else Lead(if w == 2 then 0xde else 0xdf, w, n)
  }

  function FixextByte(n: nat): byte {
    if n == 1 then 0xd4 else if n == 2 then 0xd5 else if n == 4 then 0xd6 else if n == 8 then 0xd7 else 0xd8
  }

  function Contents(m: Value): Bytes {
    match m
    case VFloat(_, bits) => bits
    case Text(_, text) => text
    case Binary(_, data) => data
    case Extension(_, _, data) => data
    case _ => []
  }

  function Inside(m: Value): seq<Value> {
    match m
    case Array(_, elems) => elems
    case Dictionary(_, _, items) => items
    case _ => []
  }

  /** The bytes of a value. */
  function Enc(m: Value): Bytes
    requires Valid(m)
    decreases m
  {
    Opening(m) + Contents(m) +
    match m
    case Array(_, elems) => EncAll(elems)
    case Dictionary(_, _, items) => EncAll(items)
    case _ => []
  }

  function EncAll(ms: seq<Value>): Bytes
    requires AllValid(ms)
    decreases ms
  {
    if ms == [] then [] else Enc(ms[0]) + EncAll(ms[1..])
  }

  /** The bytes are one value, in some format. */
  ghost predicate IsValue(b: Bytes) { exists m :: Valid(m) && Enc(m) == b }

  // ----- every value is skipped whole -----

  lemma EncIs(m: Value)
    requires Valid(m)
    ensures AllValid(Inside(m)) && Enc(m) == Opening(m) + Contents(m) + EncAll(Inside(m))
  {}

  // The head that Skip makes of a value.
  function Announced(m: Value): Token {
    match m
    case VNil => Token.Nil
    case VBool(b) => Token.Bool(b)
    case PositiveFixint(v) => Token.Int(v)
    case NegativeFixint(v) => Token.Int(v - 256)
    case Unsigned(w, v) => Token.Int(v)
    case Signed(w, v) => Token.Int(if FitsIn(v, w) && 2 * v >= Pow256(w) then v - Pow256(w) else v)
    case VFloat(w, _) => Token.Float(w)
    case Text(_, text) => Token.Str(|text|)
    case Binary(_, data) => Token.Bin(|data|)
    case Extension(_, tag, data) => Token.Ext(tag, |data|)
    case Array(_, elems) => Token.Arr(|elems|)
    case Dictionary(_, n, _) => Token.Map(n)
  }

  lemma ReadLead(k: TokenKind, c: byte, w: nat, n: nat, more: Bytes)
    requires FitsIn(n, w)
    ensures var b := Lead(c, w, n) + more; b != [] && b[0] == c && Wide(k, w, b[1..]) == MakeToken(k, w, n, more)
  {
    WideHead(k, c, w, n, more);
  }

  lemma ReadShort(c: byte, more: Bytes)
    ensures ([c] + more)[0] == c && ([c] + more)[1..] == more
  {}

  lemma ReadScalar(m: Value, more: Bytes)
    requires Valid(m) && (m.VNil? || m.VBool? || m.PositiveFixint? || m.NegativeFixint? || m.VFloat?)
    ensures ReadToken(Opening(m) + more) == Some((Announced(m), more))
  {
    ReadShort(Opening(m)[0], more);
  }

  lemma ReadNumber(m: Value, more: Bytes)
    requires Valid(m) && (m.Unsigned? || m.Signed?)
    ensures ReadToken(Opening(m) + more) == Some((Announced(m), more))
  {
    ReadLead(if m.Unsigned? then KUint else KInt, Opening(m)[0], m.width, m.v, more);
  }

  // The kind of a value whose length is written out, and the length.
  function LengthKind(m: Value): TokenKind {
    if m.Text? then KStr else if m.Binary? then KBin else if m.Array? then KArr else KMap
  }

  function Length(m: Value): nat {
    match m
    case Text(_, text) => |text|
    case Binary(_, data) => |data|
    case Array(_, elems) => |elems|
    case Dictionary(_, n, _) => n
    case _ => 0
  }

  lemma ReadShortLength(m: Value, more: Bytes)
    requires Valid(m) && (m.Text? || m.Array? || m.Dictionary?) && m.width == 0
    ensures ReadToken(Opening(m) + more) == Some((Announced(m), more))
  {
    hide Wide;
    ReadShort(Opening(m)[0], more);
  }

  lemma ReadLongLength(m: Value, more: Bytes)
    requires Valid(m) && (m.Text? || m.Binary? || m.Array? || m.Dictionary?) && m.width != 0
    ensures ReadToken(Opening(m) + more) == Some((Announced(m), more))
  {
    LongLead(m);
    ReadLead(LengthKind(m), Opening(m)[0], m.width, Length(m), more);
    hide Wide, Lead, Opening, Valid;
  }

  lemma LongLead(m: Value)
    requires Valid(m) && (m.Text? || m.Binary? || m.Array? || m.Dictionary?) && m.width != 0
    ensures Opening(m) == Lead(Opening(m)[0], m.width, Length(m)) && FitsIn(Length(m), m.width)
  {}

  lemma ReadFixext(m: Value, more: Bytes)
    requires Valid(m) && m.Extension? && m.width == 0
    ensures ReadToken(Opening(m) + more) == Some((Announced(m), more))
  {
    hide Wide;
    ReadShort(m.tag, more);
    ReadShort(FixextByte(|m.data|), [m.tag] + more);
    assert Opening(m) + more == [FixextByte(|m.data|)] + ([m.tag] + more);
  }

  lemma ReadExt(m: Value, more: Bytes)
    requires Valid(m) && m.Extension? && m.width != 0
    ensures ReadToken(Opening(m) + more) == Some((Announced(m), more))
  {
    var c := if m.width == 1 then 0xc7 else if m.width == 2 then 0xc8 else 0xc9;
    var lead := Lead(c, m.width, |m.data|);
    assert Opening(m) == lead + [m.tag];
    assert Opening(m) + more == lead + ([m.tag] + more);
    ReadShort(m.tag, more);
    ReadLead(KExt, c, m.width, |m.data|, [m.tag] + more);
    hide Opening, Lead, Wide, Valid;
  }

  lemma ReadOpening(m: Value, more: Bytes)
    requires Valid(m)
    ensures ReadToken(Opening(m) + more) == Some((Announced(m), more))
    ensures RawBytes(Announced(m)) == |Contents(m)|
    ensures Children(Announced(m)) == |Inside(m)|
  {
    hide ReadToken, Opening;
    match m
    case Text(w, _) => if w == 0 { ReadShortLength(m, more); } else { ReadLongLength(m, more); }
    case Binary(_, _) => ReadLongLength(m, more);
    case Array(w, _) => if w == 0 { ReadShortLength(m, more); } else { ReadLongLength(m, more); }
    case Dictionary(w, _, _) => if w == 0 { ReadShortLength(m, more); } else { ReadLongLength(m, more); }
    case Extension(w, _, _) => if w == 0 { ReadFixext(m, more); } else { ReadExt(m, more); }
    case Unsigned(_, _) => ReadNumber(m, more);
    case Signed(_, _) => ReadNumber(m, more);
    case _ => ReadScalar(m, more);
  }

  lemma {:induction false} SkipValue(pending: nat, m: Value, more: Bytes)
    requires Valid(m)
    ensures SkipMany(pending + 1, Enc(m) + more) == SkipMany(pending, more)
    decreases m
  {
    hide ReadToken, Opening, Contents, Enc, EncAll, Announced;
    EncIs(m);
    var inner := EncAll(Inside(m)) + more;
    assert Enc(m) + more == Opening(m) + (Contents(m) + inner);
    ReadOpening(m, Contents(m) + inner);
    assert (Contents(m) + inner)[|Contents(m)|..] == inner;
    match m
    case Array(_, elems) => SkipAll(pending, elems, more);
    case Dictionary(_, _, items) => SkipAll(pending, items, more);
    case _ =>
      NothingInside();
      assert inner == more;
  }

  lemma NothingInside()
    ensures EncAll([]) == []
  {}

  lemma {:induction false} SkipAll(pending: nat, ms: seq<Value>, more: Bytes)
    requires AllValid(ms)
    ensures SkipMany(pending + |ms|, EncAll(ms) + more) == SkipMany(pending, more)
    decreases ms
  {
    hide SkipMany;
    if ms == [] {
      assert EncAll(ms) + more == more;
    } else {
      var rest := EncAll(ms[1..]) + more;
      assert EncAll(ms) + more == Enc(ms[0]) + rest;
      SkipValue(pending + |ms| - 1, ms[0], rest);
      SkipAll(pending, ms[1..], more);
    }
  }

  // ----- whatever is skipped whole is a value -----

  lemma {:induction false} NumberBack(b: Bytes)
    ensures ToBE(|b|, FromBE(b)) == b
  {
    if b != [] {
      var front, last := b[..|b| - 1], b[|b| - 1];
      NumberBack(front);
      assert FromBE(b) / 256 == FromBE(front) && FromBE(b) % 256 == last as int;
    }
  }

  lemma LeadBack(k: TokenKind, c: byte, w: nat, t: Bytes)
    requires w == 1 || w == 2 || w == 4 || w == 8
    requires Wide(k, w, t).Some?
    ensures FitsIn(FromBE(t[..w]), w) && Lead(c, w, FromBE(t[..w])) + t[w..] == [c] + t
  {
    NumberBack(t[..w]);
    WidthExp(w);
    assert [c] + t[..w] + t[w..] == [c] + t;
  }

  // The value with this head and these contents.
  ghost predicate Rebuilds(m: Value, b: Bytes, t: Token, rest: Bytes, raw: Bytes, inside: seq<Value>) {
    Valid(m) && Opening(m) + rest == b && Contents(m) == raw && Inside(m) == inside
  }

  // What is known when a head has been read and its contents are at hand.
  ghost predicate Reads(b: Bytes, t: Token, rest: Bytes, raw: Bytes, inside: seq<Value>) {
    && ReadToken(b) == Some((t, rest)) && |raw| == RawBytes(t) && |inside| == Children(t) && AllValid(inside)
  }

  lemma FixBack(b: Bytes, t: Token, rest: Bytes, raw: Bytes, inside: seq<Value>) returns (m: Value)
    requires Reads(b, t, rest, raw, inside) && (b[0] < 0xc0 || b[0] >= 0xe0)
    ensures Rebuilds(m, b, t, rest, raw, inside)
  {
    var c := b[0] as int;
    assert b == [b[0]] + b[1..];
    m := if c < 0x80 then PositiveFixint(c)
         else if c < 0x90 then Dictionary(0, c - 0x80, inside)
         else if c < 0xa0 then Array(0, inside)
         else if c < 0xc0 then Text(0, raw)
         else NegativeFixint(c);
  }

  lemma LowBack(b: Bytes, t: Token, rest: Bytes, raw: Bytes, inside: seq<Value>) returns (m: Value)
    requires Reads(b, t, rest, raw, inside) && 0xc0 <= b[0] < 0xc7
    ensures Rebuilds(m, b, t, rest, raw, inside)
  {
    assert b == [b[0]] + b[1..];
    if b[0] < 0xc4 {
      m := if b[0] == 0xc0 then VNil else VBool(b[0] == 0xc3);
    } else {
      var w := if b[0] == 0xc4 then 1 else if b[0] == 0xc5 then 2 else 4;
      LeadBack(KBin, b[0], w, b[1..]);
      m := Binary(w, raw);
    }
  }

  lemma NumberHeadBack(b: Bytes, t: Token, rest: Bytes, raw: Bytes, inside: seq<Value>) returns (m: Value)
    requires Reads(b, t, rest, raw, inside) && 0xca <= b[0] < 0xd4
    ensures Rebuilds(m, b, t, rest, raw, inside)
  {
    var c := b[0];
    assert b == [c] + b[1..];
    if c < 0xcc {
      m := VFloat(if c == 0xca then 4 else 8, raw);
    } else {
      var w := if c == 0xcc || c == 0xd0 then 1 else if c == 0xcd || c == 0xd1 then 2
               else if c == 0xce || c == 0xd2 then 4 else 8;
      LeadBack(if c < 0xd0 then KUint else KInt, c, w, b[1..]);
      var v := FromBE(b[1..][..w]);
      m := if c < 0xd0 then Unsigned(w, v) else Signed(w, v);
    }
  }

  lemma TextBack(b: Bytes, t: Token, rest: Bytes, raw: Bytes, inside: seq<Value>) returns (m: Value)
    requires Reads(b, t, rest, raw, inside) && 0xd9 <= b[0] < 0xdc
    ensures Rebuilds(m, b, t, rest, raw, inside)
  {
    var c := b[0];
    var w := if c == 0xd9 then 1 else if c == 0xda then 2 else 4;
    assert b == [c] + b[1..] && Wide(KStr, w, b[1..]) == Some((t, rest));
    LeadBack(KStr, c, w, b[1..]);
    m := Text(w, raw);
  }

  lemma ArrayBack(b: Bytes, t: Token, rest: Bytes, raw: Bytes, inside: seq<Value>) returns (m: Value)
    requires Reads(b, t, rest, raw, inside) && 0xdc <= b[0] < 0xde
    ensures Rebuilds(m, b, t, rest, raw, inside)
  {
    var c, w := b[0], if b[0] == 0xdc then 2 else 4;
    assert b == [c] + b[1..] && Wide(KArr, w, b[1..]) == Some((t, rest));
    LeadBack(KArr, c, w, b[1..]);
    m := Array(w, inside);
  }

  lemma DictionaryBack(b: Bytes, t: Token, rest: Bytes, raw: Bytes, inside: seq<Value>) returns (m: Value)
    requires Reads(b, t, rest, raw, inside) && 0xde <= b[0] < 0xe0
    ensures Rebuilds(m, b, t, rest, raw, inside)
  {
    var c, w := b[0], if b[0] == 0xde then 2 else 4;
    assert b == [c] + b[1..] && Wide(KMap, w, b[1..]) == Some((t, rest));
    LeadBack(KMap, c, w, b[1..]);
    m := Dictionary(w, FromBE(b[1..][..w]), inside);
  }

  lemma FixextBack(b: Bytes, t: Token, rest: Bytes, raw: Bytes, inside: seq<Value>) returns (m: Value)
    requires Reads(b, t, rest, raw, inside) && 0xd4 <= b[0] < 0xd9
    ensures Rebuilds(m, b, t, rest, raw, inside)
  {
    hide Wide;
    var c, tail := b[0], b[1..];
    assert b == [c] + tail;
    m := Extension(0, tail[0], raw);
    assert tail == [tail[0]] + tail[1..];
    assert [c] + [tail[0]] + tail[1..] == b;
  }

  lemma ExtBack(b: Bytes, t: Token, rest: Bytes, raw: Bytes, inside: seq<Value>) returns (m: Value)
    requires Reads(b, t, rest, raw, inside) && 0xc7 <= b[0] < 0xca
    ensures Rebuilds(m, b, t, rest, raw, inside)
  {
    var c := b[0];
    var w := if c == 0xc7 then 1 else if c == 0xc8 then 2 else 4;
    assert b == [c] + b[1..] && Wide(KExt, w, b[1..]) == Some((t, rest));
    LeadBack(KExt, c, w, b[1..]);
    var n, tail := FromBE(b[1..][..w]), b[1..][w..];
    assert t == Token.Ext(tail[0], n) && rest == tail[1..];
    m := Extension(w, tail[0], raw);
    hide ReadToken, Wide, FromBE, Lead;
    assert tail == [tail[0]] + tail[1..];
    assert Lead(c, w, n) + [tail[0]] + tail[1..] == Lead(c, w, n) + tail;
  }

  lemma HeadBack(b: Bytes, t: Token, rest: Bytes, raw: Bytes, inside: seq<Value>) returns (m: Value)
    requires Reads(b, t, rest, raw, inside)
    ensures Rebuilds(m, b, t, rest, raw, inside)
  {
    NotEmpty(b);
    NoOther(b);
    hide Reads, Rebuilds;
    var c := b[0];
    if c < 0xc0 || c >= 0xe0 {
      m := FixBack(b, t, rest, raw, inside);
    } else if c < 0xc7 {
      m := LowBack(b, t, rest, raw, inside);
    } else if c < 0xca {
      m := ExtBack(b, t, rest, raw, inside);
    } else if c < 0xd4 {
      m := NumberHeadBack(b, t, rest, raw, inside);
    } else if c < 0xd9 {
      m := FixextBack(b, t, rest, raw, inside);
    } else if c < 0xdc {
      m := TextBack(b, t, rest, raw, inside);
    } else if c < 0xde {
      m := ArrayBack(b, t, rest, raw, inside);
    } else {
      m := DictionaryBack(b, t, rest, raw, inside);
    }
  }

  lemma NotEmpty(b: Bytes)
    requires ReadToken(b).Some?
    ensures b != []
  {}

  lemma NoOther(b: Bytes)
    requires b != []
    ensures b[0] == 0xc1 ==> ReadToken(b).None?
  {}

  lemma {:induction false} EncAllAppend(a: seq<Value>, b: seq<Value>)
    requires AllValid(a) && AllValid(b)
    ensures AllValid(a + b) && EncAll(a + b) == EncAll(a) + EncAll(b)
    decreases a
  {
    hide Enc;
    if a == [] {
      assert a + b == b;
    } else {
      assert (a + b)[1..] == a[1..] + b;
      EncAllAppend(a[1..], b);
      assert Enc(a[0]) + (EncAll(a[1..]) + EncAll(b)) == Enc(a[0]) + EncAll(a[1..]) + EncAll(b);
    }
  }

  // A value before others, from its head, its contents and what is inside.
  lemma OneMoreValue(m: Value, others: seq<Value>, b: Bytes, rest: Bytes, r: nat, left: Bytes)
    requires Valid(m) && AllValid(others) && r <= |rest|
    requires Opening(m) + rest == b && Contents(m) == rest[..r] && AllValid(Inside(m) + others)
    requires EncAll(Inside(m) + others) + left == rest[r..]
    ensures AllValid([m] + others) && EncAll([m] + others) + left == b
  {
    hide Opening, Contents, Inside, Enc;
    EncIs(m);
    var inside, ms := Inside(m), [m] + others;
    EncAllAppend(inside, others);
    assert ms[1..] == others;
    assert rest == rest[..r] + rest[r..];
    assert Opening(m) + (rest[..r] + ((EncAll(inside) + EncAll(others)) + left))
      == ((Opening(m) + rest[..r] + EncAll(inside)) + EncAll(others)) + left;
  }

  lemma {:induction false} SkippedAreValues(pending: nat, b: Bytes) returns (ms: seq<Value>)
    requires SkipMany(pending, b).Some?
    ensures |ms| == pending && AllValid(ms) && EncAll(ms) + SkipMany(pending, b).value == b
    decreases |b|
  {
    hide ReadToken, Opening, Contents, Inside, Valid, Enc, EncAll;
    if pending == 0 {
      ms := [];
      NothingInside();
      assert [] + b == b;
    } else {
      var (t, rest) := ReadToken(b).value;
      var r, k := RawBytes(t), Children(t);
      var inner := SkippedAreValues(pending - 1 + k, rest[r..]);
      var m := HeadBack(b, t, rest, rest[..r], inner[..k]);
      assert inner == inner[..k] + inner[k..];
      OneMoreValue(m, inner[k..], b, rest, r, SkipMany(pending, b).value);
      ms := [m] + inner[k..];
    }
  }

  /** Skip passes over exactly one value of the specification: whatever value
      it is and whatever follows, and nothing else. */
  lemma SkipExactly(b: Bytes, more: Bytes)
    ensures IsValue(b) ==> Skip(b + more) == Some(more)
    ensures Skip(b) == Some([]) <==> IsValue(b)
  {
    if IsValue(b) {
      SkipOne(b, more);
      SkipOne(b, []);
      assert b + [] == b;
    }
    if Skip(b) == Some([]) {
      var ms := SkippedAreValues(1, b);
      OnlyOne(ms);
      assert EncAll(ms) + [] == b;
    }
  }

  lemma SkipOne(b: Bytes, more: Bytes)
    requires IsValue(b)
    ensures Skip(b + more) == Some(more)
  {
    hide ReadToken, Enc, Valid;
    var m :| Valid(m) && Enc(m) == b;
    SkipValue(0, m, more);
  }

  lemma OnlyOne(ms: seq<Value>)
    requires |ms| == 1 && AllValid(ms)
    ensures EncAll(ms) == Enc(ms[0])
  {
    hide Enc;
    assert ms[1..] == [];
  }

  // ----- the typed readers -----

  // The integer a value stands for, if it is one.
  function IntegerOf(m: Value): Option<int> {
    match m
    case PositiveFixint(v) => Some(v)
    case NegativeFixint(v) => Some(v - 256)
    case Unsigned(_, v) => Some(v)
    case Signed(w, v) => Some(if FitsIn(v, w) && 2 * v >= Pow256(w) then v - Pow256(w) else v)
    case _ => None
  }

  /** A string, a byte string, an integer or a boolean is read back from any
      format a writer may have chosen for it, not only the shortest. */
  lemma ReadsAnyFormat(m: Value, more: Bytes)
    requires Valid(m)
    ensures m.Text? ==> V.ReadStr(Enc(m) + more) == Some((m.text, more))
    ensures m.Binary? ==> V.ReadBin(Enc(m) + more) == Some((m.data, more))
    ensures m.VBool? ==> V.ReadBool(Enc(m) + more) == Some((m.b, more))
    ensures IntegerOf(m).Some? ==>
      var v := IntegerOf(m).value;
      && (IsInt64(v) ==> V.ReadInt(Enc(m) + more) == Some((v, more)))
      && (0 <= v < TWO64 ==> V.ReadUint(Enc(m) + more) == Some((v, more)))
  {
    hide ReadToken, Opening, Enc, EncAll;
    if !m.Array? && !m.Dictionary? {
      EncIs(m);
      NothingInside();
      var rest := Contents(m) + more;
      assert Enc(m) + more == Opening(m) + rest;
      ReadOpening(m, rest);
      assert rest[..|Contents(m)|] == Contents(m) && rest[|Contents(m)|..] == more;
      assert [] + more == more;
    }
  }

  // ReadToken's answer on a string that is all there comes from a value.
  lemma ScalarBack(b: Bytes) returns (m: Value)
    requires ReadToken(b).Some?
    requires var (t, rest) := ReadToken(b).value; Children(t) == 0 && RawBytes(t) <= |rest|
    ensures var (t, rest) := ReadToken(b).value;
      && Valid(m) && Announced(m) == t && Contents(m) == rest[..RawBytes(t)]
      && Enc(m) + rest[RawBytes(t)..] == b
  {
    hide ReadToken, Opening, Enc, EncAll, Valid, Announced, Contents;
    var (t, rest) := ReadToken(b).value;
    var n := RawBytes(t);
    m := HeadBack(b, t, rest, rest[..n], []);
    ReadOpening(m, rest);
    EncIs(m);
    NothingInside();
    assert rest[..n] + rest[n..] == rest;
    assert Opening(m) + rest[..n] + [] + rest[n..] == Opening(m) + (rest[..n] + rest[n..]);
  }

  // The input begins with this value.
  predicate Begins(b: Bytes, m: Value, rest: Bytes) { Valid(m) && Enc(m) + rest == b }

  /** And nothing but a string is read as a string, and so on: what a reader
      accepts begins with a value of its kind, and that is what it reads. */
  lemma ReadsOnlyItsKind(b: Bytes)
    ensures V.ReadStr(b).Some? ==>
      exists m: Value :: m.Text? && m.text == V.ReadStr(b).value.0 && Begins(b, m, V.ReadStr(b).value.1)
    ensures V.ReadBin(b).Some? ==>
      exists m: Value :: m.Binary? && m.data == V.ReadBin(b).value.0 && Begins(b, m, V.ReadBin(b).value.1)
    ensures V.ReadBool(b).Some? ==>
      exists m: Value :: m.VBool? && m.b == V.ReadBool(b).value.0 && Begins(b, m, V.ReadBool(b).value.1)
    ensures V.ReadInt(b).Some? ==>
      exists m: Value :: IntegerOf(m) == Some(V.ReadInt(b).value.0) && Begins(b, m, V.ReadInt(b).value.1)
    ensures V.ReadUint(b).Some? ==>
      exists m: Value :: IntegerOf(m) == Some(V.ReadUint(b).value.0) && Begins(b, m, V.ReadUint(b).value.1)
  {
    hide ReadToken, Enc, Valid;
    if ReadToken(b).Some? {
      var (t, rest) := ReadToken(b).value;
      if Children(t) == 0 && RawBytes(t) <= |rest| {
        var m := ScalarBack(b);
        assert Begins(b, m, rest[RawBytes(t)..]);
        assert rest[0..] == rest;
      }
    }
  }
}
