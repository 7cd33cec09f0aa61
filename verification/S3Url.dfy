/** The S3 flavour of URL query escaping. */
module S3Url {
  import opened Base

  predicate ShouldEscape(c: byte) {
    if 65 <= c <= 90 || 97 <= c <= 122 || 48 <= c <= 57 then false
    else c !in [45, 95, 46, 47, 42]  // - _ . / *
  }

  const SPACE: byte := 32
  const PLUS: byte := 43
  const PERCENT: byte := 37

  function HexDigit(d: byte): byte
    requires d < 16
  {
    if d < 10 then 48 + d else 55 + d  // 0-9, A-F
  }

  function EncodeByte(c: byte): Bytes {
    if c == SPACE then [PLUS]
    else if ShouldEscape(c) then [PERCENT, HexDigit(c / 16), HexDigit(c % 16)]
    else [c]
  }

  /** Byte-wise encoding: the specification of all three code paths. */
  function Encode(s: Bytes): Bytes {
    if s == [] then [] else Encode(s[..|s| - 1]) + EncodeByte(s[|s| - 1])
  }

  // A hex digit of section 2.1 of RFC 3986, either case.
  function HexValue(c: byte): Option<byte> {
    if 48 <= c <= 57 then Some(c - 48)
    else if 65 <= c <= 70 then Some(c - 55)
    else if 97 <= c <= 102 then Some(c - 87)
    else None
  }

  /** Query unescaping: + is a space, %XY is a byte (section 2.1 of RFC 3986),
      and anything else stands for itself. */
  function Decode(t: Bytes): Option<Bytes> {
    if t == [] then Some([])
    else if t[0] == PERCENT then
      if |t| < 3 || HexValue(t[1]).None? || HexValue(t[2]).None? then None
      else Prepend([HexValue(t[1]).value * 16 + HexValue(t[2]).value], Decode(t[3..]))
    else Prepend([if t[0] == PLUS then SPACE else t[0]], Decode(t[1..]))
  }

  function Prepend(p: Bytes, rest: Option<Bytes>): Option<Bytes> {
    match rest
    case None => None
    case Some(r) => Some(p + r)
  }

  function SpaceCount(s: Bytes): nat {
    if s == [] then 0
    else SpaceCount(s[..|s| - 1]) + if s[|s| - 1] == SPACE then 1 else 0
  }

  function HexCount(s: Bytes): nat {
    if s == [] then 0
    else HexCount(s[..|s| - 1]) + if ShouldEscape(s[|s| - 1]) && s[|s| - 1] != SPACE then 1 else 0
  }

  /** The size the encoder allocates is the size it needs. */
  lemma {:induction false} EncodedLength(s: Bytes)
    ensures |Encode(s)| == |s| + 2 * HexCount(s)
  {
    if s != [] {
      EncodedLength(s[..|s| - 1]);
    }
  }

  // Prefixes need no more room than the whole.
  lemma {:induction false} PrefixFits(s: Bytes, i: nat)
    requires i <= |s|
    ensures |Encode(s[..i])| <= |Encode(s)|
    ensures i < |s| ==> |Encode(s[..i])| + |EncodeByte(s[i])| <= |Encode(s)|
    decreases |s|
  {
    if i < |s| {
      var front := s[..|s| - 1];
      PrefixFits(front, i);
      assert front[..i] == s[..i];
    } else {
      assert s[..i] == s;
    }
  }

  // Spaces become pluses in place; this is what a name without escapes needs.
  function PlusForSpaces(s: Bytes): Bytes {
    seq(|s|, i requires 0 <= i < |s| => if s[i] == SPACE then PLUS else s[i])
  }

  lemma NoEscapeByte(c: byte)
    requires !ShouldEscape(c) || c == SPACE
    ensures EncodeByte(c) == [if c == SPACE then PLUS else c]
  {
  }

  lemma {:induction false} NoEscapes(s: Bytes)
    requires HexCount(s) == 0
    ensures Encode(s) == PlusForSpaces(s)
    ensures SpaceCount(s) == 0 ==> PlusForSpaces(s) == s
    decreases |s|
  {
    hide EncodeByte, ShouldEscape;
    if s != [] {
      var front, c := s[..|s| - 1], s[|s| - 1];
      NoEscapes(front);
      NoEscapeByte(c);
      assert PlusForSpaces(s) == PlusForSpaces(front) + EncodeByte(c);
    }
  }

  /** s3URLEncode: the fast exit, the spaces-only copy and the general loop
      all produce the byte-wise encoding; the general loop fills its buffer
      exactly. */
  method S3URLEncode(s: Bytes) returns (t: Bytes)
    ensures t == Encode(s)
  {
    var spaceCount, hexCount := 0, 0;
    for i := 0 to |s|
      invariant spaceCount == SpaceCount(s[..i]) && hexCount == HexCount(s[..i])
    {
      assert s[..i + 1][..i] == s[..i];
      var c := s[i];
      if ShouldEscape(c) {
        if c == SPACE {
          spaceCount := spaceCount + 1;
        } else {
          hexCount := hexCount + 1;
        }
      }
    }
    assert s[..|s|] == s;
    EncodedLength(s);
    if spaceCount == 0 && hexCount == 0 {
      NoEscapes(s);
      return s;
    }
    var required := |s| + 2 * hexCount;
    var buf := new byte[required];
    if hexCount == 0 {
      NoEscapes(s);
      EscapeSpaces(s, buf);
      return buf[..];
    }
    EncodeInto(s, buf);
    return buf[..];
  }

  // The general loop: j ends exactly at the buffer's length.
  method EncodeInto(s: Bytes, t: array<byte>)
    requires t.Length == |Encode(s)|
    modifies t
    ensures t[..] == Encode(s)
  {
    var j := 0;
    for i := 0 to |s|
      invariant j == |Encode(s[..i])| <= t.Length
      invariant t[..j] == Encode(s[..i])
    {
      PrefixFits(s, i);
      assert s[..i + 1][..i] == s[..i];
      j := PutByte(t, j, s[i]);
    }
    assert s[..|s|] == s;
  }

  method PutByte(t: array<byte>, j: nat, c: byte) returns (k: nat)
    requires j + |EncodeByte(c)| <= t.Length
    modifies t
    ensures k == j + |EncodeByte(c)|
    ensures t[..k] == old(t[..j]) + EncodeByte(c)
  {
    k := j;
    if c == SPACE {
      t[k] := PLUS;
      k := k + 1;
    } else if ShouldEscape(c) {
      t[k] := PERCENT;
      t[k + 1] := HexDigit(c / 16);
      t[k + 2] := HexDigit(c % 16);
      k := k + 3;
    } else {
      t[k] := c;
      k := k + 1;
    }
  }

  // copy(t, s), then every space becomes a plus.
  method EscapeSpaces(s: Bytes, t: array<byte>)
    requires t.Length == |s|
    modifies t
    ensures t[..] == PlusForSpaces(s)
  {
    forall k | 0 <= k < |s| {
      t[k] := s[k];
    }
    for i := 0 to |s|
      invariant forall k :: 0 <= k < |s| ==> t[k] == if k < i && s[k] == SPACE then PLUS else s[k]
    {
      if s[i] == SPACE {
        t[i] := PLUS;
      }
    }
  }

  lemma {:induction false} DecodeByteThenRest(c: byte, t: Bytes)
    ensures Decode(EncodeByte(c) + t) == Prepend([c], Decode(t))
  {
    var e := EncodeByte(c) + t;
    if c == SPACE || !ShouldEscape(c) {
      assert e[1..] == t;
    } else {
      assert e[3..] == t;
      assert HexValue(HexDigit(c / 16)) == Some(c / 16);
      assert HexValue(HexDigit(c % 16)) == Some(c % 16);
    }
  }

  lemma {:induction false} DecodeEncodeThen(s: Bytes, t: Bytes)
    ensures Decode(Encode(s) + t) == Prepend(s, Decode(t))
    decreases |s|
  {
    hide EncodeByte, Decode;
    if s == [] {
      assert Encode(s) + t == t;
      assert Decode(t).Some? ==> [] + Decode(t).value == Decode(t).value;
    } else {
      var front, c := s[..|s| - 1], s[|s| - 1];
      assert Encode(s) + t == Encode(front) + (EncodeByte(c) + t);
      DecodeEncodeThen(front, EncodeByte(c) + t);
      DecodeByteThenRest(c, t);
      if Decode(t).Some? {
        assert front + ([c] + Decode(t).value) == s + Decode(t).value;
      }
    }
  }

  /** Unescaping gives the name back ... */
  lemma DecodeEncode(s: Bytes)
    ensures Decode(Encode(s)) == Some(s)
  {
    var e := Encode(s);
    DecodeEncodeThen(s, []);
    assert e + [] == e && s + [] == s;
  }

  /** ... so two names never encode alike ... */
  lemma EncodeInjective(a: Bytes, b: Bytes)
    requires Encode(a) == Encode(b)
    ensures a == b
  {
    DecodeEncode(a);
    DecodeEncode(b);
  }

  /** ... and what comes out holds only unreserved bytes, +, and escapes. */
  lemma {:induction false} EncodedAlphabet(s: Bytes)
    ensures forall c :: c in Encode(s) ==> !ShouldEscape(c) || c == PLUS || c == PERCENT
    decreases |s|
  {
    if s != [] {
      EncodedAlphabet(s[..|s| - 1]);
    }
  }

  // The bytes of a printed string.
  function Printed(t: string): Bytes
    requires forall i :: 0 <= i < |t| ==> t[i] < 128 as char
  {
    seq(|t|, i requires 0 <= i < |t| => t[i] as byte)
  }

  lemma HexDigitExactly(d: byte)
    requires d < 16
    ensures HexDigit(d) == Printed("0123456789ABCDEF")[d]
  {
    assert "0123456789ABCDEF"[d] as byte == HexDigit(d);
  }

  // What stands for itself in an encoded name.
  predicate Unreserved(c: char) { 'A' <= c <= 'Z' || 'a' <= c <= 'z' || '0' <= c <= '9' || c in "-_./*" }

  lemma ShouldEscapeExactly(c: byte)
    ensures ShouldEscape(c) <==> !Unreserved(c as char)
  {
    assert Unreserved(c as char) <==>
      ('A' <= c as char <= 'Z' || 'a' <= c as char <= 'z' || '0' <= c as char <= '9'
       || c as char == '-' || c as char == '_' || c as char == '.' || c as char == '/' || c as char == '*');
  }

  /** Byte by byte: letters, digits and - _ . / * stand for themselves, a space
      becomes a plus, and any other byte a percent sign and two upper-case hex
      digits. */
  lemma EncodedByteExactly(c: byte)
    ensures Encode([c]) ==
      if Unreserved(c as char) then [c]
      else if c as char == ' ' then Printed("+")
      else Printed("%") + [Printed("0123456789ABCDEF")[c / 16], Printed("0123456789ABCDEF")[c % 16]]
  {
    hide Unreserved, ShouldEscape, HexDigit;
    ShouldEscapeExactly(c);
    HexDigitExactly(c / 16);
    HexDigitExactly(c % 16);
    SpaceIsReserved();
    assert [c][..0] == [];
    assert Encode([c]) == EncodeByte(c);
    assert Printed("+") == [PLUS] && Printed("%") == [PERCENT];
  }

  lemma SpaceIsReserved()
    ensures !Unreserved(' ')
  {}

  // strings.ToLower on an ASCII encoding type.
  function Lower(c: char): char {
    if 'A' <= c <= 'Z' then (c as int + 32) as char else c
  }

  function ToLower(s: string): string { seq(|s|, i requires 0 <= i < |s| => Lower(s[i])) }

  lemma UrlInAnyCase(t: string)
    ensures ToLower(t) == "url" <==>
      |t| == 3 && t[0] in {'u', 'U'} && t[1] in {'r', 'R'} && t[2] in {'l', 'L'}
  {
    var l := ToLower(t);
    assert l == "url" <==> |l| == 3 && l[0] == 'u' && l[1] == 'r' && l[2] == 'l';
    assert forall i :: 0 <= i < |t| ==> l[i] == Lower(t[i]);
  }

  method S3EncodeName(name: Bytes, encodingType: string) returns (result: Bytes)
    ensures result == if ToLower(encodingType) == "url" then Encode(name) else name
    ensures result ==
      if |encodingType| == 3 && encodingType[0] in {'u', 'U'} && encodingType[1] in {'r', 'R'}
         && encodingType[2] in {'l', 'L'}
      then Encode(name) else name
  {
    UrlInAnyCase(encodingType);
    if encodingType == "" {
      return name;
    }
    if ToLower(encodingType) == "url" {
      result := S3URLEncode(name);
      return;
    }
    return name;
  }
}
