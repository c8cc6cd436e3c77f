/** UTF-8 as in section 3 of RFC 3629: what buffers and strings convert to and from. */
module Utf8 {
  import opened Prelude

  type Byte = x: int | 0 <= x < 256

  /** A Unicode scalar value: any code point but a surrogate. */
  type Scalar = c: int | 0 <= c < 0xD800 || 0xE000 <= c < 0x11_0000

  const REPLACEMENT: Scalar := 0xFFFD

  function Size(c: Scalar): nat {
    if c < 0x80 then 1 else if c < 0x800 then 2 else if c < 0x1_0000 then 3 else 4
  }

  function EncodeChar(c: Scalar): (r: seq<Byte>)
    ensures |r| == Size(c)
  {
    if c < 0x80 then [c]
    else if c < 0x800 then [0xC0 + c / 0x40, 0x80 + c % 0x40]
    else if c < 0x1_0000 then [0xE0 + c / 0x1000, 0x80 + c / 0x40 % 0x40, 0x80 + c % 0x40]
    else [0xF0 + c / 0x4_0000, 0x80 + c / 0x1000 % 0x40, 0x80 + c / 0x40 % 0x40, 0x80 + c % 0x40]
  }

  function Encode(s: seq<Scalar>): seq<Byte> {
    if s == [] then [] else EncodeChar(s[0]) + Encode(s[1..])
  }

  /** How many bytes the byte announces, or 0 if no character starts with it. */
  function Need(b: Byte): nat {
    if b < 0x80 then 1
    else if b / 0x20 == 0x06 then 2
    else if b / 0x10 == 0x0E then 3
    else if b / 0x08 == 0x1E then 4
    else 0
  }

  function Part(b: int, marker: int): int {
    b - marker
  }

  function LowPart(b: int, c: int): int {
    Part(b, 0x80) * 0x40 + Part(c, 0x80)
  }

  /** The scalar that these bytes are the encoding of, if there is one. */
  function DecodeChar(bytes: seq<Byte>): Option<Scalar> {
    if bytes == [] || Need(bytes[0]) == 0 || |bytes| < Need(bytes[0]) then None
    else
      var n := Need(bytes[0]);
      var c: int :=
        if n == 1 then bytes[0]
        else if n == 2 then Part(bytes[0], 0xC0) * 0x40 + Part(bytes[1], 0x80)
        else if n == 3 then Part(bytes[0], 0xE0) * 0x1000 + Part(bytes[1], 0x80) * 0x40 + Part(bytes[2], 0x80)
        else
          Part(bytes[0], 0xF0) * 0x4_0000 + Part(bytes[1], 0x80) * 0x1000 + LowPart(bytes[2], bytes[3]);
      if (0 <= c < 0xD800 || 0xE000 <= c < 0x11_0000) && EncodeChar(c) == bytes[..n] then Some(c) else None
  }

  /** `buffer.toString('utf8')`: a byte that starts no character becomes U+FFFD. */
  function Decode(bytes: seq<Byte>): seq<Scalar> {
    if bytes == [] then []
    else
      match DecodeChar(bytes)
      case Some(c) => [c] + Decode(bytes[Size(c)..])
      case None => [REPLACEMENT] + Decode(bytes[1..])
  }

  lemma CharHead(c: Scalar)
    ensures Need(EncodeChar(c)[0]) == Size(c)
    ensures forall k :: 0 < k < Size(c) ==> Need(EncodeChar(c)[k]) == 0
  {}

  /** Examples of section 7 of RFC 3629: one character of each size. */
  lemma Samples()
    ensures EncodeChar(0x41) == [0x41] && EncodeChar(0x391) == [0xCE, 0x91]
    ensures EncodeChar(0x2262) == [0xE2, 0x89, 0xA2] && EncodeChar(0x233B4) == [0xF0, 0xA3, 0x8E, 0xB4]
  {}

  lemma SixBits(c: int)
    ensures c == c / 0x40 * 0x40 + c % 0x40
  {}

  lemma Shifted(c: int)
    ensures c / 0x40 / 0x40 == c / 0x1000 && c / 0x1000 / 0x40 == c / 0x4_0000
  {}

  /** A scalar from the parts its encoding is made of. */
  lemma Parts(c: int)
    ensures c == c / 0x40 * 0x40 + c % 0x40
    ensures c == c / 0x1000 * 0x1000 + c / 0x40 % 0x40 * 0x40 + c % 0x40
    ensures c == c / 0x4_0000 * 0x4_0000 + c / 0x1000 % 0x40 * 0x1000 + c / 0x40 % 0x40 * 0x40 + c % 0x40
  {
    Shifted(c);
    SixBits(c);
    SixBits(c / 0x40);
    SixBits(c / 0x1000);
  }

  lemma DecodeCharOf(c: Scalar, rest: seq<Byte>)
    ensures DecodeChar(EncodeChar(c) + rest) == Some(c)
  {
    CharHead(c);
    Parts(c);
    var bytes := EncodeChar(c) + rest;
    assert bytes[..Size(c)] == EncodeChar(c);
    assert forall k :: 0 <= k < Size(c) ==> bytes[k] == EncodeChar(c)[k];
  }

  lemma DecodeStep(c: Scalar, rest: seq<Byte>)
    ensures Decode(EncodeChar(c) + rest) == [c] + Decode(rest)
  {
    DecodeCharOf(c, rest);
    assert (EncodeChar(c) + rest)[Size(c)..] == rest;
  }

  lemma EncodeStep(s: seq<Scalar>, rest: seq<Byte>)
    requires s != []
    ensures Encode(s) + rest == EncodeChar(s[0]) + (Encode(s[1..]) + rest)
  {}

  /** Decoding undoes encoding, whatever follows. */
  lemma {:induction false} DecodeEncode(s: seq<Scalar>, rest: seq<Byte>)
    ensures Decode(Encode(s) + rest) == s + Decode(rest)
  {
    var later := Decode(rest);
    if s == [] {
      assert Encode(s) + rest == rest;
      assert s + later == later;
    } else {
      var tail := Encode(s[1..]) + rest;
      EncodeStep(s, rest);
      DecodeEncode(s[1..], rest);
      DecodeStep(s[0], tail);
      HeadTail(s, later);
    }
  }

  lemma RoundTrip(s: seq<Scalar>)
    ensures Decode(Encode(s)) == s
  {
    DecodeEncode(s, []);
    assert Encode(s) + [] == Encode(s);
  }

  lemma DecodedChar(bytes: seq<Byte>)
    requires DecodeChar(bytes).Some?
    ensures var c := DecodeChar(bytes).value;
      Size(c) <= |bytes| && bytes == EncodeChar(c) + bytes[Size(c)..]
  {
    var c := DecodeChar(bytes).value;
    CharHead(c);
    assert bytes == bytes[..Size(c)] + bytes[Size(c)..];
  }

  lemma {:induction false} NothingReplaced(bytes: seq<Byte>)
    ensures Encode(Decode(bytes)) == bytes || REPLACEMENT in Decode(bytes)
  {
    if bytes != [] && DecodeChar(bytes).Some? {
      DecodedChar(bytes);
      var c := DecodeChar(bytes).value;
      NothingReplaced(bytes[Size(c)..]);
      assert ([c] + Decode(bytes[Size(c)..]))[1..] == Decode(bytes[Size(c)..]);
    }
  }

  /** Bytes come back if and only if they are the UTF-8 of a text; otherwise the text says so. */
  lemma DecodedIff(bytes: seq<Byte>)
    ensures Encode(Decode(bytes)) == bytes <==> exists s :: Encode(s) == bytes
    ensures Encode(Decode(bytes)) != bytes ==> REPLACEMENT in Decode(bytes)
  {
    NothingReplaced(bytes);
    if s :| Encode(s) == bytes {
      RoundTrip(s);
    }
  }

  lemma {:induction false} EncodeAppend(a: seq<Scalar>, b: seq<Scalar>)
    ensures Encode(a + b) == Encode(a) + Encode(b)
  {
    if a == [] {
      assert a + b == b;
    } else {
      assert (a + b)[1..] == a[1..] + b;
      EncodeAppend(a[1..], b);
    }
  }

  /** Every byte of an encoding starts a character that ends within it, or starts none. */
  lemma {:induction false} StartFits(s: seq<Scalar>, p: nat)
    requires p < |Encode(s)|
    ensures p + Need(Encode(s)[p]) <= |Encode(s)|
  {
    CharHead(s[0]);
    if p >= Size(s[0]) {
      StartFits(s[1..], p - Size(s[0]));
    }
  }

  /** Cutting an encoding: the characters before the cut, and what is there of the next one. */
  function CharsBefore(s: seq<Scalar>, cut: nat): (k: nat)
    requires cut <= |Encode(s)|
    ensures k <= |s|
  {
    if s == [] || cut < Size(s[0]) then 0 else 1 + CharsBefore(s[1..], cut - Size(s[0]))
  }

  lemma {:induction false} CutSize(s: seq<Scalar>, cut: nat)
    requires cut <= |Encode(s)|
    ensures var k := CharsBefore(s, cut); var whole := |Encode(s[..k])|;
      whole <= cut && (if k == |s| then cut == whole else cut - whole < Size(s[k]))
  {
    if s == [] || cut < Size(s[0]) {
      assert s[..0] == [];
    } else {
      CutSize(s[1..], cut - Size(s[0]));
      var k := CharsBefore(s, cut);
      assert s[..k][1..] == s[1..][..k - 1];
    }
  }

  lemma CutAt(s: seq<Scalar>, cut: nat)
    requires cut <= |Encode(s)|
    ensures var k := CharsBefore(s, cut); var whole := |Encode(s[..k])|;
      && whole <= cut
      && Encode(s)[..whole] == Encode(s[..k]) && Encode(s)[whole..] == Encode(s[k..])
      && (if k == |s| then cut == whole else cut - whole < Size(s[k]))
  {
    CutSize(s, cut);
    var k := CharsBefore(s, cut);
    EncodeAppend(s[..k], s[k..]);
    assert s[..k] + s[k..] == s;
  }
}
