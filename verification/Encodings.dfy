/**
 The encodings of lib/buffer.js that are not UTF-8, as src/string_bytes.cc reads and writes them:
 UCS-2, and the decoders of hexadecimal and base64 text, which get one byte for each unit.
 */
module Encodings {
  import opened Prelude
  import opened Utf8

  // ---------------------------------------------------------------- UCS-2

  function Unit(u: int): seq<Byte>
    requires 0 <= u < 0x1_0000
  {
    [u % 256, u / 256]
  }

  /** One unit, low byte first, or two above U+FFFF. */
  function Ucs2Char(c: Scalar): seq<Byte> {
    if c < 0x1_0000 then Unit(c)
    else Unit(0xD800 + (c - 0x1_0000) / 0x400) + Unit(0xDC00 + (c - 0x1_0000) % 0x400)
  }

  function Ucs2(text: seq<Scalar>): seq<Byte> {
    if text == [] then [] else Ucs2Char(text[0]) + Ucs2(text[1..])
  }

  lemma {:induction false} Ucs2Append(a: seq<Scalar>, b: seq<Scalar>)
    ensures Ucs2(a + b) == Ucs2(a) + Ucs2(b)
  {
    if a == [] {
      assert a + b == b;
    } else {
      assert (a + b)[1..] == a[1..] + b;
      Ucs2Append(a[1..], b);
      Assoc(Ucs2Char(a[0]), Ucs2(a[1..]), Ucs2(b));
    }
  }

  /** How many bytes are below 128. */
  function LowBytesIn(bytes: seq<Byte>): nat {
    if bytes == [] then 0 else (if bytes[0] < 128 then 1 else 0) + LowBytesIn(bytes[1..])
  }

  lemma {:induction false} LowAppend(a: seq<Byte>, b: seq<Byte>)
    ensures LowBytesIn(a + b) == LowBytesIn(a) + LowBytesIn(b)
  {
    if a == [] {
      assert a + b == b;
    } else {
      assert (a + b)[1..] == a[1..] + b;
      LowAppend(a[1..], b);
    }
  }

  lemma LowTwo(x: Byte, y: Byte)
    ensures LowBytesIn([x, y]) == (if x < 128 then 1 else 0) + (if y < 128 then 1 else 0)
  {
    assert [x, y][1..] == [y];
    assert [y][1..] == [];
    assert LowBytesIn([y]) == (if y < 128 then 1 else 0) + LowBytesIn([y][1..]);
  }

  lemma LowThree(x: Byte, y: Byte, z: Byte)
    ensures LowBytesIn([x, y, z]) == (if x < 128 then 1 else 0) + LowBytesIn([y, z])
  {
    assert [x, y, z][1..] == [y, z];
  }

  lemma LowFour(w: Byte, x: Byte, y: Byte, z: Byte)
    ensures LowBytesIn([w, x, y, z]) == (if w < 128 then 1 else 0) + LowBytesIn([x, y, z])
  {
    assert [w, x, y, z][1..] == [x, y, z];
  }

  /** UTF-8 has one low byte for ASCII and none for the rest. */
  lemma LowInUtf8(c: Scalar)
    ensures LowBytesIn(EncodeChar(c)) == if c < 0x80 then 1 else 0
  {
    var e := EncodeChar(c);
    if c < 0x80 {
      assert e[1..] == [];
    } else if c < 0x800 {
      LowTwo(e[0], e[1]);
    } else if c < 0x1_0000 {
      LowThree(e[0], e[1], e[2]);
      LowTwo(e[1], e[2]);
    } else {
      LowFour(e[0], e[1], e[2], e[3]);
      LowThree(e[1], e[2], e[3]);
      LowTwo(e[2], e[3]);
    }
  }

  /** UCS-2 has two for ASCII and at least one up to U+07FF. */
  lemma LowInUcs2(c: Scalar)
    ensures c < 0x80 ==> LowBytesIn(Ucs2Char(c)) == 2
    ensures c < 0x800 ==> LowBytesIn(Ucs2Char(c)) >= 1
    ensures |Ucs2Char(c)| == if c < 0x1_0000 then 2 else 4
  {
    if c < 0x1_0000 {
      LowTwo(c % 256, c / 256);
    }
  }

  /** Low bytes and lengths of a text in both. With as many low bytes nothing is below U+0800, and
      then with as many bytes nothing is below U+10000. */
  lemma {:induction false} Compare(text: seq<Scalar>)
    ensures LowBytesIn(Ucs2(text)) >= LowBytesIn(Encode(text))
    ensures LowBytesIn(Ucs2(text)) == LowBytesIn(Encode(text)) ==> |Ucs2(text)| <= |Encode(text)|
    ensures LowBytesIn(Ucs2(text)) == LowBytesIn(Encode(text)) && |Ucs2(text)| == |Encode(text)| ==>
            forall k :: 0 <= k < |text| ==> text[k] >= 0x1_0000
  {
    if text != [] {
      var c, rest := text[0], text[1..];
      LowInUtf8(c);
      LowInUcs2(c);
      LowAppend(Ucs2Char(c), Ucs2(rest));
      LowAppend(EncodeChar(c), Encode(rest));
      Compare(rest);
      assert forall k :: 0 < k < |text| ==> text[k] == rest[k - 1];
    }
  }

  /** No text is the same in both, but the empty one. */
  lemma Ucs2IsEncode(text: seq<Scalar>)
    ensures Ucs2(text) == Encode(text) <==> text == []
  {
    Compare(text);
    if text != [] && text[0] >= 0x1_0000 {
      SecondByte(text);
    }
  }

  lemma SecondByte(text: seq<Scalar>)
    requires text != [] && text[0] >= 0x1_0000
    ensures |Ucs2(text)| >= 2 && |Encode(text)| >= 2 && Encode(text)[1] < 0xC0 < Ucs2(text)[1]
  {
    assert Ucs2(text)[1] == Ucs2Char(text[0])[1] && Encode(text)[1] == EncodeChar(text[0])[1];
  }

  // ---------------------------------------------------------------- hexadecimal

  function HexDigitOf(c: Byte): Option<nat> {
    if 48 <= c <= 57 then Some(c - 48)
    else if 65 <= c <= 70 then Some(c - 55)
    else if 97 <= c <= 102 then Some(c - 87)
    else None
  }

  /** `hex_decode`: up to the first pair that is none of digits. */
  function Unhex(s: seq<Byte>): seq<Byte> {
    if |s| < 2 || HexDigitOf(s[0]) == None || HexDigitOf(s[1]) == None then []
    else [HexDigitOf(s[0]).value * 16 + HexDigitOf(s[1]).value] + Unhex(s[2..])
  }

  predicate WholeHex(s: seq<Byte>) {
    |s| % 2 == 0 && forall k :: 0 <= k < |s| ==> HexDigitOf(s[k]).Some?
  }

  lemma {:induction false} UnhexSize(s: seq<Byte>)
    ensures 2 * |Unhex(s)| <= |s|
  {
    if |s| >= 2 {
      UnhexSize(s[2..]);
    }
  }

  lemma {:induction false} UnhexAppend(a: seq<Byte>, b: seq<Byte>)
    requires WholeHex(a)
    ensures Unhex(a + b) == Unhex(a) + Unhex(b) && 2 * |Unhex(a)| == |a|
  {
    if a == [] {
      assert a + b == b;
    } else {
      assert (a + b)[2..] == a[2..] + b;
      UnhexAppend(a[2..], b);
    }
  }

  lemma UnhexPair(x: Byte, y: Byte)
    requires HexDigitOf(x).Some? && HexDigitOf(y).Some?
    ensures Unhex([x, y]) == [HexDigitOf(x).value * 16 + HexDigitOf(y).value] && WholeHex([x, y])
  {
    assert [x, y][2..] == [];
  }

  /** Text of an odd length is refused. */
  function HexOf(s: seq<Byte>): seq<Byte> {
    if |s| % 2 == 1 then [] else Unhex(s)
  }

  lemma OddPlus(a: nat, b: nat)
    requires a % 2 == 0
    ensures (a + b) % 2 == b % 2
  {}

  lemma WholeHexTail(a: seq<Byte>)
    requires |a| % 2 == 0 && |a| >= 2 && HexDigitOf(a[0]).Some? && HexDigitOf(a[1]).Some? && WholeHex(a[2..])
    ensures WholeHex(a)
  {
    forall k | 0 <= k < |a| ensures HexDigitOf(a[k]).Some? {
      if k >= 2 {
        assert a[k] == a[2..][k - 2];
      }
    }
  }

  lemma {:induction false} UnhexStops(a: seq<Byte>, b: seq<Byte>)
    requires |a| % 2 == 0 && !WholeHex(a)
    ensures Unhex(a + b) == Unhex(a)
    decreases |a|, 1
  {
    if HexDigitOf(a[0]).Some? && HexDigitOf(a[1]).Some? {
      assert (a + b)[2..] == a[2..] + b;
      UnhexRest(a, b);
    }
  }

  lemma {:induction false} UnhexRest(a: seq<Byte>, b: seq<Byte>)
    requires |a| % 2 == 0 && |a| >= 2 && HexDigitOf(a[0]).Some? && HexDigitOf(a[1]).Some? && !WholeHex(a)
    ensures Unhex(a[2..] + b) == Unhex(a[2..])
    decreases |a|, 0
  {
    if !WholeHex(a[2..]) {
      UnhexStops(a[2..], b);
    } else {
      WholeHexTail(a);
    }
  }

  /** Text behind an even number of characters. */
  lemma HexOfAppend(a: seq<Byte>, b: seq<Byte>)
    requires |a| % 2 == 0
    ensures HexOf(a + b) ==
            if |b| % 2 == 1 then [] else if WholeHex(a) then HexOf(a) + HexOf(b) else HexOf(a)
  {
    OddPlus(|a|, |b|);
    if WholeHex(a) {
      UnhexAppend(a, b);
    } else {
      UnhexStops(a, b);
    }
  }

  lemma CancelFront(a: seq<Byte>, b: seq<Byte>, c: seq<Byte>)
    ensures a + b == a + c <==> b == c
  {
    assert (a + b)[|a|..] == b && (a + c)[|a|..] == c;
  }

  predicate StartsWithPair(s: seq<Byte>) {
    |s| >= 2 && HexDigitOf(s[0]).Some? && HexDigitOf(s[1]).Some?
  }

  /** Both texts together stand for something else than each: the second one is lost behind the place
      where the first one was cut off, or an odd length makes one refused that was not, or neither. */
  predicate HexMisjoins(a: seq<Byte>, b: seq<Byte>) {
    if |a| % 2 == 0 && |b| % 2 == 0 then !WholeHex(a) && StartsWithPair(b)
    else if |a| % 2 == 0 then StartsWithPair(a)
    else if |b| % 2 == 0 then StartsWithPair(b)
    else StartsWithPair(a + b)
  }

  lemma HexOfEmpty(s: seq<Byte>)
    ensures HexOf(s) == [] <==> |s| % 2 == 1 || !StartsWithPair(s)
  {}

  lemma HexJoinsEven(a: seq<Byte>, b: seq<Byte>)
    requires |a| % 2 == 0 && |b| % 2 == 0
    ensures HexOf(a + b) == HexOf(a) + HexOf(b) <==> !HexMisjoins(a, b)
  {
    HexOfAppend(a, b);
    HexOfEmpty(b);
    CancelFront(HexOf(a), HexOf(b), []);
    assert HexOf(a) + [] == HexOf(a);
  }

  lemma HexJoinsOdd(a: seq<Byte>, b: seq<Byte>)
    requires |a| % 2 == 1 && |b| % 2 == 1
    ensures HexOf(a + b) == HexOf(a) + HexOf(b) <==> !HexMisjoins(a, b)
  {
    TwoOdd(|a|, |b|);
    HexOfEmpty(a + b);
  }

  lemma OddRefused(a: seq<Byte>, b: seq<Byte>)
    requires |a| % 2 == 1
    ensures HexOf(a) == [] && (|b| % 2 == 0 ==> HexOf(a + b) == [])
  {
    if |b| % 2 == 0 {
      OddPlus(|b|, |a|);
    }
  }

  lemma TwoOdd(m: nat, n: nat)
    requires m % 2 == 1 && n % 2 == 1
    ensures (m + n) % 2 == 0
  {}

  lemma HexJoins(a: seq<Byte>, b: seq<Byte>)
    ensures HexOf(a + b) == HexOf(a) + HexOf(b) <==> !HexMisjoins(a, b)
  {
    if |a| % 2 == 0 && |b| % 2 == 0 {
      HexJoinsEven(a, b);
    } else if |a| % 2 == 0 {
      OddPlus(|a|, |b|);
      HexOfEmpty(a);
    } else if |b| % 2 == 0 {
      OddPlus(|b|, |a|);
      HexOfEmpty(b);
    } else {
      HexJoinsOdd(a, b);
    }
  }

  lemma HexOfShort(s: seq<Byte>)
    ensures s != [] ==> |HexOf(s)| < |s|
  {
    UnhexSize(s);
  }

  // ---------------------------------------------------------------- base64

  /** `unbase64`: the digits of both alphabets. */
  function Base64Digit(c: Byte): Option<nat> {
    if 65 <= c <= 90 then Some(c - 65)
    else if 97 <= c <= 122 then Some(c - 71)
    else if 48 <= c <= 57 then Some(c + 4)
    else if c == 43 || c == 45 then Some(62)
    else if c == 47 || c == 95 then Some(63)
    else None
  }

  /** The digits; everything else, padding too, is passed over. */
  function Base64Digits(s: seq<Byte>): (r: seq<nat>)
    ensures |r| <= |s|
  {
    if s == [] then []
    else (match Base64Digit(s[0]) case None => [] case Some(x) => [x]) + Base64Digits(s[1..])
  }

  /** Three bytes of four digits, and what the last two or three give. */
  function Groups(ds: seq<nat>): seq<Byte> {
    if |ds| < 2 then []
    else
      var first := [(ds[0] * 4 + ds[1] / 16) % 256];
      if |ds| == 2 then first
      else
        var second := [(ds[1] * 16 + ds[2] / 4) % 256];
        if |ds| == 3 then first + second
        else first + second + [(ds[2] * 64 + ds[3]) % 256] + Groups(ds[4..])
  }

  /** `base64_decode` */
  function Unbase64(s: seq<Byte>): seq<Byte> {
    Groups(Base64Digits(s))
  }

  predicate WholeBase64(s: seq<Byte>) {
    |Base64Digits(s)| % 4 == 0
  }

  lemma {:induction false} DigitsAppend(a: seq<Byte>, b: seq<Byte>)
    ensures Base64Digits(a + b) == Base64Digits(a) + Base64Digits(b)
  {
    if a == [] {
      assert a + b == b;
    } else {
      assert (a + b)[1..] == a[1..] + b;
      DigitsAppend(a[1..], b);
      Assoc(match Base64Digit(a[0]) case None => [] case Some(x) => [x], Base64Digits(a[1..]), Base64Digits(b));
    }
  }

  lemma {:induction false} GroupsAppend(a: seq<nat>, b: seq<nat>)
    requires |a| % 4 == 0
    ensures Groups(a + b) == Groups(a) + Groups(b)
  {
    if a == [] {
      assert a + b == b;
    } else {
      assert (a + b)[4..] == a[4..] + b;
      GroupsAppend(a[4..], b);
    }
  }

  lemma {:induction false} GroupsShort(ds: seq<nat>)
    ensures ds != [] ==> |Groups(ds)| < |ds|
  {
    if |ds| > 4 {
      GroupsShort(ds[4..]);
    }
  }

  lemma Unbase64Append(a: seq<Byte>, b: seq<Byte>)
    requires WholeBase64(a)
    ensures Unbase64(a + b) == Unbase64(a) + Unbase64(b)
  {
    DigitsAppend(a, b);
    GroupsAppend(Base64Digits(a), Base64Digits(b));
  }

  lemma Unbase64Short(s: seq<Byte>)
    ensures s != [] ==> |Unbase64(s)| < |s|
  {
    GroupsShort(Base64Digits(s));
  }

  /** Without one padding character at the end. */
  function Unpadded(s: seq<Byte>): seq<Byte> {
    if s != [] && s[|s| - 1] == 61 then s[..|s| - 1] else s
  }

  /** `base64_decoded_size_fast` */
  function RoomFor(n: nat): nat {
    n / 4 * 3 + (if n % 4 == 0 || n == 1 then 0 else if n % 4 == 3 then 2 else 1)
  }

  /** `base64_decoded_size`: the room for the bytes, from the length of the text. */
  function Base64Room(s: seq<Byte>): nat {
    RoomFor(|Unpadded(Unpadded(s))|)
  }

  lemma {:induction false} GroupsSize(ds: seq<nat>)
    ensures |Groups(ds)| == |ds| / 4 * 3 + (if |ds| % 4 < 2 then 0 else |ds| % 4 - 1)
  {
    if |ds| >= 4 {
      GroupsSize(ds[4..]);
    }
  }

  lemma DigitsThenPad(a: seq<Byte>)
    ensures Base64Digits(a + [61]) == Base64Digits(a)
  {
    DigitsAppend(a, [61]);
    NoDigit();
    assert Base64Digits(a) + [] == Base64Digits(a);
  }

  lemma UnpaddedDigits(s: seq<Byte>)
    ensures Base64Digits(Unpadded(s)) == Base64Digits(s)
  {
    if Unpadded(s) != s {
      assert Unpadded(s) + [61] == s;
      DigitsThenPad(Unpadded(s));
    }
  }

  lemma RoomGrows(a: nat, b: nat)
    requires a <= b
    ensures a / 4 * 3 + (if a % 4 < 2 then 0 else a % 4 - 1) <= RoomFor(b)
  {}

  /** It is never too small, so the decoder stops at the end of the text only. */
  lemma RoomEnough(s: seq<Byte>)
    ensures |Unbase64(s)| <= Base64Room(s)
  {
    UnpaddedDigits(s);
    UnpaddedDigits(Unpadded(s));
    GroupsSize(Base64Digits(s));
    RoomGrows(|Base64Digits(s)|, |Unpadded(Unpadded(s))|);
  }

  /** Two digits and two padding characters. */
  lemma PaddedDigits(x: Byte, y: Byte)
    requires Base64Digit(x).Some? && Base64Digit(y).Some?
    ensures Base64Digits([x, y, 61, 61]) == [Base64Digit(x).value, Base64Digit(y).value]
  {
    DigitsThenPad([x, y, 61]);
    DigitsThenPad([x, y]);
    assert [x, y, 61] + [61] == [x, y, 61, 61] && [x, y] + [61] == [x, y, 61];
    assert [x, y][1..] == [y] && [y][1..] == [];
    assert Base64Digits([y]) == [Base64Digit(y).value] + [];
  }

  lemma FourDigits(a: nat, b: nat, c: nat, d: nat)
    ensures Groups([a, b]) == [(a * 4 + b / 16) % 256]
    ensures Groups([a, b, c, d]) == [(a * 4 + b / 16) % 256, (b * 16 + c / 4) % 256, (c * 64 + d) % 256]
  {
    assert [a, b, c, d][4..] == [];
  }

  lemma UnbasePadded(x: Byte, y: Byte)
    requires Base64Digit(x).Some? && Base64Digit(y).Some?
    ensures Unbase64([x, y, 61, 61]) == [(Base64Digit(x).value * 4 + Base64Digit(y).value / 16) % 256]
    ensures !WholeBase64([x, y, 61, 61])
  {
    PaddedDigits(x, y);
  }

  /** Two of these in a row are read as one group of four digits. */
  lemma UnbaseTwice(w: Byte, x: Byte, y: Byte, z: Byte)
    requires Base64Digit(w).Some? && Base64Digit(x).Some? && Base64Digit(y).Some? && Base64Digit(z).Some?
    ensures var a, b, c, d := Base64Digit(w).value, Base64Digit(x).value, Base64Digit(y).value, Base64Digit(z).value;
      Unbase64([w, x, 61, 61] + [y, z, 61, 61])
      == [(a * 4 + b / 16) % 256, (b * 16 + c / 4) % 256, (c * 64 + d) % 256]
  {
    var a, b, c, d := Base64Digit(w).value, Base64Digit(x).value, Base64Digit(y).value, Base64Digit(z).value;
    PaddedDigits(w, x);
    PaddedDigits(y, z);
    DigitsAppend([w, x, 61, 61], [y, z, 61, 61]);
    assert [a, b] + [c, d] == [a, b, c, d];
    FourDigits(a, b, c, d);
  }

  lemma NoDigit()
    ensures Base64Digits([61]) == []
  {
    assert [61][1..] == [];
    assert Base64Digit(61) == None;
  }
}
