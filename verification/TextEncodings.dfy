/** Bytes as base64 and hexadecimal text: what one direction writes the other one reads. */
module TextEncodings {
  import opened Prelude
  import opened Utf8
  import opened Encodings
  import S = StringDecoder

  // ---------------------------------------------------------------- base64

  /** The character of a digit, as a byte. */
  function Base64Byte(x: nat): (c: Byte)
    requires x < 64
    ensures c == S.Base64Char(x) && Base64Digit(c) == Some(x)
  {
    S.Base64Char(x)
  }

  /** What the source writes are bytes. */
  lemma {:induction false} AreBytes(b: seq<Byte>)
    ensures forall i :: 0 <= i < |S.ToBase64(b)| ==> 0 <= S.ToBase64(b)[i] < 256
  {
    if |b| >= 3 {
      AreBytes(b[3..]);
    }
  }

  function Base64Text(b: seq<Byte>): (r: seq<Byte>)
    ensures r == S.ToBase64(b)
  {
    AreBytes(b);
    S.ToBase64(b)
  }

  lemma DigitsOfQuad(x: Byte, y: Byte, z: Byte, w: Byte)
    requires Base64Digit(x).Some? && Base64Digit(y).Some? && Base64Digit(z).Some? && Base64Digit(w).Some?
    ensures Base64Digits([x, y, z, w])
         == [Base64Digit(x).value, Base64Digit(y).value, Base64Digit(z).value, Base64Digit(w).value]
  {
    var s := [x, y, z, w];
    assert s[1..] == [y, z, w] && [y, z, w][1..] == [z, w] && [z, w][1..] == [w] && [w][1..] == [];
    assert Base64Digits([w]) == [Base64Digit(w).value] + [];
    assert Base64Digits([z, w]) == [Base64Digit(z).value] + Base64Digits([w]);
    assert Base64Digits([y, z, w]) == [Base64Digit(y).value] + Base64Digits([z, w]);
  }

  lemma DigitsOfThree(x: Byte, y: Byte, z: Byte)
    requires Base64Digit(x).Some? && Base64Digit(y).Some? && Base64Digit(z).Some?
    ensures Base64Digits([x, y, z, 61]) == [Base64Digit(x).value, Base64Digit(y).value, Base64Digit(z).value]
  {
    DigitsThenPad([x, y, z]);
    assert [x, y, z] + [61] == [x, y, z, 61];
    assert [x, y, z][1..] == [y, z] && [y, z][1..] == [z] && [z][1..] == [];
    assert Base64Digits([z]) == [Base64Digit(z).value] + [];
    assert Base64Digits([y, z]) == [Base64Digit(y).value] + Base64Digits([z]);
  }

  lemma FirstOfThree(a: Byte, b: Byte)
    ensures (a / 4 * 4 + (a % 4 * 16 + b / 16) / 16) % 256 == a
  {
    assert (a % 4 * 16 + b / 16) / 16 == a % 4;
  }

  lemma SecondOfThree(a: Byte, b: Byte, c: Byte)
    ensures ((a % 4 * 16 + b / 16) * 16 + (b % 16 * 4 + c / 64) / 4) % 256 == b
  {
    assert (b % 16 * 4 + c / 64) / 4 == b % 16;
    assert b / 16 * 16 + b % 16 == b;
    assert (a % 4 * 16 + b / 16) * 16 == 256 * (a % 4) + b / 16 * 16;
  }

  lemma ThirdOfThree(b: Byte, c: Byte)
    ensures ((b % 16 * 4 + c / 64) * 64 + c % 64) % 256 == c
  {
    assert c / 64 * 64 + c % 64 == c;
    assert (b % 16 * 4 + c / 64) * 64 == 256 * (b % 16) + c / 64 * 64;
  }

  /** The digits that three bytes are cut into give the bytes again. */
  lemma ThreeBytes(a: Byte, b: Byte, c: Byte)
    ensures (a / 4 * 4 + (a % 4 * 16 + b / 16) / 16) % 256 == a
    ensures ((a % 4 * 16 + b / 16) * 16 + (b % 16 * 4 + c / 64) / 4) % 256 == b
    ensures ((b % 16 * 4 + c / 64) * 64 + c % 64) % 256 == c
  {
    FirstOfThree(a, b);
    SecondOfThree(a, b, c);
    ThirdOfThree(b, c);
  }

  lemma OneByte(a: Byte)
    ensures Unbase64(Base64Text([a])) == [a]
  {
    var x, y := a / 4, a % 4 * 16;
    PaddedDigits(Base64Byte(x), Base64Byte(y));
    assert Base64Text([a]) == [Base64Byte(x), Base64Byte(y), 61, 61];
    ThreeBytes(a, 0, 0);
    FourDigits(x, y, 0, 0);
  }

  lemma TwoBytes(a: Byte, b: Byte)
    ensures Unbase64(Base64Text([a, b])) == [a, b]
  {
    var x, y, z := a / 4, a % 4 * 16 + b / 16, b % 16 * 4;
    DigitsOfThree(Base64Byte(x), Base64Byte(y), Base64Byte(z));
    assert Base64Text([a, b]) == [Base64Byte(x), Base64Byte(y), Base64Byte(z), 61];
    ThreeBytes(a, b, 0);
    assert Groups([x, y, z]) == [(x * 4 + y / 16) % 256] + [(y * 16 + z / 4) % 256];
  }

  lemma QuadBack(a: Byte, b: Byte, c: Byte)
    ensures var quad := [Base64Byte(a / 4), Base64Byte(a % 4 * 16 + b / 16),
                         Base64Byte(b % 16 * 4 + c / 64), Base64Byte(c % 64)];
      WholeBase64(quad) && Unbase64(quad) == [a, b, c]
  {
    var x, y, z, w := a / 4, a % 4 * 16 + b / 16, b % 16 * 4 + c / 64, c % 64;
    DigitsOfQuad(Base64Byte(x), Base64Byte(y), Base64Byte(z), Base64Byte(w));
    FourDigits(x, y, z, w);
    ThreeBytes(a, b, c);
  }

  /** Reading base64 text gives the bytes that it was written for. */
  lemma {:induction false} Base64Back(b: seq<Byte>)
    ensures Unbase64(Base64Text(b)) == b
  {
    if |b| == 1 {
      OneByte(b[0]);
      assert b == [b[0]];
    } else if |b| == 2 {
      TwoBytes(b[0], b[1]);
      assert b == [b[0], b[1]];
    } else if |b| >= 3 {
      var quad := [Base64Byte(b[0] / 4), Base64Byte(b[0] % 4 * 16 + b[1] / 16),
                   Base64Byte(b[1] % 16 * 4 + b[2] / 64), Base64Byte(b[2] % 64)];
      QuadBack(b[0], b[1], b[2]);
      Base64Back(b[3..]);
      assert Base64Text(b) == quad + Base64Text(b[3..]) by {
        assert S.ToBase64(b) == quad + S.ToBase64(b[3..]);
      }
      Unbase64Append(quad, Base64Text(b[3..]));
      assert [b[0], b[1], b[2]] + b[3..] == b;
    }
  }

  /** So the base64 text that a decoder makes of any chunks is read as the bytes of the chunks. */
  lemma DecodedBase64Back(chunks: seq<seq<Byte>>)
    ensures var (out, h) := S.Written(S.Base64, S.NOTHING, chunks);
      out + S.EndText(S.Base64, h) == Base64Text(Flatten(chunks))
      && Unbase64(Base64Text(Flatten(chunks))) == Flatten(chunks)
  {
    S.Base64AnyChunking(chunks);
    Base64Back(Flatten(chunks));
  }

  lemma {:induction false} Base64Length(b: seq<Byte>)
    ensures |Base64Text(b)| == (|b| + 2) / 3 * 4
  {
    if |b| >= 3 {
      Base64Length(b[3..]);
      assert |S.ToBase64(b)| == 4 + |S.ToBase64(b[3..])|;
      assert (|b| + 2) / 3 == 1 + (|b| - 3 + 2) / 3;
    }
  }

  lemma ThreeEnd(b: seq<Byte>)
    requires |b| == 3
    ensures |Base64Text(b)| == 4 && Base64Text(b)[3] != 61 && Base64Text(b)[2] != 61
  {
    var quad := [Base64Byte(b[0] / 4), Base64Byte(b[0] % 4 * 16 + b[1] / 16),
                 Base64Byte(b[1] % 16 * 4 + b[2] / 64), Base64Byte(b[2] % 64)];
    assert b[3..] == [] && S.ToBase64(b) == quad + S.ToBase64(b[3..]) == quad;
    assert Base64Digit(61) == None;
  }

  lemma LaterEnd(b: seq<Byte>)
    requires |b| > 3
    ensures var s, later := Base64Text(b), Base64Text(b[3..]);
      |later| >= 4 ==> |s| == 4 + |later| && s[|s| - 1] == later[|later| - 1] && s[|s| - 2] == later[|later| - 2]
  {
    var quad := S.ToBase64(b)[..4];
    assert S.ToBase64(b) == quad + S.ToBase64(b[3..]);
  }

  /** How the text ends: with as much padding as bytes are missing in the last group. */
  lemma {:induction false} Base64Ends(b: seq<Byte>)
    requires b != []
    ensures var s := Base64Text(b);
      && |s| >= 4
      && (s[|s| - 1] == 61 <==> |b| % 3 != 0)
      && (s[|s| - 2] == 61 <==> |b| % 3 == 1)
  {
    if |b| == 3 {
      ThreeEnd(b);
    } else if |b| == 2 {
      assert Base64Digit(61) == None && Base64Text(b)[2] == Base64Byte(b[1] % 16 * 4);
    } else if |b| > 3 {
      Base64Ends(b[3..]);
      LaterEnd(b);
    }
  }

  lemma UnpaddedTwice(s: seq<Byte>)
    requires |s| >= 2 && (s[|s| - 2] == 61 ==> s[|s| - 1] == 61)
    ensures |Unpadded(Unpadded(s))| == |s| - (if s[|s| - 2] == 61 then 2 else if s[|s| - 1] == 61 then 1 else 0)
  {}

  lemma RoomOfLength(n: nat)
    requires n > 0
    ensures RoomFor((n + 2) / 3 * 4 - (if n % 3 == 0 then 0 else 3 - n % 3)) == n
  {}

  /** The room computed for padded text is exactly that of its bytes. */
  lemma RoomIsExact(b: seq<Byte>)
    ensures Base64Room(Base64Text(b)) == |b|
  {
    Base64Length(b);
    if b != [] {
      Base64Ends(b);
      UnpaddedTwice(Base64Text(b));
      RoomOfLength(|b|);
    }
  }

  /** The alphabet for URLs has other characters for the last two digits. */
  function ForUrls(s: seq<Byte>): (r: seq<Byte>)
    ensures |r| == |s|
  {
    if s == [] then []
    else [if s[0] == 43 then 45 else if s[0] == 47 then 95 else s[0]] + ForUrls(s[1..])
  }

  lemma {:induction false} UrlDigits(s: seq<Byte>)
    ensures Base64Digits(ForUrls(s)) == Base64Digits(s)
  {
    if s != [] {
      UrlDigits(s[1..]);
      assert ForUrls(s)[1..] == ForUrls(s[1..]);
    }
  }

  /** Text in that alphabet is read as the same bytes, and so is text without its padding. */
  lemma Base64UrlBack(b: seq<Byte>)
    ensures Unbase64(ForUrls(Base64Text(b))) == b
    ensures Unbase64(Unpadded(Unpadded(Base64Text(b)))) == b
  {
    Base64Back(b);
    UrlDigits(Base64Text(b));
    UnpaddedDigits(Base64Text(b));
    UnpaddedDigits(Unpadded(Base64Text(b)));
  }

  // ---------------------------------------------------------------- hexadecimal

  /** A hexadecimal digit in small or capital letters. */
  function HexByte(x: nat, capital: bool): (c: Byte)
    requires x < 16
    ensures HexDigitOf(c) == Some(x)
  {
    if x < 10 then 48 + x else if capital then 55 + x else 87 + x
  }

  /** Two digits for each byte; any of them may be capital. */
  function HexText(b: seq<Byte>, capital: nat -> bool): (r: seq<Byte>)
    ensures |r| == 2 * |b|
  {
    if b == [] then []
    else
      [HexByte(b[0] / 16, capital(2 * |b|)), HexByte(b[0] % 16, capital(2 * |b| - 1))] + HexText(b[1..], capital)
  }

  /** Hexadecimal text is read as its bytes, whatever the case of its letters. */
  lemma {:induction false} HexBack(b: seq<Byte>, capital: nat -> bool)
    ensures HexOf(HexText(b, capital)) == b
  {
    if b != [] {
      HexBack(b[1..], capital);
      assert HexText(b, capital)[2..] == HexText(b[1..], capital);
      assert [b[0]] + b[1..] == b;
    }
  }

  // ---------------------------------------------------------------- UCS-2

  /** The 16-bit units of bytes, low byte first. */
  function UnitsIn(b: seq<Byte>): seq<int> {
    if |b| < 2 then [] else [b[0] + 256 * b[1]] + UnitsIn(b[2..])
  }

  /** The characters of units: a high surrogate and the unit behind it are one. */
  function CharsIn(units: seq<int>): seq<int> {
    if units == [] then []
    else if 0xD800 <= units[0] < 0xDC00 && |units| > 1 then
      [0x1_0000 + (units[0] - 0xD800) * 0x400 + (units[1] - 0xDC00)] + CharsIn(units[2..])
    else [units[0]] + CharsIn(units[1..])
  }

  lemma UnitsOfOne(c: Scalar, rest: seq<Byte>)
    ensures c < 0x1_0000 ==> UnitsIn(Ucs2Char(c) + rest) == [c] + UnitsIn(rest)
    ensures c >= 0x1_0000 ==>
              UnitsIn(Ucs2Char(c) + rest)
              == [0xD800 + (c - 0x1_0000) / 0x400, 0xDC00 + (c - 0x1_0000) % 0x400] + UnitsIn(rest)
  {
    var s := Ucs2Char(c) + rest;
    if c < 0x1_0000 {
      assert s[2..] == rest;
    } else {
      assert s[2..][2..] == rest;
      assert UnitsIn(s[2..]) == [0xDC00 + (c - 0x1_0000) % 0x400] + UnitsIn(rest);
    }
  }

  /** Text in UCS-2 is read as that text. */
  lemma {:induction false} Ucs2Back(text: seq<Scalar>)
    ensures CharsIn(UnitsIn(Ucs2(text))) == text
  {
    if text != [] {
      var c, later := text[0], UnitsIn(Ucs2(text[1..]));
      Ucs2Back(text[1..]);
      UnitsOfOne(c, Ucs2(text[1..]));
      if c < 0x1_0000 {
        assert ([c] + later)[1..] == later;
      } else {
        var high, low := 0xD800 + (c - 0x1_0000) / 0x400, 0xDC00 + (c - 0x1_0000) % 0x400;
        assert ([high, low] + later)[2..] == later;
        assert (high - 0xD800) * 0x400 + (low - 0xDC00) == c - 0x1_0000;
      }
    }
  }
}
