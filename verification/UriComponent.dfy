/**
 Percent-encoding: `encodeURIComponent` and `decodeURIComponent` as in section 15.1.3 of
 ECMA-262 (5.1), and `unescapeBuffer` of lib/querystring.js. Text is made of Unicode scalars.
 */
module UriComponent {
  import opened Prelude
  import opened Utf8

  type Text = seq<Scalar>

  const PERCENT: Scalar := 37

  /** The `uriUnescaped` characters: letters, digits and - _ . ! ~ * ' ( ) */
  predicate Unreserved(c: Scalar) {
    || 97 <= c <= 122 || 65 <= c <= 90 || 48 <= c <= 57
    || c == 45 || c == 95 || c == 46 || c == 33 || c == 126 || c == 42 || c == 39 || c == 40 || c == 41
  }

  function HexDigit(x: nat): Scalar
    requires x < 16
  {
    if x < 10 then 48 + x else 55 + x
  }

  function HexValue(c: int): (r: Option<nat>)
    ensures r.Some? ==> r.value < 16
  {
    if 48 <= c <= 57 then Some(c - 48)
    else if 97 <= c <= 102 then Some(c - 87)
    else if 65 <= c <= 70 then Some(c - 55)
    else None
  }

  function EscapeBytes(bytes: seq<Byte>): Text {
    if bytes == [] then [] else [PERCENT, HexDigit(bytes[0] / 16), HexDigit(bytes[0] % 16)] + EscapeBytes(bytes[1..])
  }

  function EscapeChar(c: Scalar): Text {
    if Unreserved(c) then [c] else EscapeBytes(EncodeChar(c))
  }

  /** `encodeURIComponent` */
  function Escape(s: Text): Text {
    if s == [] then [] else EscapeChar(s[0]) + Escape(s[1..])
  }

  /** The byte that three characters of a text stand for. */
  function ByteAt(s: Text): Option<Byte> {
    if |s| < 3 || s[0] != PERCENT then None
    else
      match (HexValue(s[1]), HexValue(s[2]))
      case (Some(n), Some(m)) => Some(16 * n + m)
      case _ => None
  }

  function BytesAt(s: Text, n: nat): (r: Option<seq<Byte>>)
    ensures r.Some? ==> |r.value| == n && |s| >= 3 * n
  {
    if n == 0 then Some([])
    else
      match ByteAt(s)
      case None => None
      case Some(b) =>
        match BytesAt(s[3..], n - 1)
        case None => None
        case Some(rest) => Some([b] + rest)
  }

  /** `decodeURIComponent`; None is the URIError. */
  function DecodeComponent(s: Text): Option<Text>
    decreases |s|
  {
    if s == [] then Some([])
    else if s[0] != PERCENT then After([s[0]], DecodeComponent(s[1..]))
    else
      match DecodeEscape(s)
      case None => None
      case Some(c) => After([c], DecodeComponent(s[3 * Size(c)..]))
  }

  function After(front: Text, rest: Option<Text>): Option<Text> {
    match rest case None => None case Some(t) => Some(front + t)
  }

  /** The character whose bytes the text starts with. */
  function DecodeEscape(s: Text): (r: Option<Scalar>)
    ensures r.Some? ==> |s| >= 3 * Size(r.value) && s[0] == PERCENT
    ensures r.Some? ==> BytesAt(s, Size(r.value)) == Some(EncodeChar(r.value))
  {
    match ByteAt(s)
    case None => None
    case Some(b) =>
      if Need(b) == 0 then None
      else
        match BytesAt(s, Need(b))
        case None => None
        case Some(bytes) =>
          WholeChar(bytes);
          DecodeChar(bytes)
  }

  lemma WholeChar(bytes: seq<Byte>)
    ensures bytes != [] && |bytes| == Need(bytes[0]) && DecodeChar(bytes).Some? ==>
            EncodeChar(DecodeChar(bytes).value) == bytes
  {
    if bytes != [] && |bytes| == Need(bytes[0]) {
      assert bytes[..Need(bytes[0])] == bytes;
    }
  }

  // ---------------------------------------------------------------- decoding undoes encoding

  lemma ByteAtEscape(b: Byte, rest: Text)
    ensures ByteAt([PERCENT, HexDigit(b / 16), HexDigit(b % 16)] + rest) == Some(b)
  {}

  /** One escape in front of others. */
  lemma BytesAtMore(b: Byte, s: Text, n: nat)
    requires BytesAt(s, n).Some?
    ensures BytesAt([PERCENT, HexDigit(b / 16), HexDigit(b % 16)] + s, n + 1) == Some([b] + BytesAt(s, n).value)
  {
    var whole := [PERCENT, HexDigit(b / 16), HexDigit(b % 16)] + s;
    ByteAtEscape(b, s);
    assert whole[3..] == s;
  }

  lemma {:induction false} BytesAtEscape(bytes: seq<Byte>, rest: Text)
    ensures BytesAt(EscapeBytes(bytes) + rest, |bytes|) == Some(bytes)
    ensures |EscapeBytes(bytes)| == 3 * |bytes|
  {
    if bytes != [] {
      var b, more := bytes[0], EscapeBytes(bytes[1..]);
      BytesAtEscape(bytes[1..], rest);
      BytesAtMore(b, more + rest, |bytes| - 1);
      Assoc([PERCENT, HexDigit(b / 16), HexDigit(b % 16)], more, rest);
      assert [b] + bytes[1..] == bytes;
    }
  }

  lemma DecodeEscaped(c: Scalar, rest: Text)
    ensures var s := EscapeBytes(EncodeChar(c)) + rest;
      s != [] && s[0] == PERCENT && DecodeEscape(s) == Some(c) && s[3 * Size(c)..] == rest
  {
    var bytes := EncodeChar(c);
    var s := EscapeBytes(bytes) + rest;
    BytesAtEscape(bytes, rest);
    CharHead(c);
    DecodeCharOf(c, []);
    assert bytes + [] == bytes;
  }

  lemma DecodeOne(c: Scalar, rest: Text)
    ensures DecodeComponent(EscapeChar(c) + rest) == After([c], DecodeComponent(rest))
  {
    if Unreserved(c) {
      assert ([c] + rest)[1..] == rest;
    } else {
      DecodeEscaped(c, rest);
    }
  }

  /** `decodeURIComponent(encodeURIComponent(s)) == s` */
  lemma {:induction false} EscapeRoundTrip(s: Text)
    ensures DecodeComponent(Escape(s)) == Some(s)
  {
    if s != [] {
      DecodeOne(s[0], Escape(s[1..]));
      EscapeRoundTrip(s[1..]);
      assert [s[0]] + s[1..] == s;
    }
  }

  /** An escaped text has none of the characters that separate. */
  predicate Clean(s: Text) {
    forall k :: 0 <= k < |s| ==> s[k] == PERCENT || Unreserved(s[k])
  }

  lemma {:induction false} EscapeBytesClean(bytes: seq<Byte>)
    ensures Clean(EscapeBytes(bytes))
  {
    if bytes != [] {
      EscapeBytesClean(bytes[1..]);
    }
  }

  lemma {:induction false} EscapeClean(s: Text)
    ensures Clean(Escape(s))
  {
    if s != [] {
      EscapeBytesClean(EncodeChar(s[0]));
      EscapeClean(s[1..]);
    }
  }

  /** The characters that the standard leaves as they are. */
  predicate Plain(c: Scalar) {
    || 'a' as int <= c <= 'z' as int || 'A' as int <= c <= 'Z' as int || '0' as int <= c <= '9' as int
    || c == '-' as int || c == '_' as int || c == '.' as int || c == '!' as int || c == '~' as int
    || c == '*' as int || c == '\'' as int || c == '(' as int || c == ')' as int
  }

  /** Exactly a text of those stays as it is; every other one gets longer. */
  lemma {:induction false} EscapeKeeps(s: Text)
    ensures (forall k :: 0 <= k < |s| ==> Plain(s[k])) ==> Escape(s) == s
    ensures (exists k :: 0 <= k < |s| && !Plain(s[k])) ==> |Escape(s)| > |s|
  {
    if s != [] {
      EscapeKeeps(s[1..]);
      BytesAtEscape(EncodeChar(s[0]), []);
      assert [s[0]] + s[1..] == s;
      assert forall k :: 0 < k < |s| ==> s[k] == s[1..][k - 1];
    }
  }

  /** Escapes are written with capital letters: u-umlaut is "%C3%BC". */
  lemma CapitalEscapes()
    ensures Escape([0xFC]) == [37, 67, 51, 37, 66, 67]
  {
    var s: Text := [0xFC];
    assert s[1..] == [];
    assert EncodeChar(0xFC) == [0xC3, 0xBC] && [0xC3, 0xBC][1..] == [0xBC] && [0xBC][1..] == [];
    assert EscapeBytes([0xBC]) == [37, 66, 67] + [];
    assert EscapeChar(0xFC) == [37, 67, 51] + EscapeBytes([0xBC]);
  }

  // ---------------------------------------------------------------- unescapeBuffer

  type Unit = x: int | 0 <= x < 0x1_0000

  function UnitsOf(c: int): seq<Unit>
    requires 0 <= c < 0x11_0000
  {
    if c < 0x1_0000 then [c] else [0xD800 + (c - 0x1_0000) / 0x400, 0xDC00 + (c - 0x1_0000) % 0x400]
  }

  /** The 16-bit units of a string. */
  function ToUnits(s: Text): seq<Unit> {
    if s == [] then [] else UnitsOf(s[0]) + ToUnits(s[1..])
  }

  /** What a buffer keeps of a number. */
  function Low(c: Unit): Byte {
    c % 256
  }

  function Space(c: Unit, decodeSpaces: bool): Unit {
    if decodeSpaces && c == 43 then 32 else c
  }

  /** Bytes for valid escapes, and everything else as it is. */
  function UnescapeBytes(s: seq<Unit>, decodeSpaces: bool): seq<Byte>
    decreases |s|
  {
    if s == [] then []
    else if s[0] != PERCENT then [Low(Space(s[0], decodeSpaces))] + UnescapeBytes(s[1..], decodeSpaces)
    else if |s| == 1 then [PERCENT]
    else if HexValue(s[1]) == None then [PERCENT, Low(s[1])] + UnescapeBytes(s[2..], decodeSpaces)
    else if |s| == 2 then [PERCENT, Low(s[1])]
    else if HexValue(s[2]) == None then [PERCENT, Low(s[1]), Low(s[2])] + UnescapeBytes(s[3..], decodeSpaces)
    else [16 * HexValue(s[1]).value + HexValue(s[2]).value] + UnescapeBytes(s[3..], decodeSpaces)
  }

  /** `unescape` */
  function Unescape(s: Text, decodeSpaces: bool): Text {
    Decode(UnescapeBytes(ToUnits(s), decodeSpaces))
  }

  predicate Ascii(s: Text) {
    forall k :: 0 <= k < |s| ==> s[k] < 128
  }

  lemma {:induction false} AsciiUnits(s: Text)
    requires Ascii(s)
    ensures ToUnits(s) == s
  {
    if s != [] {
      AsciiUnits(s[1..]);
      assert [s[0]] + s[1..] == s;
    }
  }

  /** Escapes give `unescapeBuffer` the bytes that they give `decodeURIComponent`. */
  lemma {:induction false} UnescapeEscapes(s: Text, n: nat)
    requires Ascii(s) && BytesAt(s, n).Some?
    ensures UnescapeBytes(s, false) == BytesAt(s, n).value + UnescapeBytes(s[3 * n..], false)
  {
    if n == 0 {
      assert s[0..] == s;
      assert [] + UnescapeBytes(s, false) == UnescapeBytes(s, false);
    } else {
      UnescapeEscapes(s[3..], n - 1);
      assert s[3..][3 * (n - 1)..] == s[3 * n..];
      Assoc([ByteAt(s).value], BytesAt(s[3..], n - 1).value, UnescapeBytes(s[3 * n..], false));
    }
  }

  lemma {:induction false} UnescapeBytesAgree(s: Text)
    requires Ascii(s) && DecodeComponent(s).Some?
    ensures Decode(UnescapeBytes(s, false)) == DecodeComponent(s).value
    decreases |s|
  {
    if s == [] {
    } else if s[0] != PERCENT {
      UnescapeBytesAgree(s[1..]);
      DecodeStep(s[0], UnescapeBytes(s[1..], false));
    } else {
      var c := DecodeEscape(s).value;
      UnescapeEscapes(s, Size(c));
      UnescapeBytesAgree(s[3 * Size(c)..]);
      DecodeStep(c, UnescapeBytes(s[3 * Size(c)..], false));
    }
  }

  /** What `decodeURIComponent` can decode `unescape` decodes to the same text, if it is ASCII
      as every escaped text is. */
  lemma UnescapeAgrees(s: Text)
    requires Ascii(s) && DecodeComponent(s).Some?
    ensures Unescape(s, false) == DecodeComponent(s).value
  {
    AsciiUnits(s);
    UnescapeBytesAgree(s);
  }

  /** An escape that is one: a percent sign and two hexadecimal digits. */
  predicate EscapeAt(s: Text, i: int) {
    0 <= i && i + 2 < |s| && s[i] == PERCENT && HexValue(s[i + 1]).Some? && HexValue(s[i + 2]).Some?
  }

  ghost predicate NoEscape(s: Text) {
    forall i :: !EscapeAt(s, i)
  }

  lemma NoEscapeLater(s: Text, n: nat)
    requires NoEscape(s) && n <= |s|
    ensures NoEscape(s[n..])
  {
    forall i ensures !EscapeAt(s[n..], i) {
      assert !EscapeAt(s, n + i);
    }
  }

  /** What comes first goes on as it is: a character, or what only begins like an escape. */
  lemma KeptFirst(s: Text) returns (n: nat)
    requires Ascii(s) && NoEscape(s) && s != []
    ensures 0 < n <= |s| && UnescapeBytes(s, false) == s[..n] + UnescapeBytes(s[n..], false)
  {
    assert !EscapeAt(s, 0);
    n := if s[0] != PERCENT || |s| == 1 then 1 else if HexValue(s[1]) == None || |s| == 2 then 2 else 3;
    if s[0] == PERCENT && n == |s| <= 2 {
      assert s[n..] == [] && s[..n] + [] == s;
    }
  }

  /** Without an escape all bytes are those of the text, broken escapes included. */
  lemma {:induction false} KeptBytes(s: Text)
    requires Ascii(s) && NoEscape(s)
    ensures UnescapeBytes(s, false) == s
    decreases |s|
  {
    if s != [] {
      var n := KeptFirst(s);
      NoEscapeLater(s, n);
      KeptBytes(s[n..]);
      assert s[..n] + s[n..] == s;
    }
  }

  lemma {:induction false} AsciiBytes(s: Text)
    requires Ascii(s)
    ensures Encode(s) == s
  {
    if s != [] {
      AsciiBytes(s[1..]);
      assert [s[0]] + s[1..] == s;
    }
  }

  /** `unescape` leaves a text without escapes as it is, and does not lose what only begins like one. */
  lemma UnescapeKeeps(s: Text)
    requires Ascii(s) && NoEscape(s)
    ensures Unescape(s, false) == s
  {
    AsciiUnits(s);
    KeptBytes(s);
    AsciiBytes(s);
    RoundTrip(s);
  }

  /** Every percent sign begins an escape. */
  ghost predicate AllEscapes(s: Text) {
    forall i :: 0 <= i < |s| && s[i] == PERCENT ==> EscapeAt(s, i)
  }

  lemma EscapesLater(s: Text, n: nat)
    requires AllEscapes(s) && n <= |s|
    ensures AllEscapes(s[n..])
  {
    forall i | 0 <= i < |s[n..]| && s[n..][i] == PERCENT ensures EscapeAt(s[n..], i) {
      assert EscapeAt(s, n + i);
    }
  }

  lemma EscapesBefore(s: Text, n: nat)
    requires n <= |s| && AllEscapes(s[n..]) && (forall i :: 0 <= i < n && s[i] == PERCENT ==> EscapeAt(s, i))
    ensures AllEscapes(s)
  {
    forall i | n <= i < |s| && s[i] == PERCENT ensures EscapeAt(s, i) {
      assert s[n..][i - n] == s[i] && EscapeAt(s[n..], i - n);
    }
  }

  /** n escapes, one behind the other. */
  lemma {:induction false} BytesAreEscapes(s: Text, n: nat)
    requires BytesAt(s, n).Some? && AllEscapes(s[3 * n..])
    ensures AllEscapes(s)
  {
    if n == 0 {
      assert s[0..] == s;
    } else {
      assert s[3..][3 * (n - 1)..] == s[3 * n..];
      BytesAreEscapes(s[3..], n - 1);
      EscapesBefore(s, 3);
    }
  }

  /** What can be decoded has no broken escape, and its bytes are those of the text. */
  lemma {:induction false} DecodedBytes(s: Text)
    requires Ascii(s) && DecodeComponent(s).Some?
    ensures AllEscapes(s) && UnescapeBytes(s, false) == Encode(DecodeComponent(s).value)
    decreases |s|
  {
    if s == [] {
    } else if s[0] != PERCENT {
      DecodedBytes(s[1..]);
      EscapesBefore(s, 1);
      EncodeOne(s[0], DecodeComponent(s[1..]).value);
    } else {
      var c := DecodeEscape(s).value;
      var later := s[3 * Size(c)..];
      DecodedBytes(later);
      UnescapeEscapes(s, Size(c));
      BytesAreEscapes(s, Size(c));
      EncodeOne(c, DecodeComponent(later).value);
    }
  }

  lemma EncodeOne(c: Scalar, t: Text)
    ensures Encode([c] + t) == EncodeChar(c) + Encode(t)
  {
    assert ([c] + t)[1..] == t;
  }

  /** Bytes that are not ASCII come from escapes. */
  lemma {:induction false} HighBytes(s: Text, bytes: seq<Byte>, rest: seq<Byte>)
    requires Ascii(s) && AllEscapes(s) && UnescapeBytes(s, false) == bytes + rest
    requires forall i :: 0 <= i < |bytes| ==> bytes[i] >= 0x80
    ensures BytesAt(s, |bytes|) == Some(bytes) && UnescapeBytes(s[3 * |bytes|..], false) == rest
    decreases |bytes|
  {
    if bytes == [] {
      assert s[0..] == s && [] + rest == rest;
    } else {
      NotEmpty(s);
      if s[0] != PERCENT {
        FirstPlain(s, bytes + rest);
      }
      FirstEscaped(s, bytes + rest);
      assert (bytes + rest)[1..] == bytes[1..] + rest;
      EscapesLater(s, 3);
      HighBytes(s[3..], bytes[1..], rest);
      assert s[3..][3 * (|bytes| - 1)..] == s[3 * |bytes|..];
      assert [bytes[0]] + bytes[1..] == bytes;
    }
  }

  lemma FirstPlain(s: Text, bytes: seq<Byte>)
    requires Ascii(s) && UnescapeBytes(s, false) == bytes && s != [] && s[0] != PERCENT
    ensures bytes != [] && bytes[0] == s[0] < 0x80 && UnescapeBytes(s[1..], false) == bytes[1..]
  {
    assert bytes == [s[0]] + UnescapeBytes(s[1..], false);
  }

  lemma FirstEscaped(s: Text, bytes: seq<Byte>)
    requires Ascii(s) && AllEscapes(s) && UnescapeBytes(s, false) == bytes && s != [] && s[0] == PERCENT
    ensures bytes != [] && |s| >= 3 && ByteAt(s) == Some(bytes[0]) && UnescapeBytes(s[3..], false) == bytes[1..]
  {
    FirstEscape(s);
    assert bytes == [ByteAt(s).value] + UnescapeBytes(s[3..], false);
  }

  lemma NotEmpty(s: Text)
    requires Ascii(s) && UnescapeBytes(s, false) != []
    ensures s != []
  {}

  lemma FirstEscape(s: Text)
    requires Ascii(s) && AllEscapes(s) && s != [] && s[0] == PERCENT
    ensures |s| >= 3 && ByteAt(s).Some?
    ensures UnescapeBytes(s, false) == [ByteAt(s).value] + UnescapeBytes(s[3..], false)
  {
    assert EscapeAt(s, 0);
  }

  lemma CharBytes(c: Scalar)
    ensures c < 0x80 ==> EncodeChar(c) == [c]
    ensures c >= 0x80 ==> forall i :: 0 <= i < Size(c) ==> EncodeChar(c)[i] >= 0x80
  {}

  /** Whether plain or escaped, the bytes of a character are decoded to it. */
  lemma CharDecodes(s: Text, c: Scalar, rest: seq<Byte>) returns (n: nat)
    requires Ascii(s) && AllEscapes(s) && UnescapeBytes(s, false) == EncodeChar(c) + rest
    ensures 0 < n <= |s| && UnescapeBytes(s[n..], false) == rest
    ensures DecodeComponent(s) == After([c], DecodeComponent(s[n..]))
  {
    var bytes := EncodeChar(c) + rest;
    CharBytes(c);
    CharHead(c);
    NotEmpty(s);
    if s[0] != PERCENT {
      n := 1;
      FirstPlain(s, bytes);
      assert bytes[1..] == rest;
    } else {
      n := 3 * Size(c);
      EscapedBytes(s, c, rest);
      DecodeCharOf(c, []);
      assert EncodeChar(c) + [] == EncodeChar(c);
    }
  }

  lemma EscapedBytes(s: Text, c: Scalar, rest: seq<Byte>)
    requires Ascii(s) && AllEscapes(s) && UnescapeBytes(s, false) == EncodeChar(c) + rest
    requires s != [] && s[0] == PERCENT
    ensures BytesAt(s, Size(c)) == Some(EncodeChar(c)) && UnescapeBytes(s[3 * Size(c)..], false) == rest
  {
    CharBytes(c);
    if c >= 0x80 {
      HighBytes(s, EncodeChar(c), rest);
    } else {
      FirstEscaped(s, EncodeChar(c) + rest);
      assert (EncodeChar(c) + rest)[1..] == rest && BytesAt(s[3..], 0) == Some([]);
      assert BytesAt(s, 1) == Some([c] + []) && [c] + [] == [c];
    }
  }

  lemma {:induction false} BytesDecode(s: Text, t: Text)
    requires Ascii(s) && AllEscapes(s) && UnescapeBytes(s, false) == Encode(t)
    ensures DecodeComponent(s) == Some(t)
    decreases |t|
  {
    if t == [] {
      assert s == [];
    } else {
      var n := CharDecodes(s, t[0], Encode(t[1..]));
      EscapesLater(s, n);
      BytesDecode(s[n..], t[1..]);
      assert [t[0]] + t[1..] == t;
    }
  }

  /** `decodeURIComponent` throws nothing if and only if every percent sign begins an escape and the bytes are
      the UTF-8 of some text; and then it is this text that it gives. */
  lemma DecodableIff(s: Text)
    requires Ascii(s)
    ensures DecodeComponent(s).Some? <==> AllEscapes(s) && exists t :: Encode(t) == UnescapeBytes(s, false)
    ensures DecodeComponent(s).Some? ==> Encode(DecodeComponent(s).value) == UnescapeBytes(s, false)
  {
    if DecodeComponent(s).Some? {
      DecodedBytes(s);
    } else if t :| AllEscapes(s) && Encode(t) == UnescapeBytes(s, false) {
      BytesDecode(s, t);
    }
  }

  function Spaced(s: Text): (r: Text)
    ensures |r| == |s|
  {
    if s == [] then [] else [if s[0] == 43 then 32 else s[0]] + Spaced(s[1..])
  }

  lemma {:induction false} SpacedBytes(s: Text)
    requires Ascii(s) && PERCENT !in s
    ensures UnescapeBytes(s, true) == Spaced(s) && Ascii(Spaced(s))
  {
    if s != [] {
      SpacedBytes(s[1..]);
    }
  }

  /** If it is asked for, a plus becomes a space, and nothing else changes. */
  lemma UnescapeSpaces(s: Text)
    requires Ascii(s) && PERCENT !in s
    ensures Unescape(s, true) == Spaced(s)
  {
    AsciiUnits(s);
    SpacedBytes(s);
    AsciiBytes(Spaced(s));
    RoundTrip(Spaced(s));
  }

  datatype Mode = InText | InHex0 | InHex1

  /** What the loop has still to write when it is in the middle of an escape. */
  function Pending(mode: Mode, n: nat, hexchar: int, rest: seq<Unit>, decodeSpaces: bool): seq<Byte>
    requires 0 <= hexchar < 0x1_0000 && n < 16
  {
    match mode
    case InText => UnescapeBytes(rest, decodeSpaces)
    case InHex0 => UnescapeBytes([PERCENT] + rest, decodeSpaces)
    case InHex1 =>
      if rest == [] then [PERCENT, Low(hexchar)]
      else if HexValue(rest[0]) == None then
        [PERCENT, Low(hexchar), Low(rest[0])] + UnescapeBytes(rest[1..], decodeSpaces)
      else [16 * n + HexValue(rest[0]).value] + UnescapeBytes(rest[1..], decodeSpaces)
  }

  lemma EnterEscape(rest: seq<Unit>, decodeSpaces: bool)
    requires rest != []
    ensures HexValue(rest[0]).Some? ==>
      UnescapeBytes([PERCENT] + rest, decodeSpaces)
      == Pending(InHex1, HexValue(rest[0]).value, rest[0], rest[1..], decodeSpaces)
    ensures HexValue(rest[0]) == None ==>
      UnescapeBytes([PERCENT] + rest, decodeSpaces) == [PERCENT, Low(rest[0])] + UnescapeBytes(rest[1..], decodeSpaces)
  {
    var s := [PERCENT] + rest;
    assert s[1] == rest[0] && s[2..] == rest[1..];
    if |rest| > 1 {
      assert s[2] == rest[1] && s[3..] == rest[1..][1..];
    }
  }

  /** A write to a buffer; behind its end it does nothing. */
  method Store(out: array<Byte>, at: nat, b: Byte)
    modifies out
    ensures forall k :: 0 <= k < out.Length ==> out[k] == if k == at then b else old(out[k])
  {
    if at < out.Length {
      out[at] := b;
    }
  }

  /** The buffer holds what was written, as far as it goes. */
  ghost predicate Holds(out: array<Byte>, written: seq<Byte>)
    reads out
  {
    forall k :: 0 <= k < |written| && k < out.Length ==> out[k] == written[k]
  }

  method StoreAll(out: array<Byte>, at: nat, bytes: seq<Byte>, ghost written: seq<Byte>) returns (next: nat)
    requires Holds(out, written) && at == |written|
    modifies out
    ensures Holds(out, written + bytes) && next == |written + bytes|
  {
    next := at;
    for i := 0 to |bytes|
      invariant next == at + i && Holds(out, written + bytes[..i])
    {
      Store(out, next, bytes[i]);
      assert written + bytes[..i + 1] == written + bytes[..i] + [bytes[i]];
      next := next + 1;
    }
    assert bytes[..|bytes|] == bytes;
  }

  datatype Machine = Machine(mode: Mode, n: nat, hexchar: int)

  /** The number that `charCodeAt` gives, or -1 for NaN. */
  function CodeAt(s: seq<Unit>, i: nat): int {
    if i < |s| then s[i] else -1
  }

  /** What a buffer keeps of such a number. */
  function Kept(c: int): Byte {
    if c < 0 then 0 else c % 256
  }

  /** One round of the loop: the next state and what it writes. */
  function Round(m: Machine, c: int, decodeSpaces: bool): (Machine, seq<Byte>) {
    match m.mode
    case InText =>
      if c == PERCENT then (Machine(InHex0, 0, m.hexchar), [])
      else (m, [if decodeSpaces && c == 43 then 32 else Kept(c)])
    case InHex0 =>
      (match HexValue(c)
       case Some(x) => (Machine(InHex1, x, c), [])
       case None => (Machine(InText, m.n, c), [PERCENT, Kept(c)]))
    case InHex1 =>
      (match HexValue(c)
       case Some(x) => (m.(mode := InText), [(16 * m.n + x) % 256])
       case None => (m.(mode := InText), [PERCENT, Kept(m.hexchar), Kept(c)]))
  }

  predicate MachineOk(m: Machine) {
    0 <= m.hexchar < 0x1_0000 && m.n < 16
  }

  function Left(m: Machine, rest: seq<Unit>, decodeSpaces: bool): seq<Byte>
    requires MachineOk(m)
  {
    Pending(m.mode, m.n, m.hexchar, rest, decodeSpaces)
  }

  /** A round writes what comes next. */
  lemma RoundWrites(m: Machine, rest: seq<Unit>, decodeSpaces: bool)
    requires MachineOk(m) && rest != []
    ensures var (m', bytes) := Round(m, rest[0], decodeSpaces);
      MachineOk(m') && Left(m, rest, decodeSpaces) == bytes + Left(m', rest[1..], decodeSpaces)
  {
    match m.mode
    case InText => TextWrites(m, rest, decodeSpaces);
    case InHex0 =>
      var m' := Round(m, rest[0], decodeSpaces).0;
      EnterEscape(rest, decodeSpaces);
      assert [] + Left(m', rest[1..], decodeSpaces) == Left(m', rest[1..], decodeSpaces);
    case InHex1 =>
  }

  lemma TextWrites(m: Machine, rest: seq<Unit>, decodeSpaces: bool)
    requires MachineOk(m) && rest != [] && m.mode == InText
    ensures var (m', bytes) := Round(m, rest[0], decodeSpaces);
      MachineOk(m') && Left(m, rest, decodeSpaces) == bytes + Left(m', rest[1..], decodeSpaces)
  {
    if rest[0] == PERCENT {
      assert [rest[0]] + rest[1..] == rest;
      assert [] + UnescapeBytes(rest, decodeSpaces) == UnescapeBytes(rest, decodeSpaces);
    }
  }

  /** The last round, behind the end of the string, writes one byte too many. */
  lemma LastRound(m: Machine, decodeSpaces: bool)
    requires MachineOk(m)
    ensures Round(m, -1, decodeSpaces).1 == Left(m, [], decodeSpaces) + [0]
  {
    if m.mode == InHex0 {
      assert [PERCENT] + [] == [PERCENT];
    }
  }

  /** The rounds of the loop that see a character. */
  method UnescapeRounds(s: seq<Unit>, out: array<Byte>, decodeSpaces: bool)
    returns (m: Machine, outIndex: nat, ghost written: seq<Byte>)
    requires out.Length == |s|
    modifies out
    ensures MachineOk(m) && outIndex == |written| && Holds(out, written)
    ensures written + Left(m, [], decodeSpaces) == UnescapeBytes(s, decodeSpaces)
  {
    m, written := Machine(InText, 0, 0), [];
    var inIndex := 0;
    outIndex := 0;
    while inIndex < |s|
      invariant 0 <= inIndex <= |s| && outIndex == |written| && MachineOk(m) && Holds(out, written)
      invariant written + Left(m, s[inIndex..], decodeSpaces) == UnescapeBytes(s, decodeSpaces)
    {
      RoundWrites(m, s[inIndex..], decodeSpaces);
      var (m', bytes) := Round(m, CodeAt(s, inIndex), decodeSpaces);
      outIndex := StoreAll(out, outIndex, bytes, written);
      Assoc(written, bytes, Left(m', s[inIndex + 1..], decodeSpaces));
      written := written + bytes;
      m := m';
      inIndex := inIndex + 1;
    }
  }

  /** `unescapeBuffer`. Its last round is the one behind the end of the string. */
  method UnescapeBuffer(s: seq<Unit>, decodeSpaces: bool) returns (r: seq<Byte>)
    ensures r == UnescapeBytes(s, decodeSpaces)
  {
    var out := new Byte[|s|];
    var m, outIndex, written := UnescapeRounds(s, out, decodeSpaces);
    LastRound(m, decodeSpaces);
    var bytes := Round(m, CodeAt(s, |s|), decodeSpaces).1;
    outIndex := StoreAll(out, outIndex, bytes, written);
    ghost var whole := UnescapeBytes(s, decodeSpaces);
    assert written + bytes == whole + [0];
    UnescapeShorter(s, decodeSpaces);
    r := out[..outIndex - 1];
  }

  lemma {:induction false} UnescapeShorter(s: seq<Unit>, decodeSpaces: bool)
    ensures |UnescapeBytes(s, decodeSpaces)| <= |s|
    decreases |s|
  {
    if s == [] {
    } else if s[0] != PERCENT {
      UnescapeShorter(s[1..], decodeSpaces);
    } else if |s| == 1 {
    } else if HexValue(s[1]) == None {
      UnescapeShorter(s[2..], decodeSpaces);
    } else if |s| == 2 {
    } else {
      UnescapeShorter(s[3..], decodeSpaces);
    }
  }
}
