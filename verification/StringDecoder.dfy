/**
 `StringDecoder` of lib/string_decoder.js for UTF-8 and base64: turns buffers into text
 without tearing a character, or a group of three bytes, that is split between buffers.
 */
module StringDecoder {
  import opened Prelude
  import opened Utf8

  datatype Encoding = Utf8Text | Base64

  /** Text: Unicode scalars, or the characters of the base64 alphabet. */
  type Text = seq<int>

  function Base64Char(x: int): int
    requires 0 <= x < 64
  {
    if x < 26 then 'A' as int + x
    else if x < 52 then 'a' as int + x - 26
    else if x < 62 then '0' as int + x - 52
    else if x == 62 then '+' as int else '/' as int
  }

  /** `buffer.toString('base64')` */
  function ToBase64(b: seq<Byte>): Text {
    if |b| == 0 then []
    else if |b| == 1 then [Base64Char(b[0] / 4), Base64Char(b[0] % 4 * 16), '=' as int, '=' as int]
    else if |b| == 2 then
      [Base64Char(b[0] / 4), Base64Char(b[0] % 4 * 16 + b[1] / 16), Base64Char(b[1] % 16 * 4), '=' as int]
    else
      [Base64Char(b[0] / 4), Base64Char(b[0] % 4 * 16 + b[1] / 16),
       Base64Char(b[1] % 16 * 4 + b[2] / 64), Base64Char(b[2] % 64)] + ToBase64(b[3..])
  }

  function ToText(enc: Encoding, b: seq<Byte>): Text {
    match enc case Utf8Text => Decode(b) case Base64 => ToBase64(b)
  }

  /** The bytes held back, `charBuffer[..charReceived]`, and `charLength`. */
  datatype Held = Held(bytes: seq<Byte>, need: nat)

  const NOTHING := Held([], 0)

  predicate HeldOk(h: Held) {
    if h.need == 0 then h.bytes == [] else 0 < |h.bytes| < h.need <= 4
  }

  /** Does the byte `i` places before the end announce more bytes than there are? */
  function Announced(c: Byte, i: nat): nat {
    if i == 1 && c / 0x20 == 0x06 then 2
    else if i <= 2 && c / 0x10 == 0x0E then 3
    else if i <= 3 && c / 0x08 == 0x1E then 4
    else 0
  }

  /** `detectIncompleteChar` from place `i` on: how many bytes to hold back, and `charLength`. */
  function DetectFrom(b: seq<Byte>, i: nat): (nat, nat)
    requires i <= |b|
  {
    if i == 0 then (0, 0)
    else if Announced(b[|b| - i], i) > 0 then (i, Announced(b[|b| - i], i))
    else DetectFrom(b, i - 1)
  }

  function Detect(enc: Encoding, b: seq<Byte>): (r: (nat, nat))
    ensures r.0 <= |b| && (r.1 > 0 ==> 0 < r.0 < r.1 <= 4)
  {
    match enc
    case Utf8Text =>
      DetectedFits(b, if |b| >= 3 then 3 else |b|);
      DetectFrom(b, if |b| >= 3 then 3 else |b|)
    case Base64 => (|b| % 3, if |b| % 3 != 0 then 3 else 0)
  }

  lemma {:induction false} DetectedFits(b: seq<Byte>, i: nat)
    requires i <= |b|
    ensures var r := DetectFrom(b, i); r.0 <= i && (r.1 > 0 ==> 0 < r.0 < r.1 <= 4) && (r.1 == 0 ==> r.0 == 0)
  {
    if i > 0 {
      DetectedFits(b, i - 1);
    }
  }

  /** `write` when nothing is held back. */
  function WriteFresh(enc: Encoding, b: seq<Byte>): (r: (Text, Held))
    ensures HeldOk(r.1)
  {
    var (incomplete, need) := Detect(enc, b);
    if need > 0 then (ToText(enc, b[..|b| - incomplete]), Held(b[|b| - incomplete..], need))
    else (ToText(enc, b), NOTHING)
  }

  function WriteText(enc: Encoding, h: Held, b: seq<Byte>): (r: (Text, Held))
    requires HeldOk(h)
    ensures HeldOk(r.1)
  {
    if h.need == 0 then WriteFresh(enc, b)
    else
      var i := if |b| >= h.need - |h.bytes| then h.need - |h.bytes| else |b|;
      var bytes := h.bytes + b[..i];
      if |bytes| < h.need then ([], Held(bytes, h.need))
      else if i == |b| then (ToText(enc, bytes), NOTHING)
      else
        var (text, h') := WriteFresh(enc, b[i..]);
        (ToText(enc, bytes) + text, h')
  }

  function EndText(enc: Encoding, h: Held): Text {
    ToText(enc, h.bytes)
  }

  /** The source's object. */
  class Decoder {
    const encoding: Encoding
    const charBuffer: array<Byte>
    var charReceived: nat
    var charLength: nat

    ghost predicate Valid()
      reads this, charBuffer
    {
      && charBuffer.Length == 6
      && (if charLength == 0 then charReceived == 0 else 0 < charReceived < charLength <= 4)
    }

    ghost function Abs(): (h: Held)
      reads this, charBuffer
      requires Valid()
      ensures HeldOk(h)
    {
      Held(charBuffer[..charReceived], charLength)
    }

    constructor (enc: Encoding)
      ensures Valid() && encoding == enc && Abs() == NOTHING && fresh(charBuffer)
    {
      encoding := enc;
      charBuffer := new Byte[6];
      charReceived, charLength := 0, 0;
    }

    /** `buffer.copy(charBuffer, at, from, to)` */
    method CopyIn(buffer: seq<Byte>, at: nat, from: nat, to: nat)
      requires from <= to <= |buffer| && at + (to - from) <= charBuffer.Length
      modifies charBuffer
      ensures charBuffer[..at] == old(charBuffer[..at])
      ensures charBuffer[..at + (to - from)] == old(charBuffer[..at]) + buffer[from..to]
    {
      forall k | 0 <= k < to - from {
        charBuffer[at + k] := buffer[from + k];
      }
      assert charBuffer[at..at + (to - from)] == buffer[from..to];
      assert charBuffer[..at + (to - from)] == charBuffer[..at] + charBuffer[at..at + (to - from)];
    }

    /** Sets `charLength`; for base64 also `charReceived`. */
    method DetectIncomplete(buffer: seq<Byte>) returns (incomplete: nat)
      requires charLength == 0
      modifies this`charLength, this`charReceived
      ensures (incomplete, charLength) == Detect(encoding, buffer)
      ensures charReceived == if encoding.Base64? then incomplete else old(charReceived)
    {
      match encoding
      case Base64 =>
        incomplete := |buffer| % 3;
        charReceived := incomplete;
        charLength := if incomplete != 0 then 3 else 0;
      case Utf8Text =>
        var i := if |buffer| >= 3 then 3 else |buffer|;
        while i > 0
          invariant 0 <= i <= |buffer| && charLength == 0
          invariant DetectFrom(buffer, i) == Detect(encoding, buffer)
        {
          var c := buffer[|buffer| - i];
          if i == 1 && c / 0x20 == 0x06 {
            charLength := 2;
            break;
          }
          if i <= 2 && c / 0x10 == 0x0E {
            charLength := 3;
            break;
          }
          if i <= 3 && c / 0x08 == 0x1E {
            charLength := 4;
            break;
          }
          i := i - 1;
        }
        incomplete := i;
    }

    /** The part of `write` after a held character has been dealt with. */
    method WriteRest(buffer: seq<Byte>) returns (text: Text)
      requires Valid() && charLength == 0
      modifies this, charBuffer
      ensures Valid() && (text, Abs()) == WriteFresh(encoding, buffer)
    {
      var lenIncomplete := DetectIncomplete(buffer);
      var end := |buffer|;
      if charLength != 0 {
        CopyIn(buffer, 0, |buffer| - lenIncomplete, end);
        charReceived := lenIncomplete;
        assert charBuffer[..charReceived] == buffer[|buffer| - lenIncomplete..];
        end := end - lenIncomplete;
      }
      assert buffer[..|buffer|] == buffer;
      assert charLength == 0 ==> charReceived == 0 && charBuffer[..charReceived] == [];
      text := ToText(encoding, buffer[..end]);
    }

    method Write(buffer: seq<Byte>) returns (text: Text)
      requires Valid()
      modifies this, charBuffer
      ensures Valid() && (text, Abs()) == WriteText(encoding, old(Abs()), buffer)
    {
      if charLength == 0 {
        text := WriteRest(buffer);
        return;
      }
      var i := if |buffer| >= charLength - charReceived then charLength - charReceived else |buffer|;
      CopyIn(buffer, charReceived, 0, i);
      charReceived := charReceived + i;
      if charReceived < charLength {
        return [];
      }
      text := ToText(encoding, charBuffer[..charLength]);
      charReceived, charLength := 0, 0;
      if i == |buffer| {
        return;
      }
      var rest := WriteRest(buffer[i..]);
      text := text + rest;
    }

    method End(buffer: seq<Byte>) returns (text: Text)
      requires Valid()
      modifies this, charBuffer
      ensures Valid()
      ensures (var (out, h) := if buffer == [] then ([], old(Abs())) else WriteText(encoding, old(Abs()), buffer);
               text == out + EndText(encoding, h))
    {
      text := [];
      if |buffer| != 0 {
        text := Write(buffer);
      }
      if charReceived != 0 {
        text := text + ToText(encoding, charBuffer[..charReceived]);
      } else {
        assert text + [] == text;
      }
    }
  }

  // ---------------------------------------------------------------- any chunking

  /** All that is written for the chunks, and what is held back after them. */
  function Written(enc: Encoding, h: Held, chunks: seq<seq<Byte>>): (r: (Text, Held))
    requires HeldOk(h)
    ensures HeldOk(r.1)
    decreases |chunks|
  {
    if chunks == [] then ([], h)
    else
      var (text, h1) := WriteText(enc, h, chunks[0]);
      var (rest, h2) := Written(enc, h1, chunks[1..]);
      (text + rest, h2)
  }

  /** At the end of a buffer that starts at a character, exactly the torn character is found. */
  lemma {:induction false} DetectTorn(b: seq<Byte>, whole: seq<Scalar>, tail: seq<Byte>, i: nat)
    requires b == Encode(whole) + tail && |tail| <= i <= |b|
    requires tail == [] || |tail| < Need(tail[0])
    ensures DetectFrom(b, i) == (|tail|, if tail == [] then 0 else Need(tail[0]))
  {
    if i > |tail| {
      StartFits(whole, |b| - i);
      assert b[|b| - i] == Encode(whole)[|b| - i];
      DetectTorn(b, whole, tail, i - 1);
    } else if i > 0 {
      assert b[|b| - i] == tail[0];
    }
  }

  /** A buffer that starts at a character: whole characters, then part of the next one. */
  ghost predicate Torn(b: seq<Byte>, text: seq<Scalar>, future: seq<Byte>, k: nat, tail: seq<Byte>) {
    && k <= |text| && b == Encode(text[..k]) + tail && tail + future == Encode(text[k..])
    && |tail| <= 3 && (tail != [] ==> |tail| < Need(tail[0]))
  }

  lemma TornAt(b: seq<Byte>, text: seq<Scalar>, future: seq<Byte>) returns (k: nat, tail: seq<Byte>)
    requires b + future == Encode(text)
    ensures Torn(b, text, future, k, tail)
  {
    k := CharsBefore(text, |b|);
    CutAt(text, |b|);
    var whole := |Encode(text[..k])|;
    tail := b[whole..];
    assert b[..whole] == (b + future)[..whole];
    assert tail + future == (b + future)[whole..];
    if tail != [] {
      assert Encode(text[k..]) == EncodeChar(text[k]) + Encode(text[k..][1..]);
      CharHead(text[k]);
      assert tail[0] == (tail + future)[0] == EncodeChar(text[k])[0];
    }
  }

  lemma WriteTorn(b: seq<Byte>, text: seq<Scalar>, future: seq<Byte>, k: nat, tail: seq<Byte>)
    requires Torn(b, text, future, k, tail)
    ensures WriteFresh(Utf8Text, b) == (text[..k], Held(tail, if tail == [] then 0 else Need(tail[0])))
  {
    var i := if |b| >= 3 then 3 else |b|;
    DetectTorn(b, text[..k], tail, i);
    TornParts(b, Encode(text[..k]), tail);
    RoundTrip(text[..k]);
  }

  lemma TornParts(b: seq<Byte>, whole: seq<Byte>, tail: seq<Byte>)
    requires b == whole + tail
    ensures b[..|b| - |tail|] == whole && b[|b| - |tail|..] == tail && (tail == [] ==> b == whole)
  {}

  /** The invariant between calls: the bytes held back begin the next character. */
  predicate HeldStart(h: Held) {
    HeldOk(h) && (h.need > 0 ==> h.need == Need(h.bytes[0]))
  }

  /** `out` are the next characters of the text, and `h` holds what comes after them. */
  ghost predicate Emits(out: Text, h: Held, text: seq<Scalar>, future: seq<Byte>) {
    HeldStart(h) && |out| <= |text| && out == text[..|out|] && h.bytes + future == Encode(text[|out|..])
  }

  lemma FreshUtf8(b: seq<Byte>, text: seq<Scalar>, future: seq<Byte>)
    requires b + future == Encode(text)
    ensures var (out, h) := WriteFresh(Utf8Text, b); Emits(out, h, text, future)
  {
    var k, tail := TornAt(b, text, future);
    WriteTorn(b, text, future, k, tail);
  }

  lemma SplitAt(a: seq<Byte>, b: seq<Byte>, future: seq<Byte>, c: seq<Byte>, rest: seq<Byte>, i: nat)
    requires a + b + future == c + rest && i <= |b| && |a| + i == |c|
    ensures a + b[..i] == c && b[i..] + future == rest
  {
    var all := a + b + future;
    assert a + b[..i] == all[..|c|];
    assert b[i..] + future == all[|c|..];
  }

  /** The first byte held back says how long the next character is. */
  lemma HeldFirst(h: Held, b: seq<Byte>, text: seq<Scalar>, future: seq<Byte>)
    requires HeldStart(h) && h.need > 0 && h.bytes + b + future == Encode(text)
    ensures text != [] && h.need == Size(text[0])
  {
    assert (h.bytes + b + future)[0] == h.bytes[0];
    assert text != [];
    CharHead(text[0]);
    assert (EncodeChar(text[0]) + Encode(text[1..]))[0] == EncodeChar(text[0])[0];
  }

  /** The bytes held back and those that complete the character. */
  lemma HeldCompletes(h: Held, b: seq<Byte>, text: seq<Scalar>, future: seq<Byte>)
    requires HeldStart(h) && h.need > 0 && h.bytes + b + future == Encode(text)
    ensures text != [] && h.need == Size(text[0])
    ensures var i := h.need - |h.bytes|;
      i <= |b| ==> h.bytes + b[..i] == EncodeChar(text[0]) && b[i..] + future == Encode(text[1..])
  {
    HeldFirst(h, b, text, future);
    if h.need - |h.bytes| <= |b| {
      var c, rest := EncodeChar(text[0]), Encode(text[1..]);
      SplitAt(h.bytes, b, future, c, rest, h.need - |h.bytes|);
    }
  }

  /** Putting a completed character in front of what is written for the rest. */
  lemma EmitsAfter(c: Scalar, out: Text, h: Held, text: seq<Scalar>, future: seq<Byte>)
    requires text != [] && text[0] == c && Emits(out, h, text[1..], future)
    ensures Emits([c] + out, h, text, future)
  {
    assert text[..|out| + 1] == [c] + text[1..][..|out|];
    assert text[|out| + 1..] == text[1..][|out|..];
  }

  /** One `write` emits characters of the text, in order, and keeps the bytes of the next one. */
  lemma WriteUtf8(h: Held, b: seq<Byte>, text: seq<Scalar>, future: seq<Byte>)
    requires HeldStart(h) && h.bytes + b + future == Encode(text)
    ensures var (out, h') := WriteText(Utf8Text, h, b); Emits(out, h', text, future)
  {
    if h.need == 0 {
      assert h.bytes + b + future == b + future;
      FreshUtf8(b, text, future);
    } else {
      HeldCompletes(h, b, text, future);
      var i := h.need - |h.bytes|;
      if i > |b| {
        assert b[..|b|] == b;
        assert text[0..] == text;
      } else {
        DecodeStep(text[0], []);
        assert EncodeChar(text[0]) + [] == EncodeChar(text[0]);
        assert Decode(h.bytes + b[..i]) == [text[0]];
        if i == |b| {
          assert b[i..] + future == future;
          assert [text[0]] + [] == [text[0]];
          EmitsAfter(text[0], [], NOTHING, text, future);
        } else {
          FreshUtf8(b[i..], text[1..], future);
          var (out, h') := WriteFresh(Utf8Text, b[i..]);
          EmitsAfter(text[0], out, h', text, future);
        }
      }
    }
  }

  lemma {:induction false} WrittenUtf8(h: Held, chunks: seq<seq<Byte>>, text: seq<Scalar>)
    requires HeldStart(h) && h.bytes + Flatten(chunks) == Encode(text)
    ensures Written(Utf8Text, h, chunks) == (text, NOTHING)
    decreases |chunks|
  {
    if chunks == [] {
      assert h.bytes + [] == h.bytes;
      if h.need > 0 {
        StartFits(text, 0);
      }
    } else {
      var future := Flatten(chunks[1..]);
      assert h.bytes + (chunks[0] + future) == h.bytes + chunks[0] + future;
      WriteUtf8(h, chunks[0], text, future);
      var (out, h') := WriteText(Utf8Text, h, chunks[0]);
      WrittenUtf8(h', chunks[1..], text[|out|..]);
      assert text[..|out|] + text[|out|..] == text;
    }
  }

  /** For every text and every way of cutting its UTF-8 bytes into chunks, the outputs of
      `write` are the text and nothing is left for `end`. */
  lemma Utf8AnyChunking(chunks: seq<seq<Byte>>, text: seq<Scalar>)
    requires Flatten(chunks) == Encode(text)
    ensures Written(Utf8Text, NOTHING, chunks) == (text, NOTHING)
  {
    assert [] + Flatten(chunks) == Flatten(chunks);
    WrittenUtf8(NOTHING, chunks, text);
  }

  /** One `write` of the first bytes of a text. */
  lemma WriteSome(h: Held, b: seq<Byte>, rest: seq<Byte>, text: seq<Scalar>, more: seq<Byte>)
    requires HeldStart(h) && h.bytes + (b + rest) + more == Encode(text)
    ensures var (out, h') := WriteText(Utf8Text, h, b);
      && HeldStart(h') && |out| <= |text| && out == text[..|out|]
      && h'.bytes + rest + more == Encode(text[|out|..])
  {
    Regroup(h.bytes, b, rest, more);
    WriteUtf8(h, b, text, rest + more);
    EmitsMeans(WriteText(Utf8Text, h, b).0, WriteText(Utf8Text, h, b).1, text, rest, more);
  }

  lemma Regroup(a: seq<Byte>, b: seq<Byte>, c: seq<Byte>, d: seq<Byte>)
    ensures a + (b + c) + d == a + b + (c + d)
  {}

  lemma EmitsMeans(out: Text, h: Held, text: seq<Scalar>, rest: seq<Byte>, more: seq<Byte>)
    requires Emits(out, h, text, rest + more)
    ensures HeldStart(h) && |out| <= |text| && out == text[..|out|]
    ensures h.bytes + rest + more == Encode(text[|out|..])
  {
    Assoc(h.bytes, rest, more);
  }

  /** The same for any number of chunks: what is held back begins the next character. */
  lemma {:induction false} WrittenTorn(h: Held, chunks: seq<seq<Byte>>, text: seq<Scalar>, more: seq<Byte>)
    requires HeldStart(h) && h.bytes + Flatten(chunks) + more == Encode(text)
    ensures var (out, h') := Written(Utf8Text, h, chunks); Emits(out, h', text, more)
    decreases |chunks|
  {
    if chunks == [] {
      assert h.bytes + [] == h.bytes && text[0..] == text;
    } else {
      WriteSome(h, chunks[0], Flatten(chunks[1..]), text, more);
      var (out, h1) := WriteText(Utf8Text, h, chunks[0]);
      WrittenTorn(h1, chunks[1..], text[|out|..], more);
      var (rest, h2) := Written(Utf8Text, h1, chunks[1..]);
      EmitsBehind(out, rest, h2, text, more);
    }
  }

  lemma EmitsBehind(out: Text, rest: Text, h: Held, text: seq<Scalar>, more: seq<Byte>)
    requires |out| <= |text| && out == text[..|out|] && Emits(rest, h, text[|out|..], more)
    ensures Emits(out + rest, h, text, more)
  {
    assert text[..|out| + |rest|] == text[..|out|] + text[|out|..][..|rest|];
    assert text[|out| + |rest|..] == text[|out|..][|rest|..];
  }

  /** What was emitted and what is held back are the bytes so far. */
  lemma EmittedSoFar(all: seq<Byte>, out: Text, h: Held, text: seq<Scalar>, more: seq<Byte>)
    requires Emits(out, h, text, more) && all + more == Encode(text)
    ensures |out| <= |text| && out == text[..|out|] && all == Encode(text[..|out|]) + h.bytes
  {
    EncodeAppend(text[..|out|], text[|out|..]);
    assert text[..|out|] + text[|out|..] == text;
    SameBefore(all, Encode(text[..|out|]), h.bytes, more);
  }

  lemma EndGives(all: seq<Byte>, out: Text, h: Held, text: seq<Scalar>, more: seq<Byte>)
    requires Emits(out, h, text, more) && all + more == Encode(text)
    ensures out + EndText(Utf8Text, h) == Decode(all)
  {
    EmittedSoFar(all, out, h, text, more);
    DecodeEncode(text[..|out|], h.bytes);
  }

  /** Wherever the bytes of a text end, the outputs followed by that of `end` are what they are converted to
      in one piece; in particular a character that is torn at the end is not forgotten. */
  lemma TornAtEnd(chunks: seq<seq<Byte>>, text: seq<Scalar>, more: seq<Byte>)
    requires Flatten(chunks) + more == Encode(text)
    ensures var (out, h) := Written(Utf8Text, NOTHING, chunks);
      out + EndText(Utf8Text, h) == Decode(Flatten(chunks))
  {
    NoneBefore(Flatten(chunks), more);
    WrittenTorn(NOTHING, chunks, text, more);
    EndGives(Flatten(chunks), Written(Utf8Text, NOTHING, chunks).0, Written(Utf8Text, NOTHING, chunks).1, text, more);
  }

  lemma NoneBefore(a: seq<Byte>, b: seq<Byte>)
    ensures [] + a + b == a + b
  {
    assert [] + a == a;
  }

  lemma SameBefore(a: seq<Byte>, b: seq<Byte>, c: seq<Byte>, more: seq<Byte>)
    requires a + more == b + (c + more)
    ensures a == b + c
  {
    assert a + more == (b + c) + more;
    assert |a| == |b + c|;
    assert a == (a + more)[..|a|] && b + c == ((b + c) + more)[..|a|];
  }

  lemma {:induction false} Base64Append(a: seq<Byte>, b: seq<Byte>)
    requires |a| % 3 == 0
    ensures ToBase64(a + b) == ToBase64(a) + ToBase64(b)
  {
    if a == [] {
      assert a + b == b;
    } else {
      assert (a + b)[3..] == a[3..] + b;
      Base64Append(a[3..], b);
    }
  }

  /** `out` is the text of the first bytes, a multiple of three, and `h` holds the others. */
  ghost predicate Splits(out: Text, h: Held, b: seq<Byte>, n: nat) {
    && HeldOk(h) && (h.need == 0 || h.need == 3)
    && n <= |b| && n % 3 == 0 && out == ToBase64(b[..n]) && h.bytes == b[n..]
  }

  lemma FreshBase64(b: seq<Byte>)
    ensures var (out, h) := WriteFresh(Base64, b); Splits(out, h, b, |b| - |b| % 3)
  {
    assert b[..|b|] == b;
  }

  /** Base64 of what was held back together with the bytes that complete the group. */
  lemma SplitsAfter(out: Text, h: Held, all: seq<Byte>, rest: seq<Byte>, m: nat)
    requires |all| >= 3 && rest == all[3..] && Splits(out, h, rest, m)
    ensures Splits(ToBase64(all[..3]) + out, h, all, m + 3)
  {
    assert all[..m + 3] == all[..3] + rest[..m];
    assert all[m + 3..] == rest[m..];
    Base64Append(all[..3], rest[..m]);
  }

  /** The held bytes and the first ones of the write are a group. */
  lemma GroupBase64(h: Held, b: seq<Byte>) returns (n: nat)
    requires HeldOk(h) && h.need == 3 && 3 - |h.bytes| <= |b|
    ensures var (out, h') := WriteText(Base64, h, b); Splits(out, h', h.bytes + b, n)
  {
    var all, i := h.bytes + b, 3 - |h.bytes|;
    var rest := b[i..];
    assert h.bytes + b[..i] == all[..3] && rest == all[3..];
    if i == |b| {
      assert ToBase64(all[..3]) + [] == ToBase64(all[..3]);
      assert Splits([], NOTHING, rest, 0);
      SplitsAfter([], NOTHING, all, rest, 0);
      n := 3;
    } else {
      FreshBase64(rest);
      var (out, h') := WriteFresh(Base64, rest);
      SplitsAfter(out, h', all, rest, |rest| - |rest| % 3);
      n := |rest| - |rest| % 3 + 3;
    }
  }

  /** One `write` turns whole groups of three bytes into text, and keeps the others. */
  lemma WriteBase64(h: Held, b: seq<Byte>) returns (n: nat)
    requires HeldOk(h) && (h.need == 0 || h.need == 3)
    ensures var (out, h') := WriteText(Base64, h, b); Splits(out, h', h.bytes + b, n)
  {
    if h.need == 0 {
      assert h.bytes + b == b;
      FreshBase64(b);
      n := |b| - |b| % 3;
    } else if 3 - |h.bytes| > |b| {
      assert b[..|b|] == b && (h.bytes + b)[..0] == [];
      n := 0;
    } else {
      n := GroupBase64(h, b);
    }
  }

  /** The text of whole groups, then that of everything after them. */
  lemma SplitsThen(out: Text, h: Held, b: seq<Byte>, n: nat, later: seq<Byte>)
    requires Splits(out, h, b, n)
    ensures out + ToBase64(h.bytes + later) == ToBase64(b + later)
  {
    var p, q := b[..n], b[n..];
    assert b == p + q;
    Assoc(p, q, later);
    Base64Append(p, q + later);
  }

  lemma {:induction false} WrittenBase64(h: Held, chunks: seq<seq<Byte>>)
    requires HeldOk(h) && (h.need == 0 || h.need == 3)
    ensures var (out, h') := Written(Base64, h, chunks);
      (h'.need == 0 || h'.need == 3) && out + EndText(Base64, h') == ToBase64(h.bytes + Flatten(chunks))
    decreases |chunks|
  {
    if chunks == [] {
      assert h.bytes + [] == h.bytes;
    } else {
      var later := Flatten(chunks[1..]);
      var n := WriteBase64(h, chunks[0]);
      var (out, h1) := WriteText(Base64, h, chunks[0]);
      WrittenBase64(h1, chunks[1..]);
      var (rest, h2) := Written(Base64, h1, chunks[1..]);
      SplitsThen(out, h1, h.bytes + chunks[0], n, later);
      Assoc(h.bytes, chunks[0], later);
      Assoc(out, rest, EndText(Base64, h2));
    }
  }

  /** For every byte string and every way of cutting it, the outputs of `write` followed by
      that of `end` are its one-shot base64 conversion. */
  lemma Base64AnyChunking(chunks: seq<seq<Byte>>)
    ensures var (out, h) := Written(Base64, NOTHING, chunks);
      out + EndText(Base64, h) == ToBase64(Flatten(chunks))
  {
    assert [] + Flatten(chunks) == Flatten(chunks);
    WrittenBase64(NOTHING, chunks);
  }

  /** Between calls at most 3 bytes of UTF-8, or 2 bytes of base64, are held back. */
  lemma HeldBound(chunks: seq<seq<Byte>>)
    ensures |Written(Utf8Text, NOTHING, chunks).1.bytes| <= 3
    ensures |Written(Base64, NOTHING, chunks).1.bytes| <= 2
  {
    WrittenBase64(NOTHING, chunks);
  }
}
