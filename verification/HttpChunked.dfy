/**
 The chunked transfer coding that lib/_http_outgoing.js writes, against a decoder made from
 section 3.6.1 of RFC 2616.
 */
module HttpChunked {
  import opened Prelude
  import opened Utf8
  import opened Encodings
  import opened HttpOutgoing

  // ---------------------------------------------------------------- the decoder of the standard

  datatype Split = Split(line: seq<Byte>, rest: seq<Byte>)

  /** The text up to the first CRLF, and what is behind it. */
  function ReadLine(s: seq<Byte>): (r: Option<Split>)
    ensures r.Some? ==> |r.value.rest| < |s|
  {
    if |s| < 2 then None
    else if s[0] == 13 && s[1] == 10 then Some(Split([], s[2..]))
    else
      match ReadLine(s[1..])
      case None => None
      case Some(l) => Some(Split([s[0]] + l.line, l.rest))
  }

  function HexValue(b: Byte): Option<nat> {
    if 48 <= b <= 57 then Some(b - 48)
    else if 97 <= b <= 102 then Some(b - 87)
    else if 65 <= b <= 70 then Some(b - 55)
    else None
  }

  /** `chunk-size [ chunk-extension ]`, the extension starting with a semicolon. */
  function ChunkSize(line: seq<Byte>, value: nat, digits: nat): Option<nat>
    decreases |line|
  {
    if line == [] || line[0] == 59 then (if digits == 0 then None else Some(value))
    else
      match HexValue(line[0])
      case None => None
      case Some(x) => ChunkSize(line[1..], value * 16 + x, digits + 1)
  }

  datatype Decoded = Decoded(body: seq<Byte>, trailer: seq<seq<Byte>>, rest: seq<Byte>)

  function DecodeTrailer(s: seq<Byte>): Option<Decoded>
    decreases |s|
  {
    match ReadLine(s)
    case None => None
    case Some(l) =>
      if l.line == [] then Some(Decoded([], [], l.rest))
      else
        match DecodeTrailer(l.rest)
        case None => None
        case Some(d) => Some(d.(trailer := [l.line] + d.trailer))
  }

  /** `Chunked-Body`: chunks, the last chunk, the trailer and an empty line. */
  function DecodeBody(s: seq<Byte>): Option<Decoded>
    decreases |s|
  {
    match ReadLine(s)
    case None => None
    case Some(l) =>
      match ChunkSize(l.line, 0, 0)
      case None => None
      case Some(n) =>
        if n == 0 then DecodeTrailer(l.rest)
        else if |l.rest| < n + 2 || l.rest[n] != 13 || l.rest[n + 1] != 10 then None
        else
          match DecodeBody(l.rest[n + 2..])
          case None => None
          case Some(d) => Some(d.(body := l.rest[..n] + d.body))
  }

  // ---------------------------------------------------------------- what is written

  /** One chunk of a body. */
  function ChunkBytes(d: Data): seq<Byte> {
    if BytesOf(d) == [] then [] else Encode(Hex(|BytesOf(d)|)) + CRLF + BytesOf(d) + CRLF
  }

  function TrailerText(lines: seq<Text>): Text {
    if lines == [] then [] else lines[0] + CRLF_TEXT + TrailerText(lines[1..])
  }

  function LastChunk(lines: seq<Text>): seq<Byte> {
    Encode([48] + CRLF_TEXT + TrailerText(lines) + CRLF_TEXT)
  }

  function EncodedLines(lines: seq<Text>): seq<seq<Byte>> {
    if lines == [] then [] else [Encode(lines[0])] + EncodedLines(lines[1..])
  }

  /** A line of a trailer: not empty and without a carriage return. */
  predicate TrailerLine(line: Text) {
    line != [] && NoReturn(line)
  }

  predicate TrailerLines(lines: seq<Text>) {
    forall k :: 0 <= k < |lines| ==> TrailerLine(lines[k])
  }

  // ---------------------------------------------------------------- the decoder on what is written

  predicate NoReturn(s: seq<int>) {
    forall k :: 0 <= k < |s| ==> s[k] != 13
  }

  lemma {:induction false} ReadLineOf(line: seq<Byte>, rest: seq<Byte>)
    requires NoReturn(line)
    ensures ReadLine(line + CRLF + rest) == Some(Split(line, rest))
  {
    var s := line + CRLF + rest;
    if line == [] {
      assert s[2..] == rest;
    } else {
      assert s[1..] == line[1..] + CRLF + rest;
      ReadLineOf(line[1..], rest);
      assert [line[0]] + line[1..] == line;
    }
  }

  lemma CharNoReturn(c: Scalar)
    requires c != 13
    ensures NoReturn(EncodeChar(c))
  {}

  lemma {:induction false} EncodeNoReturn(text: Text)
    requires NoReturn(text)
    ensures NoReturn(Encode(text))
    ensures text != [] ==> Encode(text) != []
  {
    if text != [] {
      CharNoReturn(text[0]);
      EncodeNoReturn(text[1..]);
    }
  }

  lemma EncodeCrlf()
    ensures Encode(CRLF_TEXT) == CRLF
  {
    assert CRLF_TEXT[1..] == [10];
    var lf: Text := [10];
    assert lf[1..] == [];
    assert Encode(lf) == [10] + [];
    assert Encode(CRLF_TEXT) == [13] + [10];
  }

  lemma EncodeDigit(x: nat)
    requires x < 16
    ensures Encode([HexDigit(x)]) == [HexDigit(x)]
  {
    var t: Text := [HexDigit(x)];
    assert t[1..] == [];
    assert Encode(t) == EncodeChar(t[0]) + [];
  }

  lemma DigitRead(x: nat, value: nat, digits: nat, tail: seq<Byte>)
    requires x < 16
    ensures ChunkSize([HexDigit(x)] + tail, value, digits) == ChunkSize(tail, value * 16 + x, digits + 1)
  {
    assert ([HexDigit(x)] + tail)[1..] == tail;
  }

  /** The digits of a number are read back as it. */
  lemma {:induction false} SizeOfHex(n: nat, tail: seq<Byte>)
    ensures ChunkSize(Encode(Hex(n)) + tail, 0, 0) == ChunkSize(tail, n, |Hex(n)|)
    ensures NoReturn(Encode(Hex(n))) && Hex(n) != []
  {
    var last: Byte := HexDigit(n % 16);
    EncodeDigit(n % 16);
    if n < 16 {
      DigitRead(n, 0, 0, tail);
    } else {
      EncodeAppend(Hex(n / 16), [HexDigit(n % 16)]);
      SizeOfHex(n / 16, [last] + tail);
      Assoc(Encode(Hex(n / 16)), [last], tail);
      DigitRead(n % 16, n / 16, |Hex(n / 16)|, tail);
    }
  }

  lemma SizeOfHexLine(n: nat)
    ensures ChunkSize(Encode(Hex(n)), 0, 0) == Some(n)
    ensures NoReturn(Encode(Hex(n)))
  {
    SizeOfHex(n, []);
    assert Encode(Hex(n)) + [] == Encode(Hex(n));
  }

  /** A chunk in front of something decoded. */
  lemma DecodeChunk(d: Data, rest: seq<Byte>)
    requires BytesOf(d) != []
    ensures DecodeBody(Encode(Hex(|BytesOf(d)|)) + CRLF + BytesOf(d) + CRLF + rest) ==
            match DecodeBody(rest) case None => None case Some(x) => Some(x.(body := BytesOf(d) + x.body))
  {
    var size, data := Encode(Hex(|BytesOf(d)|)), BytesOf(d);
    var behind := data + CRLF + rest;
    assert size + CRLF + data + CRLF + rest == size + CRLF + behind;
    SizeOfHexLine(|data|);
    ReadLineOf(size, behind);
    assert behind[..|data|] == data && behind[|data| + 2..] == rest;
    assert behind[|data|] == 13 && behind[|data| + 1] == 10;
  }

  lemma {:induction false} TrailerOf(lines: seq<Text>, rest: seq<Byte>)
    requires TrailerLines(lines)
    ensures DecodeTrailer(Encode(TrailerText(lines)) + CRLF + rest) == Some(Decoded([], EncodedLines(lines), rest))
  {
    if lines == [] {
      assert Encode(TrailerText(lines)) + CRLF + rest == [] + CRLF + rest;
      ReadLineOf([], rest);
    } else {
      var line, more := lines[0], TrailerText(lines[1..]);
      var s := Encode(TrailerText(lines)) + CRLF + rest;
      EncodeAppend(line + CRLF_TEXT, more);
      EncodeAppend(line, CRLF_TEXT);
      EncodeCrlf();
      assert s == Encode(line) + CRLF + (Encode(more) + CRLF + rest);
      EncodeNoReturn(line);
      ReadLineOf(Encode(line), Encode(more) + CRLF + rest);
      TrailerOf(lines[1..], rest);
    }
  }

  lemma LastChunkIs(lines: seq<Text>)
    ensures LastChunk(lines) == [48] + CRLF + (Encode(TrailerText(lines)) + CRLF)
  {
    EncodeCrlf();
    EncodeDigit(0);
    EncodeAppend([48] + CRLF_TEXT + TrailerText(lines), CRLF_TEXT);
    EncodeAppend([48] + CRLF_TEXT, TrailerText(lines));
    EncodeAppend([48], CRLF_TEXT);
    Assoc([48] + CRLF, Encode(TrailerText(lines)), CRLF);
  }

  lemma DecodeLast(lines: seq<Text>, rest: seq<Byte>)
    requires TrailerLines(lines)
    ensures DecodeBody(LastChunk(lines) + rest) == Some(Decoded([], EncodedLines(lines), rest))
  {
    LastChunkIs(lines);
    var t := Encode(TrailerText(lines)) + CRLF + rest;
    assert LastChunk(lines) + rest == [48] + CRLF + t;
    ReadLineOf([48], t);
    TrailerOf(lines, rest);
    var zero: seq<Byte> := [48];
    assert zero[1..] == [];
    assert ChunkSize(zero, 0, 0) == ChunkSize(zero[1..], 0, 1);
  }

  /** The chunks of some writes, empty ones left out, and the body they are the chunks of. */
  function Chunks(ds: seq<Data>): seq<Byte> {
    if ds == [] then [] else ChunkBytes(ds[0]) + Chunks(ds[1..])
  }

  lemma Assoc4<T>(a: seq<T>, b: seq<T>, c: seq<T>, d: seq<T>)
    ensures a + b + c + d == a + (b + c + d)
  {}

  /** One write in front of something decoded; an empty one writes nothing. */
  lemma DecodeWrite(d: Data, rest: seq<Byte>)
    ensures DecodeBody(ChunkBytes(d) + rest) ==
            match DecodeBody(rest) case None => None case Some(x) => Some(x.(body := BytesOf(d) + x.body))
  {
    if BytesOf(d) == [] {
      assert ChunkBytes(d) + rest == rest;
      if DecodeBody(rest).Some? {
        assert BytesOf(d) + DecodeBody(rest).value.body == DecodeBody(rest).value.body;
      }
    } else {
      DecodeChunk(d, rest);
    }
  }

  /** The decoder recovers the body, whatever it was cut into, and stops where it ends. */
  lemma {:induction false} DecodeChunks(ds: seq<Data>, lines: seq<Text>, rest: seq<Byte>)
    requires TrailerLines(lines)
    ensures DecodeBody(Chunks(ds) + LastChunk(lines) + rest) == Some(Decoded(AllBytes(ds), EncodedLines(lines), rest))
  {
    if ds == [] {
      assert Chunks(ds) + LastChunk(lines) + rest == LastChunk(lines) + rest;
      DecodeLast(lines, rest);
    } else {
      Assoc4(ChunkBytes(ds[0]), Chunks(ds[1..]), LastChunk(lines), rest);
      DecodeChunks(ds[1..], lines, rest);
      DecodeWrite(ds[0], Chunks(ds[1..]) + LastChunk(lines) + rest);
    }
  }

  // ---------------------------------------------------------------- the message that writes it

  /** In front of the first chunk goes the header. */
  function Head(m: Message): seq<Byte> {
    if m.headerSent then [] else Encode(m.header)
  }

  lemma Ends(a: seq<Byte>, b: seq<Byte>)
    ensures a + (CRLF + b) == a + CRLF + b
    ensures CRLF + (b + (CRLF + [])) == CRLF + b + CRLF
  {}

  lemma FourBytes(a: Data, b: Data, c: Data, d: Data)
    ensures AllBytes([a, b, c, d][1..]) == BytesOf(b) + (BytesOf(c) + (BytesOf(d) + []))
  {
    assert [a, b, c, d][1..] == [b, c, d] && [b, c, d][1..] == [c, d] && [c, d][1..] == [d] && [d][1..] == [];
    assert AllBytes([d]) == BytesOf(d) + [];
    assert AllBytes([c, d]) == BytesOf(c) + AllBytes([d]);
  }

  /** The first piece starts with the header. */
  lemma FirstSent(m: Message, text: Text, enc: Encoding)
    requires enc == Unspecified || enc == Utf8Encoding
    ensures Sent(m, Str(text, enc)) == Head(m) + Encode(text)
  {
    EncodeAppend(m.header, text);
    assert [] + Encode(text) == Encode(text);
  }

  lemma EncodeLine(text: Text)
    ensures Encode(text + CRLF_TEXT) == Encode(text) + CRLF
  {
    EncodeAppend(text, CRLF_TEXT);
    EncodeCrlf();
  }

  lemma {:induction false} HexSevenBit(n: nat)
    ensures SevenBit(Hex(n))
  {
    if n >= 16 {
      HexSevenBit(n / 16);
    }
  }

  /** A text with its size in front and line ends, in an encoding of one byte for each unit. */
  lemma NarrowPiece(n: nat, text: Text)
    ensures Narrow(Hex(n) + CRLF_TEXT + text + CRLF_TEXT) == Encode(Hex(n)) + CRLF + Narrow(text) + CRLF
  {
    HexSevenBit(n);
    NarrowIsEncode(Hex(n));
    NarrowIsEncode(CRLF_TEXT);
    EncodeCrlf();
    NarrowAppend(Hex(n) + CRLF_TEXT + text, CRLF_TEXT);
    NarrowAppend(Hex(n) + CRLF_TEXT, text);
    NarrowAppend(Hex(n), CRLF_TEXT);
  }

  lemma EncodePiece(n: nat, text: Text)
    ensures Encode(Hex(n) + CRLF_TEXT + text + CRLF_TEXT) == Encode(Hex(n)) + CRLF + Encode(text) + CRLF
  {
    EncodeLine(Hex(n) + CRLF_TEXT + text);
    EncodeAppend(Hex(n) + CRLF_TEXT, text);
    EncodeLine(Hex(n));
  }

  /** The four pieces of data that is not sent as one text. */
  lemma FourPieces(n: nat, d: Data)
    ensures AllBytes([Str(Hex(n), Unspecified), Buf(CRLF), d, Buf(CRLF)]) == Encode(Hex(n)) + CRLF + BytesOf(d) + CRLF
  {
    var size := Encode(Hex(n));
    FourBytes(Str(Hex(n), Unspecified), Buf(CRLF), d, Buf(CRLF));
    Ends(size, BytesOf(d));
    assert size + (CRLF + BytesOf(d) + CRLF) == size + CRLF + BytesOf(d) + CRLF;
  }

  /** Text in UCS-2, hexadecimal or base64, and binary text with a character that is not ASCII. */
  predicate Forgetful(d: Data) {
    && d.Str?
    && (d.enc == Ucs2Encoding || d.enc == HexEncoding || d.enc == Base64Encoding
        || (d.enc == Binary && !SevenBit(d.text)))
  }

  lemma SameMiddle(a: seq<Byte>, b: seq<Byte>, c: seq<Byte>)
    ensures a + CRLF + b + CRLF == a + CRLF + c + CRLF <==> b == c
  {
    var x, y := a + CRLF + b + CRLF, a + CRLF + c + CRLF;
    if x == y {
      assert |b| == |c|;
      assert b == x[|a| + 2..|a| + 2 + |b|] && c == y[|a| + 2..|a| + 2 + |c|];
    }
  }

  /** A smaller number has not more digits. */
  lemma {:induction false} HexGrows(a: nat, b: nat)
    requires a <= b
    ensures 0 < |Encode(Hex(a))| <= |Encode(Hex(b))|
  {
    EncodeDigit(a % 16);
    EncodeDigit(b % 16);
    if a >= 16 {
      EncodeAppend(Hex(a / 16), [HexDigit(a % 16)]);
      EncodeAppend(Hex(b / 16), [HexDigit(b % 16)]);
      HexGrows(a / 16, b / 16);
    } else if b >= 16 {
      EncodeAppend(Hex(b / 16), [HexDigit(b % 16)]);
      HexGrows(0, b / 16);
    }
  }

  /** The size and the line ends are in UCS-2 too, so the chunk is longer. */
  lemma Ucs2Piece(n: nat, text: Text)
    ensures |Ucs2(Hex(n) + CRLF_TEXT + text + CRLF_TEXT)| > |Encode(Hex(n)) + CRLF + Ucs2(text) + CRLF|
  {
    HexSevenBit(n);
    HexGrows(n, n);
    NarrowIsEncode(Hex(n));
    Ucs2Size(Hex(n));
    Ucs2Append(Hex(n) + CRLF_TEXT + text, CRLF_TEXT);
    Ucs2Append(Hex(n) + CRLF_TEXT, text);
    Ucs2Append(Hex(n), CRLF_TEXT);
    NarrowIsEncode(CRLF_TEXT);
    EncodeCrlf();
    Ucs2Size(CRLF_TEXT);
  }

  /** What the text stands for is shorter than the text. */
  lemma DecodedIsShorter(text: Text, enc: Encoding)
    requires text != [] && (enc == HexEncoding || enc == Base64Encoding)
    ensures |ChunkBytes(Str(text, enc))| < |Encode(Hex(Units(text))) + CRLF + Encode(text) + CRLF|
  {
    var bytes := TextBytes(text, enc);
    TextIsLonger(text);
    TextIsNarrower(text);
    HexGrows(|bytes|, Units(text));
  }

  lemma TextIsNarrower(text: Text)
    ensures |HexBytes(text)| <= Units(text) && |Unbase64(Narrow(text))| <= Units(text)
  {
    HexOfShort(Narrow(text));
    Unbase64Short(Narrow(text));
  }

  lemma FourPiecesIff(text: Text, enc: Encoding)
    requires text != [] && DropsEncoding(enc)
    ensures AllBytes(Pieces(true, Str(text, enc))) == ChunkBytes(Str(text, enc)) <==> !Forgetful(Str(text, enc))
  {
    FourPieces(Units(text), Str(text, Unspecified));
    if enc == Binary {
      NarrowIsEncode(text);
      SameMiddle(Encode(Hex(Units(text))), Encode(text), Narrow(text));
    } else {
      DecodedIsShorter(text, enc);
    }
  }

  lemma OnePieceIff(text: Text, enc: Encoding)
    requires text != [] && !DropsEncoding(enc)
    ensures AllBytes(Pieces(true, Str(text, enc))) == ChunkBytes(Str(text, enc)) <==> !Forgetful(Str(text, enc))
  {
    var n := |TextBytes(text, enc)|;
    AllBytesOne(Str(Hex(n) + CRLF_TEXT + text + CRLF_TEXT, enc));
    TextNotEmpty(text);
    if enc == Ucs2Encoding {
      Ucs2Piece(n, text);
    } else {
      NarrowPiece(n, text);
      EncodePiece(n, text);
    }
  }

  lemma TextNotEmpty(text: Text)
    requires text != []
    ensures Narrow(text) != [] && Encode(text) != [] && Ucs2(text) != []
  {
    NarrowIsEncode(text);
    Ucs2Size(text);
  }

  /** What `write` sends for some data is one correct chunk if and only if the data is not text whose
      encoding is forgotten, or used for the size as well. */
  lemma ChunkIff(d: Data)
    requires Length(d) > 0
    ensures AllBytes(Pieces(true, d)) == ChunkBytes(d) <==> !Forgetful(d)
  {
    match d {
      case Buf(b) => FourPieces(|b|, d);
      case Str(text, enc) =>
        if DropsEncoding(enc) {
          FourPiecesIff(text, enc);
        } else {
          OnePieceIff(text, enc);
        }
    }
  }

  /** The header goes in front of the first piece. */
  lemma HeadFirst(m: Message, ds: seq<Data>)
    requires ds != [] && ds[0].Str? && Plain(ds[0])
    ensures SentAll(m, ds) == Head(m) + AllBytes(ds)
  {
    FirstSent(m, ds[0].text, ds[0].enc);
    Assoc(Head(m), BytesOf(ds[0]), AllBytes(ds[1..]));
  }

  /** Buffers, UTF-8 text and binary text in ASCII. */
  predicate Chunkable(d: Data) {
    Accepted(true, d) && !Forgetful(d)
  }

  /** What `write` sends is one chunk, whichever way it sends it. */
  lemma OneChunk(m: Message, d: Data)
    requires Chunkable(d) && Length(d) > 0
    ensures SentAll(m, Pieces(true, d)) == Head(m) + ChunkBytes(d)
  {
    ChunkIff(d);
    HeadFirst(m, Pieces(true, d));
  }

  datatype Call = WriteCall(d: Data) | AttachCall

  /** A write, or the socket being assigned. */
  function Step(m: Message, s: Sock, c: Call): (Message, Sock) {
    match c
    case WriteCall(d) => Write(m, s, d)
    case AttachCall => Flush(m.(attached := true), s)
  }

  function Run(m: Message, s: Sock, cs: seq<Call>): (Message, Sock) {
    if cs == [] then (m, s)
    else
      var (m1, s1) := Run(m, s, cs[..|cs| - 1]);
      Step(m1, s1, cs[|cs| - 1])
  }

  /** The data of the writes. */
  function Body(cs: seq<Call>): seq<Data> {
    if cs == [] then []
    else
      match cs[|cs| - 1]
      case WriteCall(d) => Body(cs[..|cs| - 1]) + [d]
      case AttachCall => Body(cs[..|cs| - 1])
  }

  predicate ChunkableCalls(cs: seq<Call>) {
    forall k :: 0 <= k < |cs| && cs[k].WriteCall? ==> Chunkable(cs[k].d)
  }

  lemma {:induction false} ChunksSnoc(ds: seq<Data>, d: Data)
    ensures Chunks(ds + [d]) == Chunks(ds) + ChunkBytes(d)
  {
    if ds == [] {
      assert ds + [d] == [d] && [d][1..] == [];
      assert ChunkBytes(d) + [] == [] + ChunkBytes(d);
    } else {
      assert (ds + [d])[1..] == ds[1..] + [d];
      ChunksSnoc(ds[1..], d);
      Assoc(ChunkBytes(ds[0]), Chunks(ds[1..]), ChunkBytes(d));
    }
  }

  /** What was sent so far: nothing at all, or the header and the chunks. */
  predicate Framed(m: Message, ds: seq<Data>) {
    && (!m.headerSent ==> m.stream == [] && Chunks(ds) == [])
    && (m.headerSent ==> m.stream == Encode(m.header) + Chunks(ds))
  }

  predicate SameSetup(m: Message, header: Text, lines: seq<Text>) {
    m.header == header && m.chunked && m.hasBody && m.trailer == TrailerText(lines) && !m.finished
  }

  lemma Behind(header: seq<Byte>, chunks: seq<Byte>, chunk: seq<Byte>)
    ensures header + chunks + ([] + chunk) == header + (chunks + chunk)
    ensures [] + (header + chunk) == header + ([] + chunk)
  {}

  lemma FramedMore(m: Message, m': Message, ds: seq<Data>, d: Data)
    requires Framed(m, ds) && m'.header == m.header && m'.headerSent
    requires m'.stream == m.stream + (Head(m) + ChunkBytes(d))
    ensures Framed(m', ds + [d])
  {
    ChunksSnoc(ds, d);
    Behind(Encode(m.header), Chunks(ds), ChunkBytes(d));
  }

  lemma FramedSame(m: Message, ds: seq<Data>, d: Data)
    requires Framed(m, ds) && Length(d) == 0
    ensures Framed(m, ds + [d])
  {
    ChunksSnoc(ds, d);
    EmptyData(d);
    assert Chunks(ds) + [] == Chunks(ds);
  }

  lemma FramedWrite(m: Message, s: Sock, ds: seq<Data>, d: Data, lines: seq<Text>)
    requires Framed(m, ds) && SameSetup(m, m.header, lines) && m.header != []
    requires Balanced([], m, s) && Fine(m, s) && Chunkable(d)
    ensures var (m', s') := Write(m, s, d);
      && Framed(m', ds + [d]) && SameSetup(m', m.header, lines) && Balanced([], m', s') && Fine(m', s')
      && Grown(m, s, m', s')
  {
    var (m', s') := Write(m, s, d);
    WriteBalanced([], m, s, d);
    if Length(d) == 0 {
      FramedSame(m, ds, d);
    } else {
      OneChunk(m, d);
      FramedMore(m, m', ds, d);
    }
  }

  lemma {:induction false} FramedRun(header: Text, lines: seq<Text>, cs: seq<Call>)
    requires header != [] && ChunkableCalls(cs)
    ensures var (m, s) := Run(NewMessage(header, true, true, TrailerText(lines)), Sock([], Open), cs);
      && Framed(m, Body(cs)) && SameSetup(m, header, lines) && Balanced([], m, s) && Fine(m, s)
      && s.status == Open && (m.attached ==> m.output == [])
      && (!m.attached ==> s.bytes == [])
  {
    if cs == [] {
    } else {
      var front, c := cs[..|cs| - 1], cs[|cs| - 1];
      FramedRun(header, lines, front);
      var (m, s) := Run(NewMessage(header, true, true, TrailerText(lines)), Sock([], Open), front);
      match c {
        case WriteCall(d) => FramedWrite(m, s, Body(front), d, lines);
        case AttachCall => FlushBalanced([], m.(attached := true), s);
      }
    }
  }

  /** `end`, and then the assignment of the socket if it did not happen before. */
  function Finish(m: Message, s: Sock, last: Option<Data>): (Message, Sock) {
    var (m1, s1) := EndOutput(m, s, last);
    Step(m1, s1, AttachCall)
  }

  function WithLast(ds: seq<Data>, last: Option<Data>): seq<Data> {
    match last case None => ds case Some(d) => ds + [d]
  }

  lemma FramedEnd(m: Message, s: Sock, ds: seq<Data>, lines: seq<Text>)
    requires Framed(m, ds) && SameSetup(m, m.header, lines) && m.header != []
    requires Balanced([], m, s) && Fine(m, s)
    ensures var (m', s') := Send(m, s, LastPiece(m));
      && m'.stream == Encode(m.header) + Chunks(ds) + LastChunk(lines) && Balanced([], m', s') && s'.status == s.status
      && m'.attached == m.attached
  {
    SendBalanced([], m, s, LastPiece(m));
    FirstSent(m, LastPiece(m).text, Unspecified);
    assert m.stream + ([] + LastChunk(lines)) == m.stream + LastChunk(lines);
    if !m.headerSent {
      assert [] + (Encode(m.header) + LastChunk(lines)) == Encode(m.header) + [] + LastChunk(lines);
    }
  }

  /**
   Whatever the writes, and whenever the socket is assigned: in the end the header and a
   chunked body are on the socket, from which the decoder of section 3.6.1 of RFC 2616
   recovers exactly what was written, the trailer and whatever comes behind.
   */
  lemma ChunkedDelivery(header: Text, lines: seq<Text>, cs: seq<Call>, last: Option<Data>, rest: seq<Byte>)
    requires header != [] && TrailerLines(lines)
    requires ChunkableCalls(cs) && (last.Some? ==> Chunkable(last.value))
    ensures var (m, s) := Run(NewMessage(header, true, true, TrailerText(lines)), Sock([], Open), cs);
      var sent := Finish(m, s, last).1.bytes;
      && Encode(header) <= sent
      && DecodeBody(sent[|Encode(header)|..] + rest)
         == Some(Decoded(AllBytes(WithLast(Body(cs), last)), EncodedLines(lines), rest))
  {
    FramedRun(header, lines, cs);
    var (m, s) := Run(NewMessage(header, true, true, TrailerText(lines)), Sock([], Open), cs);
    var (m1, s1) := match last case Some(d) => Write(m, s, d) case None => (m, s);
    if last.Some? {
      FramedWrite(m, s, Body(cs), last.value, lines);
    }
    var ds := WithLast(Body(cs), last);
    FramedEnd(m1, s1, ds, lines);
    var (m2, s2) := EndOutput(m, s, last);
    FlushBalanced([], m2.(attached := true), s2);
    var sent := Finish(m, s, last).1.bytes;
    assert sent == Encode(header) + Chunks(ds) + LastChunk(lines);
    Assoc(Encode(header), Chunks(ds), LastChunk(lines));
    assert sent[|Encode(header)|..] == Chunks(ds) + LastChunk(lines);
    DecodeChunks(ds, lines, rest);
  }

  /** Hexadecimal or base64 text in ASCII arrives as the text, instead of what it stands for. */
  lemma TextArrives(text: Text, enc: Encoding, rest: seq<Byte>)
    requires text != [] && SevenBit(text) && (enc == HexEncoding || enc == Base64Encoding)
    ensures DecodeBody(AllBytes(Pieces(true, Str(text, enc))) + rest) ==
            match DecodeBody(rest) case None => None case Some(x) => Some(x.(body := Encode(text) + x.body))
    ensures Encode(text) != TextBytes(text, enc)
  {
    NarrowIsEncode(text);
    TextNotEmpty(text);
    TextIsLonger(text);
    FourPieces(Units(text), Str(text, Unspecified));
    DecodeWrite(Str(text, Unspecified), rest);
  }

  lemma LineStarts(x: Byte, y: Byte, s: seq<Byte>)
    requires x != 13 && y != 13
    ensures ReadLine([x, y] + s) == None || [x, y] <= ReadLine([x, y] + s).value.line
  {
    var t := [x, y] + s;
    assert t[1..] == [y] + s;
  }

  lemma NoSize(x: Byte, line: seq<Byte>)
    requires x != 59 && [x, 0] <= line
    ensures ChunkSize(line, 0, 0) == None
  {
    assert line[1..][0] == 0;
  }

  lemma {:induction false} FirstDigit(n: nat)
    ensures Hex(n) != [] && Hex(n)[0] < 128 && Hex(n)[0] != 13 && Hex(n)[0] != 59
  {
    if n >= 16 {
      FirstDigit(n / 16);
    }
  }

  /** No decoder finds the size of a chunk in UCS-2, whatever the text. */
  lemma Ucs2IsUnreadable(text: Text, rest: seq<Byte>)
    requires text != []
    ensures DecodeBody(AllBytes(Pieces(true, Str(text, Ucs2Encoding))) + rest) == None
  {
    var n := |Ucs2(text)|;
    var piece: Text := Hex(n) + CRLF_TEXT + text + CRLF_TEXT;
    AllBytesOne(Str(piece, Ucs2Encoding));
    FirstDigit(n);
    assert piece[0] == Hex(n)[0];
    var x: Byte := piece[0];
    assert Ucs2(piece) == [x, 0] + Ucs2(piece[1..]);
    Assoc([x, 0], Ucs2(piece[1..]), rest);
    LineStarts(x, 0, Ucs2(piece[1..]) + rest);
    if ReadLine(Ucs2(piece) + rest).Some? {
      NoSize(x, ReadLine(Ucs2(piece) + rest).value.line);
    }
  }

  /** A chunk that is announced as one byte and holds two. */
  lemma TooLong(x: Byte, y: Byte, rest: seq<Byte>)
    requires y != 13
    ensures DecodeBody([49, 13, 10, x, y, 13, 10] + rest) == None
  {
    var size: seq<Byte> := [49];
    var behind := [x, y, 13, 10] + rest;
    assert [49, 13, 10, x, y, 13, 10] + rest == size + CRLF + behind;
    ReadLineOf(size, behind);
    assert size[1..] == [];
    assert ChunkSize(size, 0, 0) == ChunkSize(size[1..], 1, 1);
  }

  /** An instance: e-acute is announced as one byte, two follow, and no decoder reads on. */
  lemma BinaryChunkIsWrong(rest: seq<Byte>)
    ensures Forgetful(Str([233], Binary))
    ensures DecodeBody(AllBytes(Pieces(true, Str([233], Binary))) + rest) == None
  {
    var e: Text := [233];
    OneCharacter(233);
    assert e[0] == 233;
    assert |Narrow(e)| == 1;
    FourPieces(1, Str(e, Unspecified));
    EncodeDigit(1);
    var size: seq<Byte>, data: seq<Byte> := [49], [0xC3, 0xA9];
    assert Hex(1) == [HexDigit(1)] && EncodeChar(233) == data;
    assert size + CRLF + data + CRLF == [49, 13, 10, 0xC3, 0xA9, 13, 10];
    TooLong(0xC3, 0xA9, rest);
  }
}
