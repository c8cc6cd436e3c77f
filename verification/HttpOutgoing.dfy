/**
 `OutgoingMessage` of lib/_http_outgoing.js: output is written to the socket if the message
 is the one being sent, and buffered otherwise; bodies may be chunked.

 The header is an opaque text, made when it is first needed. A socket is what has been
 written to it and whether it can still be written to.
 */
module HttpOutgoing {
  import opened Prelude
  import opened Utf8
  import opened Encodings

  type Text = seq<Scalar>

  datatype Encoding = Unspecified | Utf8Encoding | Ascii | Binary | Ucs2Encoding | HexEncoding | Base64Encoding

  datatype Data = Str(text: Text, enc: Encoding) | Buf(buf: seq<Byte>)

  datatype Status = Open | Shut | Destroyed

  datatype Sock = Sock(bytes: seq<Byte>, status: Status)

  const CRLF_TEXT: Text := [13, 10]
  const CRLF: seq<Byte> := [13, 10]

  /** `length` of a string: a character above U+FFFF is two units. */
  function Units(text: Text): (n: nat)
    ensures n == 0 <==> text == []
  {
    if text == [] then 0 else (if text[0] < 0x1_0000 then 1 else 2) + Units(text[1..])
  }

  /** What is kept of a character in an encoding of one byte for each unit. */
  function LowBytes(c: int): seq<Byte>
    requires 0 <= c < 0x11_0000
  {
    if c < 0x1_0000 then [c % 256]
    else [(0xD800 + (c - 0x1_0000) / 0x400) % 256, (0xDC00 + (c - 0x1_0000) % 0x400) % 256]
  }

  function Narrow(text: Text): (r: seq<Byte>)
    ensures |r| == Units(text)
  {
    if text == [] then [] else LowBytes(text[0]) + Narrow(text[1..])
  }

  /** The bytes of hexadecimal text. Text of an odd length is refused: the socket's `write` throws. */
  function HexBytes(text: Text): seq<Byte> {
    HexOf(Narrow(text))
  }

  function TextBytes(text: Text, enc: Encoding): seq<Byte> {
    match enc
    case Unspecified => Encode(text)
    case Utf8Encoding => Encode(text)
    case Ascii => Narrow(text)
    case Binary => Narrow(text)
    case Ucs2Encoding => Ucs2(text)
    case HexEncoding => HexBytes(text)
    case Base64Encoding => Unbase64(Narrow(text))
  }

  /** What the socket makes of one write. */
  function BytesOf(d: Data): seq<Byte> {
    match d
    case Buf(b) => b
    case Str(text, enc) => TextBytes(text, enc)
  }

  function Length(d: Data): nat {
    match d case Buf(b) => |b| case Str(text, _) => Units(text)
  }

  function AllBytes(ds: seq<Data>): seq<Byte> {
    if ds == [] then [] else BytesOf(ds[0]) + AllBytes(ds[1..])
  }

  /** `attached`: the socket is this message's, and it is the socket's current message.
      `stream` records everything sent, whether it was written, buffered or dropped. */
  datatype Message = Message(
    header: Text,
    headerSent: bool,
    chunked: bool,
    hasBody: bool,
    trailer: Text,
    finished: bool,
    output: seq<Data>,
    attached: bool,
    stream: seq<Byte>)

  function NewMessage(header: Text, chunked: bool, hasBody: bool, trailer: Text): Message {
    Message(header, false, chunked, hasBody, trailer, false, [], false, [])
  }

  /** `_buffer`: text is joined to the text before it if the encodings allow it. */
  function Buffered(output: seq<Data>, d: Data): seq<Data> {
    if Length(d) == 0 then output
    else if output == [] || d.Buf? then output + [d]
    else
      var last := output[|output| - 1];
      if (d.enc != Unspecified && last.Str? && last.enc == d.enc) || (d.enc == Unspecified && last.Str?)
      then output[..|output| - 1] + [Str(last.text + d.text, last.enc)]
      else output + [d]
  }

  /** `_writeRaw` */
  function WriteRaw(m: Message, s: Sock, d: Data): (Message, Sock) {
    if Length(d) == 0 then (m, s)
    else if m.attached && s.status == Open then
      (m.(output := []), s.(bytes := s.bytes + AllBytes(m.output) + BytesOf(d)))
    else if m.attached && s.status == Destroyed then (m, s)
    else (m.(output := Buffered(m.output, d)), s)
  }

  /** `_send`: the header goes out in front of the first data. */
  function Send(m: Message, s: Sock, d: Data): (Message, Sock) {
    if m.headerSent then WriteRaw(m.(stream := m.stream + BytesOf(d)), s, d)
    else
      match d
      case Str(text, enc) =>
        var d' := Str(m.header + text, enc);
        WriteRaw(m.(headerSent := true, stream := m.stream + BytesOf(d')), s, d')
      case Buf(b) =>
        var h := Str(m.header, Ascii);
        WriteRaw(m.(headerSent := true, output := [h] + m.output, stream := m.stream + BytesOf(h) + b), s, d)
  }

  function HexDigit(x: nat): Scalar
    requires x < 16
  {
    if x < 10 then 48 + x else 87 + x
  }

  /** `n.toString(16)` */
  function Hex(n: nat): Text {
    if n < 16 then [HexDigit(n)] else Hex(n / 16) + [HexDigit(n % 16)]
  }

  function SendAll(m: Message, s: Sock, ds: seq<Data>): (Message, Sock)
    decreases |ds|
  {
    if ds == [] then (m, s)
    else
      var (m1, s1) := Send(m, s, ds[0]);
      SendAll(m1, s1, ds[1..])
  }

  /** The data, sent without its encoding. */
  function Unlabelled(d: Data): Data {
    match d case Buf(_) => d case Str(text, _) => Str(text, Unspecified)
  }

  /** The encodings that a chunked `write` drops. */
  predicate DropsEncoding(enc: Encoding) {
    enc == Binary || enc == HexEncoding || enc == Base64Encoding
  }

  /** What `write` passes to `_send`. */
  function Pieces(chunked: bool, d: Data): seq<Data> {
    if !chunked then [d]
    else if d.Str? && !DropsEncoding(d.enc) then
      [Str(Hex(|BytesOf(d)|) + CRLF_TEXT + d.text + CRLF_TEXT, d.enc)]
    else
      [Str(Hex(Length(d)), Unspecified), Buf(CRLF), Unlabelled(d), Buf(CRLF)]
  }

  function Write(m: Message, s: Sock, d: Data): (Message, Sock) {
    if !m.hasBody || Length(d) == 0 then (m, s) else SendAll(m, s, Pieces(m.chunked, d))
  }

  /** What `end` passes to `_send` after the data. */
  function LastPiece(m: Message): Data {
    if m.chunked then Str([48] + CRLF_TEXT + m.trailer + CRLF_TEXT, Unspecified) else Str([], Unspecified)
  }

  /** `end`, up to the decision whether to emit 'finish'. */
  function EndOutput(m: Message, s: Sock, last: Option<Data>): (Message, Sock) {
    var (m1, s1) := match last case Some(d) => Write(m, s, d) case None => (m, s);
    var (m2, s2) := Send(m1, s1, LastPiece(m1));
    (m2.(finished := true), s2)
  }

  /** `_flush`, up to the decision whether to emit 'finish'. */
  function Flush(m: Message, s: Sock): (Message, Sock) {
    if m.attached && s.status == Open then (m.(output := []), s.(bytes := s.bytes + AllBytes(m.output))) else (m, s)
  }

  // ---------------------------------------------------------------- the objects

  class Socket {
    var bytes: seq<Byte>
    var status: Status

    constructor ()
      ensures bytes == [] && status == Open
    {
      bytes, status := [], Open;
    }

    ghost function Abs(): Sock
      reads this
    {
      Sock(bytes, status)
    }

    method WriteOut(d: Data)
      modifies this`bytes
      ensures Abs() == old(Abs()).(bytes := old(bytes) + BytesOf(d))
    {
      bytes := bytes + BytesOf(d);
    }
  }

  /** The source's object. `connection` is null until a socket is assigned. */
  class OutgoingMessage {
    const header: Text
    const chunkedEncoding: bool
    const hasBody: bool
    const trailer: Text
    var headerSent: bool
    var finished: bool
    var output: seq<Data>
    var connection: Socket?
    ghost var stream: seq<Byte>

    ghost function Abs(): Message
      reads this
    {
      Message(header, headerSent, chunkedEncoding, hasBody, trailer, finished, output, connection != null, stream)
    }

    constructor (header: Text, chunked: bool, hasBody: bool, trailer: Text)
      ensures Abs() == NewMessage(header, chunked, hasBody, trailer)
    {
      this.header, chunkedEncoding, this.hasBody, this.trailer := header, chunked, hasBody, trailer;
      headerSent, finished, output, connection, stream := false, false, [], null, [];
    }

    method Buffer(d: Data)
      modifies this`output
      ensures output == Buffered(old(output), d)
    {
      if Length(d) == 0 {
        return;
      }
      var length := |output|;
      if length == 0 || d.Buf? {
        output := output + [d];
        return;
      }
      var last := output[length - 1];
      if (d.enc != Unspecified && last.Str? && last.enc == d.enc) || (d.enc == Unspecified && last.Str?) {
        output := output[..length - 1] + [Str(last.text + d.text, last.enc)];
        return;
      }
      output := output + [d];
    }

    /** The loop of `_writeRaw` and `_flush` over what is buffered. */
    method WriteBuffered(socket: Socket)
      modifies this`output, socket`bytes
      ensures output == [] && socket.bytes == old(socket.bytes) + AllBytes(old(output))
    {
      ghost var before := socket.bytes;
      while output != []
        invariant socket.bytes + AllBytes(output) == before + AllBytes(old(output))
        decreases |output|
      {
        var c := output[0];
        Assoc(socket.bytes, BytesOf(c), AllBytes(output[1..]));
        output := output[1..];
        socket.WriteOut(c);
      }
      assert socket.bytes + [] == socket.bytes;
    }

    /** `_writeRaw`; the socket, if there is one, has this as its current message. */
    method WriteRawData(d: Data, socket: Socket)
      requires connection == null || connection == socket
      modifies this`output, socket`bytes
      ensures (Abs(), socket.Abs()) == WriteRaw(old(Abs()), old(socket.Abs()), d)
    {
      if Length(d) == 0 {
        return;
      }
      if connection != null && connection.status == Open {
        WriteBuffered(connection);
        connection.WriteOut(d);
      } else if connection != null && connection.status == Destroyed {
        return;
      } else {
        Buffer(d);
      }
    }

    method SendData(d: Data, socket: Socket)
      requires connection == null || connection == socket
      modifies this`output, this`headerSent, this`stream, socket`bytes
      ensures (Abs(), socket.Abs()) == Send(old(Abs()), old(socket.Abs()), d)
    {
      var data := d;
      if !headerSent {
        match d {
          case Str(text, enc) =>
            data := Str(header + text, enc);
            stream := stream + BytesOf(data);
          case Buf(b) =>
            output := [Str(header, Ascii)] + output;
            stream := stream + BytesOf(Str(header, Ascii)) + b;
        }
        headerSent := true;
      } else {
        stream := stream + BytesOf(d);
      }
      WriteRawData(data, socket);
    }
  
    /** `write` */
    method WriteBody(d: Data, socket: Socket)
      requires connection == null || connection == socket
      modifies this`output, this`headerSent, this`stream, socket`bytes
      ensures (Abs(), socket.Abs()) == Write(old(Abs()), old(socket.Abs()), d)
    {
      if !hasBody || Length(d) == 0 {
        return;
      }
      SendInOrder(Pieces(chunkedEncoding, d), socket);
    }

    /** The one or four calls of `_send` that `write` makes. */
    method SendInOrder(ds: seq<Data>, socket: Socket)
      requires connection == null || connection == socket
      modifies this`output, this`headerSent, this`stream, socket`bytes
      ensures (Abs(), socket.Abs()) == SendAll(old(Abs()), old(socket.Abs()), ds)
    {
      ghost var whole := SendAll(Abs(), socket.Abs(), ds);
      var i := 0;
      while i < |ds|
        invariant 0 <= i <= |ds| && SendAll(Abs(), socket.Abs(), ds[i..]) == whole
      {
        assert ds[i..][1..] == ds[i + 1..];
        SendData(ds[i], socket);
        i := i + 1;
      }
    }

    /** `end`. Nothing happens if the message was ended before. `emit`: 'finish' is emitted;
        `throws`: everything was written, but there is no connection to look at. */
    method EndBody(last: Option<Data>, socket: Socket) returns (emit: bool, throws: bool)
      requires connection == null || connection == socket
      modifies this`output, this`headerSent, this`stream, this`finished, socket`bytes
      ensures old(finished) ==> !emit && !throws && Abs() == old(Abs()) && socket.Abs() == old(socket.Abs())
      ensures !old(finished) ==> (Abs(), socket.Abs()) == EndOutput(old(Abs()), old(socket.Abs()), last)
      ensures !old(finished) ==> emit == (output == [] && connection != null)
      ensures !old(finished) ==> throws == (output == [] && connection == null)
    {
      if finished {
        return false, false;
      }
      if last.Some? {
        WriteBody(last.value, socket);
      }
      SendData(LastPieceOf(), socket);
      finished := true;
      emit, throws := output == [] && connection != null, output == [] && connection == null;
    }

    function LastPieceOf(): (d: Data)
      ensures chunkedEncoding ==> d == Str([48] + CRLF_TEXT + trailer + CRLF_TEXT, Unspecified)
      ensures !chunkedEncoding ==> d == Str([], Unspecified)
    {
      if chunkedEncoding then Str([48] + CRLF_TEXT + trailer + CRLF_TEXT, Unspecified) else Str([], Unspecified)
    }

    /** `_flush`; `emit`: 'finish' is emitted. */
    method FlushOutput(socket: Socket) returns (emit: bool)
      requires connection == null || connection == socket
      modifies this`output, socket`bytes
      ensures (Abs(), socket.Abs()) == Flush(old(Abs()), old(socket.Abs()))
      ensures emit == (connection != null && output == [] && finished)
    {
      if connection == null {
        return false;
      }
      assert socket.bytes + [] == socket.bytes;
      if output != [] {
        if connection.status != Open {
          return false;
        }
        WriteBuffered(connection);
      }
      emit := finished;
    }
  }

  // ---------------------------------------------------------------- what is sent

  /** Buffers, and text that is encoded as UTF-8. */
  predicate Plain(d: Data) {
    d.Str? ==> d.enc == Unspecified || d.enc == Utf8Encoding
  }

  /** More text may be joined to the end of the output. */
  predicate Joinable(output: seq<Data>) {
    output != [] ==> Plain(output[|output| - 1])
  }

  lemma {:induction false} AllBytesAppend(a: seq<Data>, b: seq<Data>)
    ensures AllBytes(a + b) == AllBytes(a) + AllBytes(b)
  {
    if a == [] {
      assert a + b == b;
    } else {
      assert (a + b)[1..] == a[1..] + b;
      AllBytesAppend(a[1..], b);
      Assoc(BytesOf(a[0]), AllBytes(a[1..]), AllBytes(b));
    }
  }

  lemma AllBytesSnoc(a: seq<Data>, d: Data)
    ensures AllBytes(a + [d]) == AllBytes(a) + BytesOf(d)
  {
    AllBytesAppend(a, [d]);
    assert [d][1..] == [];
    assert AllBytes([d]) == BytesOf(d) + [];
  }

  lemma EmptyData(d: Data)
    requires Length(d) == 0
    ensures BytesOf(d) == []
  {}

  /** Every character is below 128: it is one byte in every encoding. */
  predicate SevenBit(text: Text) {
    forall k :: 0 <= k < |text| ==> text[k] < 128
  }

  lemma {:induction false} NarrowAppend(a: Text, b: Text)
    ensures Narrow(a + b) == Narrow(a) + Narrow(b)
  {
    if a == [] {
      assert a + b == b;
    } else {
      assert (a + b)[1..] == a[1..] + b;
      NarrowAppend(a[1..], b);
      Assoc(LowBytes(a[0]), Narrow(a[1..]), Narrow(b));
    }
  }

  lemma CharNarrow(c: Scalar)
    ensures c < 128 ==> LowBytes(c) == EncodeChar(c)
    ensures c >= 128 ==> |LowBytes(c)| < |EncodeChar(c)|
  {}

  /** One byte for each unit is UTF-8 if and only if the text has seven bits. */
  lemma {:induction false} NarrowIsEncode(text: Text)
    ensures |Narrow(text)| <= |Encode(text)|
    ensures SevenBit(text) ==> Narrow(text) == Encode(text)
    ensures !SevenBit(text) ==> |Narrow(text)| < |Encode(text)|
  {
    if text != [] {
      CharNarrow(text[0]);
      NarrowIsEncode(text[1..]);
      if text[0] < 128 && SevenBit(text[1..]) {
        assert forall k :: 0 < k < |text| ==> text[k] == text[1..][k - 1];
      }
    }
  }

  predicate Narrowing(enc: Encoding) {
    enc == Ascii || enc == Binary
  }

  /** `_buffer` joins the text to the last text of the output. */
  predicate Joins(output: seq<Data>, d: Data) {
    && output != [] && d.Str? && Length(d) > 0 && output[|output| - 1].Str?
    && (d.enc == Unspecified || d.enc == output[|output| - 1].enc)
  }

  /** The decoder makes something else of both texts together than of each. */
  predicate Decodes(last: Data, d: Data)
    requires last.Str? && d.Str?
  {
    TextBytes(last.text + d.text, last.enc) != BytesOf(last) + BytesOf(d)
  }

  /** Hexadecimal text is changed by text without an encoding, unless both have an odd length, so that
      the first one is refused, and together they stand for just the second one. */
  predicate HexChanged(a: Text, t: Text, labelled: bool) {
    if labelled then HexMisjoins(Narrow(a), Narrow(t))
    else Units(a) % 2 == 0 || Units(t) % 2 == 0 || HexBytes(a + t) != Encode(t)
  }

  /** Base64 text is changed by text without an encoding. A group that is left open is filled up from
      the text behind it, and that is left to comparison. */
  predicate Base64Changed(last: Data, d: Data)
    requires last.Str? && d.Str?
  {
    if WholeBase64(Narrow(last.text)) then d.enc == Unspecified else Decodes(last, d)
  }

  /** Which joined text comes out wrong, by the encoding it takes over. */
  predicate Changed(last: Data, d: Data)
    requires last.Str? && d.Str?
  {
    match last.enc
    case Unspecified => false
    case Utf8Encoding => false
    case Ascii => d.enc == Unspecified && !SevenBit(d.text)
    case Binary => d.enc == Unspecified && !SevenBit(d.text)
    case Ucs2Encoding => d.enc == Unspecified
    case HexEncoding => HexChanged(last.text, d.text, d.enc != Unspecified)
    case Base64Encoding => Base64Changed(last, d)
  }

  predicate Misfit(output: seq<Data>, d: Data) {
    Joins(output, d) && Changed(output[|output| - 1], d)
  }

  lemma {:induction false} Ucs2Size(text: Text)
    ensures |Ucs2(text)| == 2 * Units(text)
  {
    if text != [] {
      LowInUcs2(text[0]);
      Ucs2Size(text[1..]);
    }
  }

  lemma TextIsLonger(text: Text)
    requires text != []
    ensures |HexBytes(text)| < |Encode(text)| && |Unbase64(Narrow(text))| < |Encode(text)|
  {
    NarrowIsEncode(text);
    HexOfShort(Narrow(text));
    Unbase64Short(Narrow(text));
  }

  lemma LongerThan(a: seq<Byte>, x: seq<Byte>, y: seq<Byte>)
    requires |x| < |y|
    ensures a + x != a + y
  {
    assert |a + x| < |a + y|;
  }

  lemma HexUnlabelled(a: Text, t: Text)
    requires Units(a) % 2 == 0 && t != []
    ensures HexBytes(a + t) != HexBytes(a) + Encode(t)
  {
    NarrowAppend(a, t);
    HexOfAppend(Narrow(a), Narrow(t));
    TextIsLonger(t);
    assert |HexBytes(a + t)| < |HexBytes(a) + Encode(t)|;
  }

  lemma Base64Join(a: Text, t: Text)
    requires WholeBase64(Narrow(a)) && t != []
    ensures Unbase64(Narrow(a + t)) == Unbase64(Narrow(a)) + Unbase64(Narrow(t))
    ensures Unbase64(Narrow(a + t)) != Unbase64(Narrow(a)) + Encode(t)
  {
    NarrowAppend(a, t);
    Unbase64Append(Narrow(a), Narrow(t));
    TextIsLonger(t);
    LongerThan(Unbase64(Narrow(a)), Unbase64(Narrow(t)), Encode(t));
  }

  lemma NotEmpty(t: Text)
    requires t != []
    ensures Encode(t) != []
  {
    TextIsLonger(t);
  }

  /** Hexadecimal text of an odd length is refused, alone or joined. */
  lemma HexRefused(a: Text, t: Text)
    requires Units(a) % 2 == 1 && t != []
    ensures HexBytes(a) == [] && Encode(t) != [] && (Units(t) % 2 == 0 ==> HexBytes(a + t) == [])
  {
    NarrowAppend(a, t);
    OddRefused(Narrow(a), Narrow(t));
    NotEmpty(t);
  }

  lemma HexPlain(a: Text, t: Text)
    requires t != []
    ensures HexBytes(a + t) == HexBytes(a) + Encode(t) <==> !HexChanged(a, t, false)
  {
    if Units(a) % 2 == 0 {
      HexUnlabelled(a, t);
    } else {
      HexRefused(a, t);
      assert [] + Encode(t) == Encode(t);
    }
  }

  lemma HexJoin(a: Text, t: Text)
    ensures HexBytes(a + t) == HexBytes(a) + HexBytes(t) <==> !HexChanged(a, t, true)
  {
    NarrowAppend(a, t);
    HexJoins(Narrow(a), Narrow(t));
  }

  lemma DecodedJoin(last: Data, d: Data)
    requires last.Str? && d.Str? && d.text != [] && (d.enc == last.enc || d.enc == Unspecified)
    requires last.enc == HexEncoding || last.enc == Base64Encoding
    ensures TextBytes(last.text + d.text, last.enc) == BytesOf(last) + BytesOf(d) <==> !Changed(last, d)
  {
    if last.enc == HexEncoding {
      HexPlain(last.text, d.text);
      HexJoin(last.text, d.text);
    } else if WholeBase64(Narrow(last.text)) {
      Base64Join(last.text, d.text);
    }
  }

  lemma JoinedBytes(last: Data, d: Data)
    requires last.Str? && d.Str? && d.text != [] && (d.enc == last.enc || d.enc == Unspecified)
    ensures TextBytes(last.text + d.text, last.enc) == BytesOf(last) + BytesOf(d) <==> !Changed(last, d)
  {
    match last.enc {
      case Ucs2Encoding =>
        Ucs2Append(last.text, d.text);
        Ucs2IsEncode(d.text);
        CancelFront(Ucs2(last.text), Ucs2(d.text), BytesOf(d));
      case HexEncoding => DecodedJoin(last, d);
      case Base64Encoding => DecodedJoin(last, d);
      case _ =>
        EncodeAppend(last.text, d.text);
        NarrowAppend(last.text, d.text);
        NarrowIsEncode(d.text);
        CancelFront(Narrow(last.text), Narrow(d.text), BytesOf(d));
    }
  }

  lemma BufferedLast(output: seq<Data>, d: Data)
    ensures Joins(output, d) ==>
      var front, last := output[..|output| - 1], output[|output| - 1];
      Buffered(output, d) == front + [Str(last.text + d.text, last.enc)]
    ensures !Joins(output, d) && Length(d) > 0 ==> Buffered(output, d) == output + [d]
  {}

  /** Buffering keeps all bytes in order, also where text is joined to earlier text, if and
      only if it is not a misfit. */
  lemma BufferedBytes(output: seq<Data>, d: Data)
    ensures AllBytes(Buffered(output, d)) == AllBytes(output) + BytesOf(d) <==> !Misfit(output, d)
  {
    BufferedLast(output, d);
    if Length(d) == 0 {
      EmptyData(d);
    } else if !Joins(output, d) {
      AllBytesSnoc(output, d);
    } else {
      var front, last := output[..|output| - 1], output[|output| - 1];
      assert output == front + [last];
      JoinedBytes(last, d);
      AllBytesSnoc(front, last);
      AllBytesSnoc(front, Str(last.text + d.text, last.enc));
      Assoc(AllBytes(front), BytesOf(last), BytesOf(d));
      CancelFront(AllBytes(front), TextBytes(last.text + d.text, last.enc), BytesOf(last) + BytesOf(d));
    }
  }

  /** What is joined to plain data is plain again. */
  lemma PlainBuffered(output: seq<Data>, d: Data)
    requires Joinable(output) && Plain(d)
    ensures AllBytes(Buffered(output, d)) == AllBytes(output) + BytesOf(d)
    ensures Joinable(Buffered(output, d))
    ensures Length(d) > 0 ==> Buffered(output, d) != []
  {
    BufferedBytes(output, d);
  }

  lemma AllBytesOne(d: Data)
    ensures AllBytes([d]) == BytesOf(d)
  {
    AllBytesSnoc([], d);
    assert [] + [d] == [d] && [] + BytesOf(d) == BytesOf(d);
  }

  lemma OneCharacter(c: Scalar)
    ensures Narrow([c]) == LowBytes(c) && Encode([c]) == EncodeChar(c) && Units([c]) > 0
  {
    assert [c][1..] == [];
    assert LowBytes(c) + [] == LowBytes(c) && EncodeChar(c) + [] == EncodeChar(c);
  }

  /** The output with one text, and another joined to it. */
  lemma JoinedToOne(last: Data, d: Data)
    requires Joins([last], d)
    ensures AllBytes(Buffered([last], d)) == TextBytes(last.text + d.text, last.enc)
  {
    BufferedLast([last], d);
    assert [last][..0] == [];
    assert [] + [Str(last.text + d.text, last.enc)] == [Str(last.text + d.text, last.enc)];
    AllBytesOne(Str(last.text + d.text, last.enc));
  }

  /** An instance: "a" as binary and then e-acute come out as two bytes instead of three. */
  lemma JoinedEncoding()
    ensures var first, second := Str([97], Binary), Str([233], Unspecified);
      && Misfit([first], second)
      && AllBytes(Buffered([first], second)) == [97, 233]
      && BytesOf(first) + BytesOf(second) == [97, 0xC3, 0xA9]
  {
    var a: Text, e: Text := [97], [233];
    OneCharacter(97);
    OneCharacter(233);
    assert e[0] == 233;
    assert !SevenBit(e);
    NarrowAppend(a, e);
    JoinedToOne(Str(a, Binary), Str(e, Unspecified));
  }

  /** An instance: "b" behind "a" in UCS-2 comes out as UCS-2. */
  lemma JoinedUcs2()
    ensures var first, second := Str([97], Ucs2Encoding), Str([98], Unspecified);
      && Misfit([first], second)
      && AllBytes(Buffered([first], second)) == [97, 0, 98, 0]
      && BytesOf(first) + BytesOf(second) == [97, 0, 98]
  {
    var a: Text, b: Text := [97], [98];
    OneCharacter(97);
    OneCharacter(98);
    Ucs2Append(a, b);
    Ucs2One(97);
    Ucs2One(98);
    JoinedToOne(Str(a, Ucs2Encoding), Str(b, Unspecified));
  }

  /** An instance: "62" behind "61" in hexadecimal is decoded as well. */
  lemma JoinedHex()
    ensures var first, second := Str([54, 49], HexEncoding), Str([54, 50], Unspecified);
      && Misfit([first], second)
      && AllBytes(Buffered([first], second)) == [97, 98]
      && BytesOf(first) + BytesOf(second) == [97, 54, 50]
  {
    var a: Text, b: Text := [54, 49], [54, 50];
    TwoCharacters(54, 49);
    TwoCharacters(54, 50);
    NarrowAppend(a, b);
    assert Narrow(a) == [54, 49] && Narrow(b) == [54, 50];
    UnhexPair(54, 49);
    UnhexPair(54, 50);
    UnhexAppend([54, 49], [54, 50]);
    JoinedToOne(Str(a, HexEncoding), Str(b, Unspecified));
  }

  lemma TwoCharacters(x: Scalar, y: Scalar)
    requires x < 128 && y < 128
    ensures Narrow([x, y]) == [x, y] && Encode([x, y]) == [x, y] && Units([x, y]) == 2
  {
    OneCharacter(x);
    OneCharacter(y);
    assert [x, y] == [x] + [y];
    NarrowAppend([x], [y]);
    EncodeAppend([x], [y]);
  }

  /** Two padded base64 texts of one byte each come out as three: the second one fills up the group
      that the padding closed. */
  lemma JoinedPadding(w: Scalar, x: Scalar, y: Scalar, z: Scalar)
    requires w < 128 && x < 128 && Base64Digit(w).Some? && Base64Digit(x).Some?
    requires y < 128 && z < 128 && Base64Digit(y).Some? && Base64Digit(z).Some?
    ensures var first, second := Str([w, x, 61, 61], Base64Encoding), Str([y, z, 61, 61], Base64Encoding);
      && Misfit([first], second)
      && |AllBytes(Buffered([first], second))| == 3 && |BytesOf(first) + BytesOf(second)| == 2
  {
    var first, second := Str([w, x, 61, 61], Base64Encoding), Str([y, z, 61, 61], Base64Encoding);
    PaddedText(w, x);
    PaddedText(y, z);
    PaddedJoin(w, x, y, z);
    JoinedToOne(first, second);
  }

  lemma PaddedText(x: Scalar, y: Scalar)
    requires x < 128 && y < 128 && Base64Digit(x).Some? && Base64Digit(y).Some?
    ensures Units([x, y, 61, 61]) > 0 && !WholeBase64(Narrow([x, y, 61, 61]))
    ensures Unbase64(Narrow([x, y, 61, 61])) == [(Base64Digit(x).value * 4 + Base64Digit(y).value / 16) % 256]
  {
    FourCharacters(x, y, 61, 61);
    UnbasePadded(x, y);
  }

  lemma PaddedJoin(w: Scalar, x: Scalar, y: Scalar, z: Scalar)
    requires w < 128 && x < 128 && Base64Digit(w).Some? && Base64Digit(x).Some?
    requires y < 128 && z < 128 && Base64Digit(y).Some? && Base64Digit(z).Some?
    ensures |Unbase64(Narrow([w, x, 61, 61] + [y, z, 61, 61]))| == 3
  {
    NarrowAppend([w, x, 61, 61], [y, z, 61, 61]);
    FourCharacters(w, x, 61, 61);
    FourCharacters(y, z, 61, 61);
    UnbaseTwice(w, x, y, z);
  }

  lemma FourCharacters(w: Scalar, x: Scalar, y: Scalar, z: Scalar)
    requires w < 128 && x < 128 && y < 128 && z < 128
    ensures Narrow([w, x, y, z]) == [w, x, y, z] && Units([w, x, y, z]) == 4
  {
    TwoCharacters(w, x);
    TwoCharacters(y, z);
    assert [w, x, y, z] == [w, x] + [y, z];
    NarrowAppend([w, x], [y, z]);
  }

  lemma Ucs2One(c: Scalar)
    requires c < 256
    ensures Ucs2([c]) == [c, 0]
  {
    assert [c][1..] == [];
    assert [c, 0] + [] == [c, 0];
  }

  /** What one call of `_send` adds to the stream of the message. */
  function Sent(m: Message, d: Data): seq<Byte> {
    if m.headerSent then BytesOf(d)
    else match d
      case Str(text, enc) => BytesOf(Str(m.header + text, enc))
      case Buf(b) => Narrow(m.header) + b
  }

  /** Sending adds the same bytes to what was written and what is buffered, whether the
      message is the current one or not. */
  lemma SendKeeps(m: Message, s: Sock, d: Data)
    requires Plain(d) && Joinable(m.output) && (!m.headerSent ==> m.output == [])
    requires !(m.attached && s.status == Destroyed)
    requires m.headerSent || d.Str? || Length(d) > 0
    ensures var (m', s') := Send(m, s, d);
      && s'.bytes + AllBytes(m'.output) == s.bytes + AllBytes(m.output) + Sent(m, d)
      && m'.stream == m.stream + Sent(m, d) && s'.status == s.status
      && Joinable(m'.output) && m'.headerSent
      && m' == m.(headerSent := true, output := m'.output, stream := m'.stream)
  {
    if m.headerSent {
      RawKeeps(m.(stream := m.stream + BytesOf(d)), s, d);
    } else if d.Str? {
      var d' := Str(m.header + d.text, d.enc);
      RawKeeps(m.(headerSent := true, stream := m.stream + BytesOf(d')), s, d');
    } else {
      FirstBuffer(m, s, d);
    }
  }

  /** A first buffer has the header put in front of it. */
  lemma FirstBuffer(m: Message, s: Sock, d: Data)
    requires d.Buf? && !m.headerSent && m.output == [] && Length(d) > 0 && !(m.attached && s.status == Destroyed)
    ensures var (m', s') := Send(m, s, d);
      && s'.bytes + AllBytes(m'.output) == s.bytes + AllBytes(m.output) + Sent(m, d)
      && m'.stream == m.stream + Sent(m, d) && s'.status == s.status
      && Joinable(m'.output) && m'.headerSent
      && m' == m.(headerSent := true, output := m'.output, stream := m'.stream)
  {
    var h := Str(m.header, Ascii);
    assert [h] + m.output == [h] && [h][1..] == [];
    assert s.bytes + [] == s.bytes;
    Assoc(m.stream, BytesOf(h), d.buf);
    HeaderKeeps(m.(headerSent := true, output := [h], stream := m.stream + BytesOf(h) + d.buf), s, h, d);
  }

  lemma RawKeeps(m: Message, s: Sock, d: Data)
    requires Plain(d) && Joinable(m.output) && !(m.attached && s.status == Destroyed)
    ensures var (m', s') := WriteRaw(m, s, d);
      && s'.bytes + AllBytes(m'.output) == s.bytes + AllBytes(m.output) + BytesOf(d)
      && s'.status == s.status && Joinable(m'.output) && m' == m.(output := m'.output)
  {
    if Length(d) == 0 {
      EmptyData(d);
    } else if m.attached && s.status == Open {
      assert s.bytes + AllBytes(m.output) + BytesOf(d) + [] == s.bytes + AllBytes(m.output) + BytesOf(d);
    } else {
      PlainBuffered(m.output, d);
      Assoc(s.bytes, AllBytes(m.output), BytesOf(d));
    }
  }

  /** The same when the header has just been put in front of a first buffer. */
  lemma HeaderKeeps(m: Message, s: Sock, h: Data, d: Data)
    requires d.Buf? && m.output == [h] && !(m.attached && s.status == Destroyed)
    requires Length(d) > 0
    ensures var (m', s') := WriteRaw(m, s, d);
      && s'.bytes + AllBytes(m'.output) == s.bytes + (BytesOf(h) + BytesOf(d))
      && s'.status == s.status && Joinable(m'.output) && m' == m.(output := m'.output)
  {
    AllBytesOne(h);
    Assoc(s.bytes, BytesOf(h), BytesOf(d));
    if m.attached && s.status == Open {
      assert s.bytes + BytesOf(h) + BytesOf(d) + [] == s.bytes + BytesOf(h) + BytesOf(d);
    } else {
      AllBytesSnoc([h], d);
    }
  }

  // ---------------------------------------------------------------- nothing is lost, doubled or reordered

  /** What `_send` is given: a text, or a buffer with something in it. */
  predicate Sendable(d: Data) {
    Plain(d) && (d.Str? || Length(d) > 0)
  }

  predicate AllSendable(ds: seq<Data>) {
    forall k :: 0 <= k < |ds| ==> Sendable(ds[k])
  }

  /** A message whose text was all UTF-8; nothing is dropped because the socket is gone. */
  predicate Fine(m: Message, s: Sock) {
    && Joinable(m.output)
    && (!m.headerSent ==> m.output == [])
    && (m.headerSent ==> m.stream != [])
    && !(m.attached && s.status == Destroyed)
  }

  /** What is on the socket and what is still to come are `base`, and then all that was sent. */
  predicate Balanced(base: seq<Byte>, m: Message, s: Sock) {
    s.bytes + AllBytes(m.output) == base + m.stream
  }

  /** Only the output changed, and more was sent. */
  predicate Grown(m: Message, s: Sock, m': Message, s': Sock) {
    && m' == m.(headerSent := m'.headerSent, output := m'.output, stream := m'.stream)
    && m.stream <= m'.stream
    && s'.status == s.status
    && (!m.attached ==> s' == s)
    && (m.attached && s.status == Open && m.output == [] ==> m'.output == [])
    && (m.headerSent ==> m'.headerSent)
  }

  lemma SentSomething(m: Message, d: Data)
    requires m.header != [] && !m.headerSent && Plain(d)
    ensures Sent(m, d) != []
  {
    match d {
      case Buf(_) =>
      case Str(text, enc) =>
        var t := m.header + text;
        assert Encode(t) == EncodeChar(t[0]) + Encode(t[1..]);
    }
  }

  lemma Rebalanced(base: seq<Byte>, stream: seq<Byte>, more: seq<Byte>)
    ensures base + stream + more == base + (stream + more)
    ensures stream <= stream + more
  {}

  /** An attached message whose socket is open has nothing in its output. */
  lemma SendWhere(m: Message, s: Sock, d: Data)
    requires d.Str? || Length(d) > 0 || m.headerSent
    ensures var (m', s') := Send(m, s, d);
      && (!m.attached ==> s' == s)
      && (m.attached && s.status == Open && m.output == [] ==> m'.output == [])
  {}

  lemma SendBalanced(base: seq<Byte>, m: Message, s: Sock, d: Data)
    requires Balanced(base, m, s) && Fine(m, s) && Sendable(d) && m.header != []
    ensures var (m', s') := Send(m, s, d);
      && Balanced(base, m', s') && Fine(m', s') && m'.headerSent && Grown(m, s, m', s')
      && m'.stream == m.stream + Sent(m, d)
  {
    SendKeeps(m, s, d);
    SendWhere(m, s, d);
    Rebalanced(base, m.stream, Sent(m, d));
    if !m.headerSent {
      SentSomething(m, d);
    }
  }

  /** What several calls of `_send` add to the stream. */
  function SentAll(m: Message, ds: seq<Data>): seq<Byte> {
    if ds == [] then [] else Sent(m, ds[0]) + AllBytes(ds[1..])
  }

  lemma SentLater(m: Message, ds: seq<Data>)
    requires m.headerSent
    ensures SentAll(m, ds) == AllBytes(ds)
  {}

  lemma GrownTwice(m: Message, s: Sock, m1: Message, s1: Sock, m2: Message, s2: Sock)
    requires Grown(m, s, m1, s1) && Grown(m1, s1, m2, s2)
    ensures Grown(m, s, m2, s2)
  {}

  lemma {:induction false} SendAllBalanced(base: seq<Byte>, m: Message, s: Sock, ds: seq<Data>)
    requires Balanced(base, m, s) && Fine(m, s) && AllSendable(ds) && m.header != []
    ensures var (m', s') := SendAll(m, s, ds);
      && Balanced(base, m', s') && Fine(m', s') && Grown(m, s, m', s')
      && (ds != [] ==> m'.headerSent) && m'.stream == m.stream + SentAll(m, ds)
    decreases |ds|
  {
    if ds == [] {
      assert m.stream + [] == m.stream;
    } else {
      var (m1, s1) := Send(m, s, ds[0]);
      var (m2, s2) := SendAll(m1, s1, ds[1..]);
      SendBalanced(base, m, s, ds[0]);
      SendAllBalanced(base, m1, s1, ds[1..]);
      GrownTwice(m, s, m1, s1, m2, s2);
      SentLater(m1, ds[1..]);
      Assoc(m.stream, Sent(m, ds[0]), AllBytes(ds[1..]));
    }
  }

  /** What `write` turns into plain data. */
  predicate Accepted(chunked: bool, d: Data) {
    Plain(d) || (chunked && d.Str? && DropsEncoding(d.enc))
  }

  lemma PiecesSendable(chunked: bool, d: Data)
    requires Accepted(chunked, d) && Length(d) > 0
    ensures AllSendable(Pieces(chunked, d)) && Pieces(chunked, d) != []
  {}

  /** `write`: what is accepted is on the socket or in the output, in order. */
  lemma WriteBalanced(base: seq<Byte>, m: Message, s: Sock, d: Data)
    requires Balanced(base, m, s) && Fine(m, s) && Accepted(m.chunked, d) && m.header != []
    ensures var (m', s') := Write(m, s, d);
      && Balanced(base, m', s') && Fine(m', s') && Grown(m, s, m', s')
      && (m.hasBody && Length(d) > 0 ==> m'.headerSent && m'.stream == m.stream + SentAll(m, Pieces(m.chunked, d)))
      && (!(m.hasBody && Length(d) > 0) ==> m' == m)
  {
    if m.hasBody && Length(d) > 0 {
      PiecesSendable(m.chunked, d);
      SendAllBalanced(base, m, s, Pieces(m.chunked, d));
    }
  }

  lemma EndBalanced(base: seq<Byte>, m: Message, s: Sock, last: Option<Data>)
    requires Balanced(base, m, s) && Fine(m, s) && m.header != []
    requires last.Some? ==> Accepted(m.chunked, last.value)
    ensures var (m', s') := EndOutput(m, s, last);
      && Balanced(base, m', s') && Fine(m', s') && Grown(m, s, m'.(finished := m.finished), s')
      && m'.headerSent && m'.finished && m'.stream != []
  {
    var (m1, s1) := match last case Some(d) => Write(m, s, d) case None => (m, s);
    if last.Some? {
      WriteBalanced(base, m, s, last.value);
    }
    var (m2, s2) := Send(m1, s1, LastPiece(m1));
    SendBalanced(base, m1, s1, LastPiece(m1));
    GrownTwice(m, s, m1, s1, m2, s2);
  }

  lemma FlushBalanced(base: seq<Byte>, m: Message, s: Sock)
    requires Balanced(base, m, s)
    ensures var (m', s') := Flush(m, s);
      && Balanced(base, m', s') && (m.attached && s.status == Open ==> m'.output == [])
      && m' == m.(output := m'.output) && s'.status == s.status
  {
    assert s.bytes + AllBytes(m.output) + [] == s.bytes + AllBytes(m.output);
  }
}
