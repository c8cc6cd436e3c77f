/**
 What a client reads from one connection: whatever the interleaving of the handlers, the bytes
 on the socket decode into the bodies that were written to the responses, in the order of the
 requests.
 */
module HttpDelivery {
  import opened Prelude
  import opened Utf8
  import opened HttpOutgoing
  import opened HttpPipeline
  import C = HttpChunked

  // ---------------------------------------------------------------- what was written to a response

  /** What the handlers wrote to each response, with the data given to `end`. */
  function Bodies(es: seq<Event>): seq<seq<Data>> {
    if es == [] then []
    else
      var before, e := Bodies(es[..|es| - 1]), es[|es| - 1];
      match After(es[..|es| - 1])
      case None => before
      case Some(c) => if Allowed(c, e) then MoreBodies(before, c, e) else before
  }

  function MoreBodies(bodies: seq<seq<Data>>, c: Conn, e: Event): seq<seq<Data>>
    requires Allowed(c, e)
  {
    match e
    case Request(_, _, _, _) => bodies + [[]]
    case WriteTo(k, d) => if k < |bodies| then bodies[k := bodies[k] + [d]] else bodies
    case EndOf(k, final) =>
      if k < |bodies| && !c.msgs[k].finished then bodies[k := C.WithLast(bodies[k], final)] else bodies
    case _ => bodies
  }

  /** Nobody writes to a response after its `end`, and what is written can be sent as chunks. */
  predicate Proper(c: Conn, e: Event) {
    match e
    case WriteTo(k, d) => k < |c.msgs| ==> !c.msgs[k].finished && C.Chunkable(d)
    case EndOf(_, final) => final.Some? ==> C.Chunkable(final.value)
    case _ => true
  }

  predicate AllProper(es: seq<Event>) {
    es == [] ||
    (AllProper(es[..|es| - 1]) && (After(es[..|es| - 1]).Some? ==> Proper(After(es[..|es| - 1]).value, es[|es| - 1])))
  }

  /** The first data that is not empty. */
  function First(body: seq<Data>): Option<Data> {
    if body == [] then None else if Length(body[0]) > 0 then Some(body[0]) else First(body[1..])
  }

  /** What is kept of the data: a response to a HEAD request has no body. */
  function Kept(m: Message, body: seq<Data>): seq<Data> {
    if m.hasBody then body else []
  }

  /** The header is in ASCII if a buffer comes first, and otherwise sent as one text with what does. */
  function HeadOf(m: Message, body: seq<Data>): seq<Byte> {
    if !m.chunked && First(Kept(m, body)).Some? && First(Kept(m, body)).value.Buf? then Narrow(m.header)
    else Encode(m.header)
  }

  function BodyOf(m: Message, body: seq<Data>): seq<Byte> {
    if m.chunked then C.Chunks(Kept(m, body)) else AllBytes(Kept(m, body))
  }

  /** What a response that is not chunked has said before its end. */
  predicate Unchunked(m: Message, body: seq<Data>) {
    && (m.headerSent <==> First(body).Some?)
    && m.stream == (if m.headerSent then HeadOf(m, body) + AllBytes(body) else [])
    && (First(body) == None ==> AllBytes(body) == [])
  }

  predicate Begun(m: Message, body: seq<Data>) {
    if !m.hasBody then !m.headerSent && m.stream == []
    else if m.chunked then C.Framed(m, body)
    else Unchunked(m, body)
  }

  /** A response has said its header and its body, as it is or in chunks; and at the end the last
      chunk if it is chunked, whether or not it has a body. */
  predicate Said(m: Message, body: seq<Data>) {
    if m.finished then m.stream == HeadOf(m, body) + BodyOf(m, body) + Encode(LastPiece(m).text)
    else Begun(m, body)
  }

  predicate AllSaid(msgs: seq<Message>, bodies: seq<seq<Data>>) {
    |bodies| == |msgs| && forall k :: 0 <= k < |msgs| ==> Said(msgs[k], bodies[k])
  }

  // ---------------------------------------------------------------- what a call adds

  /** The parts that are fixed when the response is made. */
  predicate SameKind(m: Message, m': Message) {
    m'.header == m.header && m'.chunked == m.chunked && m'.hasBody == m.hasBody && m'.trailer == m.trailer
  }

  lemma SendSays(m: Message, s: Sock, d: Data)
    ensures var m' := Send(m, s, d).0;
      SameKind(m, m') && m'.headerSent && m'.finished == m.finished && m'.stream == m.stream + Sent(m, d)
  {
    if m.headerSent {
      RawSays(m.(stream := m.stream + BytesOf(d)), s, d);
    } else {
      FirstSays(m, s, d);
    }
  }

  lemma RawSays(m: Message, s: Sock, d: Data)
    ensures WriteRaw(m, s, d).0 == m.(output := WriteRaw(m, s, d).0.output)
  {}

  lemma FirstSays(m: Message, s: Sock, d: Data)
    requires !m.headerSent
    ensures var m' := Send(m, s, d).0;
      SameKind(m, m') && m'.headerSent && m'.finished == m.finished && m'.stream == m.stream + Sent(m, d)
  {
    match d
    case Str(text, enc) =>
      var d' := Str(m.header + text, enc);
      RawSays(m.(headerSent := true, stream := m.stream + BytesOf(d')), s, d');
    case Buf(b) =>
      var h := Str(m.header, Ascii);
      Assoc(m.stream, Narrow(m.header), b);
      RawSays(m.(headerSent := true, output := [h] + m.output, stream := m.stream + BytesOf(h) + b), s, d);
  }

  lemma {:induction false} SendAllSays(m: Message, s: Sock, ds: seq<Data>)
    ensures var m' := SendAll(m, s, ds).0;
      && SameKind(m, m') && (ds != [] ==> m'.headerSent) && m'.finished == m.finished
      && m'.stream == m.stream + SentAll(m, ds)
    decreases |ds|
  {
    if ds == [] {
      assert m.stream + [] == m.stream;
    } else {
      var (m1, s1) := Send(m, s, ds[0]);
      SendSays(m, s, ds[0]);
      SendAllSays(m1, s1, ds[1..]);
      SentLater(m1, ds[1..]);
      Assoc(m.stream, Sent(m, ds[0]), AllBytes(ds[1..]));
    }
  }

  lemma {:induction false} FirstSnoc(body: seq<Data>, d: Data)
    ensures First(body + [d]) == if First(body).Some? then First(body) else if Length(d) > 0 then Some(d) else None
  {
    if body == [] {
      assert [] + [d] == [d] && [d][1..] == [];
    } else {
      assert (body + [d])[1..] == body[1..] + [d];
      FirstSnoc(body[1..], d);
    }
  }

  lemma ChunkSays(m: Message, s: Sock, d: Data, body: seq<Data>)
    requires m.chunked && m.hasBody && C.Framed(m, body) && C.Chunkable(d) && Length(d) > 0
    ensures C.Framed(HttpOutgoing.Write(m, s, d).0, body + [d])
  {
    SendAllSays(m, s, Pieces(true, d));
    C.OneChunk(m, d);
    C.FramedMore(m, HttpOutgoing.Write(m, s, d).0, body, d);
  }

  lemma UnchunkedMore(m: Message, m': Message, body: seq<Data>, d: Data)
    requires !m.chunked && m.hasBody && Unchunked(m, body) && Plain(d) && Length(d) > 0
    requires SameKind(m, m') && m'.headerSent && m'.stream == m.stream + Sent(m, d)
    ensures Unchunked(m', body + [d])
  {
    AllBytesSnoc(body, d);
    FirstSnoc(body, d);
    if m.headerSent {
      Assoc(HeadOf(m, body), AllBytes(body), BytesOf(d));
    } else {
      assert [] + Sent(m, d) == Sent(m, d) && [] + BytesOf(d) == BytesOf(d);
      if d.Str? {
        EncodeAppend(m.header, d.text);
      }
    }
  }

  lemma PlainSays(m: Message, s: Sock, d: Data, body: seq<Data>)
    requires !m.chunked && m.hasBody && Unchunked(m, body) && Plain(d) && Length(d) > 0
    ensures Unchunked(HttpOutgoing.Write(m, s, d).0, body + [d])
  {
    SendAllSays(m, s, [d]);
    assert [d][1..] == [];
    assert Sent(m, d) + [] == Sent(m, d);
    UnchunkedMore(m, HttpOutgoing.Write(m, s, d).0, body, d);
  }

  lemma NothingSays(m: Message, body: seq<Data>, d: Data)
    requires m.hasBody && Begun(m, body) && Length(d) == 0
    ensures Begun(m, body + [d])
  {
    if m.chunked {
      C.FramedSame(m, body, d);
    } else {
      FirstSnoc(body, d);
      AllBytesSnoc(body, d);
      EmptyData(d);
      assert AllBytes(body) + [] == AllBytes(body);
    }
  }

  lemma KindWrite(m: Message, s: Sock, d: Data)
    ensures SameKind(m, HttpOutgoing.Write(m, s, d).0) && HttpOutgoing.Write(m, s, d).0.finished == m.finished
  {
    SendAllSays(m, s, Pieces(m.chunked, d));
  }

  lemma WriteSaid(m: Message, s: Sock, d: Data, body: seq<Data>)
    requires Said(m, body) && !m.finished && Accepted(m.chunked, d) && C.Chunkable(d)
    ensures Said(HttpOutgoing.Write(m, s, d).0, body + [d])
  {
    KindWrite(m, s, d);
    if !m.hasBody {
    } else if Length(d) == 0 {
      NothingSays(m, body, d);
    } else if m.chunked {
      ChunkSays(m, s, d, body);
    } else {
      PlainSays(m, s, d, body);
    }
  }

  lemma ThreeParts(header: seq<Byte>, body: seq<Byte>, last: seq<Byte>)
    ensures body == [] ==> [] + (header + last) == header + body + last
    ensures header + body + ([] + last) == header + body + last
  {}

  lemma LastSays(m: Message, s: Sock, body: seq<Data>)
    requires Begun(m, body)
    ensures var m' := Send(m, s, LastPiece(m)).0;
      && SameKind(m, m')
      && m'.stream == HeadOf(m, body) + BodyOf(m, body) + Encode(LastPiece(m).text)
  {
    var last := Encode(LastPiece(m).text);
    SendSays(m, s, LastPiece(m));
    C.FirstSent(m, LastPiece(m).text, Unspecified);
    ThreeParts(HeadOf(m, body), BodyOf(m, body), last);
  }

  lemma EndSaid(m: Message, s: Sock, final: Option<Data>, body: seq<Data>)
    requires Said(m, body) && !m.finished
    requires final.Some? ==> Accepted(m.chunked, final.value) && C.Chunkable(final.value)
    ensures Said(EndOutput(m, s, final).0, C.WithLast(body, final))
  {
    var (m1, s1) := match final case Some(d) => HttpOutgoing.Write(m, s, d) case None => (m, s);
    if final.Some? {
      KindWrite(m, s, final.value);
      WriteSaid(m, s, final.value, body);
    }
    LastSays(m1, s1, C.WithLast(body, final));
  }

  // ---------------------------------------------------------------- what moves the socket says nothing

  /** Only where the output goes changed. */
  predicate Silent(m: Message, m': Message) {
    m' == m.(attached := m'.attached, output := m'.output)
  }

  predicate AllSilent(a: seq<Message>, b: seq<Message>) {
    |a| == |b| && forall k :: 0 <= k < |a| ==> Silent(a[k], b[k])
  }

  lemma SilentTwice(a: seq<Message>, b: seq<Message>, c: seq<Message>)
    requires AllSilent(a, b) && AllSilent(b, c)
    ensures AllSilent(a, c)
  {
    forall k | 0 <= k < |a| ensures Silent(a[k], c[k]) {
      assert Silent(a[k], b[k]) && Silent(b[k], c[k]);
    }
  }

  lemma {:induction false} FinishSilent(c: Conn, k: nat)
    requires Sane(c) && k < |c.msgs|
    ensures OnFinish(c, k).Some? ==> AllSilent(c.msgs, OnFinish(c, k).value.msgs)
    decreases |c.outgoing|, 0
  {
    if OnFinish(c, k).Some? && k !in c.last && c.outgoing != [] {
      var c1 := Detached(c, k).(outgoing := c.outgoing[1..]);
      AssignSilent(c1, c.outgoing[0]);
      SilentTwice(c.msgs, c1.msgs, OnFinish(c, k).value.msgs);
    }
  }

  lemma {:induction false} AssignSilent(c: Conn, k: nat)
    requires Sane(c) && k < |c.msgs|
    ensures Assign(c, k).Some? ==> AllSilent(c.msgs, Assign(c, k).value.msgs)
    decreases |c.outgoing|, 1
  {
    var c1 := Attached(c, k);
    if Assign(c, k).Some? && c1.msgs[k].output == [] && c1.msgs[k].finished {
      FinishSilent(c1, k);
      SilentTwice(c.msgs, c1.msgs, Assign(c, k).value.msgs);
    }
  }

  lemma SilentSaid(a: seq<Message>, b: seq<Message>, bodies: seq<seq<Data>>)
    requires AllSilent(a, b) && AllSaid(a, bodies)
    ensures AllSaid(b, bodies)
  {
    forall k | 0 <= k < |b| ensures Said(b[k], bodies[k]) {
      assert Silent(a[k], b[k]) && Said(a[k], bodies[k]);
    }
  }

  // ---------------------------------------------------------------- every step

  lemma ListedSaid(c: Conn, m: Message, bodies: seq<seq<Data>>)
    requires AllSaid(c.msgs, bodies) && m == NewMessage(m.header, m.chunked, m.hasBody, m.trailer)
    ensures AllSaid(Listed(c, m).msgs, bodies + [[]])
  {}

  lemma RequestSaid(c: Conn, e: Event, bodies: seq<seq<Data>>)
    requires Sane(c) && Allowed(c, e) && e.Request? && AllSaid(c.msgs, bodies)
    ensures Step(c, e).Some? ==> AllSaid(Step(c, e).value.msgs, bodies + [[]])
  {
    var m := NewMessage(e.header, e.chunked, e.hasBody, e.trailer);
    ListedSaid(c, m, bodies);
    if c.current == None && Step(c, e).Some? {
      AssignSilent(Listed(c, m), |c.msgs|);
      SilentSaid(Listed(c, m).msgs, Step(c, e).value.msgs, bodies + [[]]);
    }
  }

  lemma OneSaid(msgs: seq<Message>, bodies: seq<seq<Data>>, k: nat, m: Message, body: seq<Data>)
    requires AllSaid(msgs, bodies) && k < |msgs| && Said(m, body)
    ensures AllSaid(msgs[k := m], bodies[k := body])
  {}

  lemma EndStepSaid(c: Conn, k: nat, final: Option<Data>, bodies: seq<seq<Data>>)
    requires Sane(c) && k < |c.msgs| && AllSaid(c.msgs, bodies) && !c.msgs[k].finished
    requires final.Some? ==> Accepted(c.msgs[k].chunked, final.value) && C.Chunkable(final.value)
    ensures OnEndOf(c, k, final).Some? ==>
      AllSaid(OnEndOf(c, k, final).value.msgs, bodies[k := C.WithLast(bodies[k], final)])
  {
    var after, more := Ended(c, k, final), bodies[k := C.WithLast(bodies[k], final)];
    EndSaid(c.msgs[k], c.sock, final, bodies[k]);
    OneSaid(c.msgs, bodies, k, EndOutput(c.msgs[k], c.sock, final).0, C.WithLast(bodies[k], final));
    if after.msgs[k].output == [] && OnEndOf(c, k, final).Some? {
      FinishSilent(after, k);
      SilentSaid(after.msgs, OnEndOf(c, k, final).value.msgs, more);
    }
  }

  lemma StepSaid(c: Conn, e: Event, bodies: seq<seq<Data>>)
    requires Sane(c) && Allowed(c, e) && Proper(c, e) && AllSaid(c.msgs, bodies)
    ensures Step(c, e).Some? ==> AllSaid(Step(c, e).value.msgs, MoreBodies(bodies, c, e))
  {
    match e {
      case Request(_, _, _, _) => RequestSaid(c, e, bodies);
      case WriteTo(k, d) =>
        WriteSaid(c.msgs[k], c.sock, d, bodies[k]);
        OneSaid(c.msgs, bodies, k, HttpOutgoing.Write(c.msgs[k], c.sock, d).0, bodies[k] + [d]);
      case EndOf(k, final) =>
        if !c.msgs[k].finished {
          EndStepSaid(c, k, final, bodies);
        }
      case _ =>
    }
  }

  lemma {:induction false} RunSaid(es: seq<Event>)
    requires After(es).Some? && AllProper(es)
    ensures AllSaid(After(es).value.msgs, Bodies(es))
  {
    if es != [] {
      var c, e := After(es[..|es| - 1]).value, es[|es| - 1];
      RunSaid(es[..|es| - 1]);
      if Allowed(c, e) {
        StepSaid(c, e, Bodies(es[..|es| - 1]));
      }
    }
  }

  // ---------------------------------------------------------------- the client

  /** A body and its trailer, as they were read. */
  datatype Answer = Answer(body: seq<Byte>, trailer: seq<seq<Byte>>)

  /** What a client knows of a response: its header, and the length of its body unless it is chunked. */
  datatype Heading = Heading(bytes: seq<Byte>, length: Option<nat>)

  function ReadBody(length: Option<nat>, bytes: seq<Byte>): Option<C.Decoded> {
    match length
    case None => C.DecodeBody(bytes)
    case Some(n) => if |bytes| < n then None else Some(C.Decoded(bytes[..n], [], bytes[n..]))
  }

  /** Reads one response after the other; what is behind them is left. */
  function ReadAnswers(headings: seq<Heading>, bytes: seq<Byte>): Option<(seq<Answer>, seq<Byte>)> {
    if headings == [] then Some(([], bytes))
    else if !(headings[0].bytes <= bytes) then None
    else
      match ReadBody(headings[0].length, bytes[|headings[0].bytes|..])
      case None => None
      case Some(x) =>
        match ReadAnswers(headings[1..], x.rest)
        case None => None
        case Some((answers, rest)) => Some(([Answer(x.body, x.trailer)] + answers, rest))
  }

  function HeadingOf(m: Message, body: seq<Data>): Heading {
    Heading(HeadOf(m, body), if m.chunked then None else Some(|BodyOf(m, body)|))
  }

  function Headings(msgs: seq<Message>, bodies: seq<seq<Data>>): seq<Heading>
    requires |bodies| == |msgs|
  {
    if msgs == [] then [] else [HeadingOf(msgs[0], bodies[0])] + Headings(msgs[1..], bodies[1..])
  }

  /** What the handlers meant. */
  function Answers(msgs: seq<Message>, bodies: seq<seq<Data>>, trailers: seq<seq<Text>>): seq<Answer>
    requires |trailers| == |bodies| == |msgs|
  {
    if msgs == [] then []
    else
      [Answer(AllBytes(Kept(msgs[0], bodies[0])), C.EncodedLines(trailers[0]))]
      + Answers(msgs[1..], bodies[1..], trailers[1..])
  }

  /** A response that was ended: chunked, with a body and these lines as its trailer, or not chunked. */
  predicate Whole(m: Message, lines: seq<Text>) {
    && m.finished
    && (m.chunked ==> m.hasBody && C.TrailerLines(lines) && m.trailer == C.TrailerText(lines))
    && (!m.chunked ==> lines == [])
  }

  lemma Behind(stream: seq<Byte>, a: seq<Byte>, b: seq<Byte>, c: seq<Byte>, rest: seq<Byte>)
    requires stream == a + b + c
    ensures a <= stream + rest && (stream + rest)[|a|..] == b + c + rest
  {}

  lemma WholeStream(m: Message, body: seq<Data>, lines: seq<Text>, rest: seq<Byte>)
    requires Said(m, body) && Whole(m, lines)
    ensures var h := HeadingOf(m, body);
      && h.bytes <= m.stream + rest
      && ReadBody(h.length, (m.stream + rest)[|h.bytes|..])
      == Some(C.Decoded(AllBytes(Kept(m, body)), C.EncodedLines(lines), rest))
  {
    Behind(m.stream, HeadOf(m, body), BodyOf(m, body), Encode(LastPiece(m).text), rest);
    if m.chunked {
      C.DecodeChunks(body, lines, rest);
    } else {
      var bytes := BodyOf(m, body);
      assert bytes + [] + rest == bytes + rest;
      assert (bytes + rest)[..|bytes|] == bytes && (bytes + rest)[|bytes|..] == rest;
    }
  }

  lemma FirstStream(msgs: seq<Message>, rest: seq<Byte>)
    requires msgs != []
    ensures Flatten(Streams(msgs)) + rest == msgs[0].stream + (Flatten(Streams(msgs[1..])) + rest)
  {
    assert Streams(msgs)[1..] == Streams(msgs[1..]);
    Assoc(msgs[0].stream, Flatten(Streams(msgs[1..])), rest);
  }

  lemma {:induction false} WholeStreams(msgs: seq<Message>, bodies: seq<seq<Data>>, trailers: seq<seq<Text>>,
                                        rest: seq<Byte>)
    requires AllSaid(msgs, bodies) && |trailers| == |msgs|
    requires forall k :: 0 <= k < |msgs| ==> Whole(msgs[k], trailers[k])
    ensures ReadAnswers(Headings(msgs, bodies), Flatten(Streams(msgs)) + rest)
         == Some((Answers(msgs, bodies, trailers), rest))
  {
    if msgs == [] {
      assert [] + rest == rest;
    } else {
      var more := Flatten(Streams(msgs[1..])) + rest;
      FirstStream(msgs, rest);
      WholeStream(msgs[0], bodies[0], trailers[0], more);
      WholeStreams(msgs[1..], bodies[1..], trailers[1..], rest);
    }
  }

  /**
   For every interleaving of the handlers, as long as the socket is open: a client that reads
   the responses that are done, one after the other, gets exactly the bodies written to them
   and their trailers, in the order of the requests; and behind them comes what the
   response in turn has said so far.
   */
  lemma ClientReads(es: seq<Event>, trailers: seq<seq<Text>>)
    requires After(es).Some? && After(es).value.sock.status == Open && AllProper(es)
    requires var c := After(es).value;
      |trailers| == c.done && forall k :: 0 <= k < c.done ==> Whole(c.msgs[k], trailers[k])
    ensures var c := After(es).value;
      && c.done <= |Bodies(es)| == |c.msgs|
      && var done, bodies := c.msgs[..c.done], Bodies(es)[..c.done];
      ReadAnswers(Headings(done, bodies), c.sock.bytes)
      == Some((Answers(done, bodies, trailers), if c.done < |c.msgs| then c.msgs[c.done].stream else []))
  {
    var c := After(es).value;
    var rest := if c.done < |c.msgs| then c.msgs[c.done].stream else [];
    RunSaid(es);
    Pipelined(es);
    assert Streams(c.msgs)[..c.done] == Streams(c.msgs[..c.done]);
    WholeStreams(c.msgs[..c.done], Bodies(es)[..c.done], trailers, rest);
  }
}
