/**
 The debugger protocol's parser does not depend on chunking as long as no body ends in front of the
 text, and delivers what `serialize` wrote.
 */
module DebuggerChunks {
  import opened Prelude
  import opened Utf8
  import opened Debugger
  import opened DebuggerEnds
  import Recursion

  lemma AtAppend(s: Text, d: Text, pattern: Text, i: nat)
    requires i + |pattern| <= |s|
    ensures At(s + d, pattern, i) == At(s, pattern, i)
  {
    assert (s + d)[i..i + |pattern|] == s[i..i + |pattern|];
  }

  lemma {:induction false} IndexAppend(s: Text, d: Text, pattern: Text, from: nat)
    requires IndexOf(s, pattern, from) >= 0
    ensures IndexOf(s + d, pattern, from) == IndexOf(s, pattern, from)
    decreases |s| - from
  {
    AtAppend(s, d, pattern, from);
    if !At(s, pattern, from) {
      IndexAppend(s, d, pattern, from + 1);
    }
  }

  lemma TakeHeaderAppend(p: Protocol, d: Text)
    requires EndOfHeader(p) >= 0
    ensures EndOfHeader(Append(p, d)) == EndOfHeader(p)
    ensures TakeHeader(Append(p, d)) == Append(TakeHeader(p), d)
  {
    IndexAppend(p.raw, d, END_OF_HEADER, 0);
    var i := EndOfHeader(p);
    assert (p.raw + d)[..i] == p.raw[..i];
  }

  /** Decoding the bytes of a text from any place on, with more text behind them. */
  lemma DecodeSuffix(s: Text, cut: nat, d: Text)
    requires cut <= |Encode(s)|
    ensures Decode(Encode(s)[cut..] + Encode(d)) == Decode(Encode(s)[cut..]) + d
  {
    var tail := SuffixParts(s, cut);
    var later := Later(s, cut);
    EncodeAppend(later, d);
    Assoc(tail, Encode(later), Encode(d));
    DecodeContinuation(tail, Encode(later));
    DecodeContinuation(tail, Encode(later + d));
    RoundTrip(later);
    RoundTrip(later + d);
    Assoc(Marks(|tail|), later, d);
  }

  lemma ArrivedAppend(p: Protocol, d: Text)
    requires BodyArrived(p)
    ensures BodyArrived(Append(p, d)) && Encode(Append(p, d).raw) == Encode(p.raw) + Encode(d)
    ensures BodyEnd(p) >= 0 ==> Cut(p) == BodyEnd(p) == Cut(Append(p, d))
  {
    EncodeAppend(p.raw, d);
  }

  lemma SliceAppend(bytes: seq<Byte>, more: seq<Byte>, start: nat, end: nat)
    requires end <= |bytes| && (start <= |bytes|)
    ensures Slice(bytes + more, start, end) == Slice(bytes, start, end)
    ensures (bytes + more)[end..] == bytes[end..] + more
  {}

  /** The body and what follows it, given as texts. */
  lemma TakesBody(q: Protocol, bytes: seq<Byte>, body: Text, rest: Text)
    requires BodyArrived(q) && Encode(q.raw) == bytes
    requires body == Decode(Slice(bytes, q.bodyStart, BodyEnd(q))) && rest == Decode(bytes[Cut(q)..])
    ensures TakeBody(q) == Waiting(rest, q.responses + [body])
  {}

  /** A body that does not end in front of the text is the same if more text has arrived. */
  lemma TakeBodyAppend(p: Protocol, d: Text)
    requires BodyArrived(p) && BodyEnd(p) >= 0 && p.bodyStart <= |Encode(p.raw)|
    ensures BodyArrived(Append(p, d)) && TakeBody(Append(p, d)) == Append(TakeBody(p), d)
  {
    var bytes, more, end := Encode(p.raw), Encode(d), BodyEnd(p);
    ArrivedAppend(p, d);
    SliceAppend(bytes, more, p.bodyStart, end);
    DecodeSuffix(p.raw, end, d);
    TakesBody(Append(p, d), bytes + more, Decode(Slice(bytes, p.bodyStart, end)), Decode(bytes[end..]) + d);
  }

  lemma PlacedStart(p: Protocol)
    requires Formed(p) && p.mode == Body
    ensures p.bodyStart <= |Encode(p.raw)|
  {
    var k := EndOfHeader(p) + 4;
    BodyStartOf(p);
    assert p.raw == p.raw[..k] + p.raw[k..];
    EncodeAppend(p.raw[..k], p.raw[k..]);
  }

  lemma AppendFormed(p: Protocol, d: Text)
    requires Formed(p)
    ensures Formed(Append(p, d))
  {
    if p.mode == Body {
      TakeHeaderAppend(p, d);
    }
  }

  /** A step may be taken before or after more text arrives. */
  lemma AdvanceAppend(p: Protocol, d: Text)
    requires Formed(p) && !Resting(p) && (p.mode == Body ==> BodyEnd(p) >= 0)
    ensures !Resting(Append(p, d)) && Advance(Append(p, d)) == Append(Advance(p), d)
  {
    if p.mode == Headers {
      TakeHeaderAppend(p, d);
    } else {
      PlacedStart(p);
      TakeBodyAppend(p, d);
    }
  }

  lemma StillGoing(p: Protocol, d: Text)
    requires Formed(p) && !Resting(p)
    ensures !Resting(Append(p, d)) && (p.mode == Body ==> BodyEnd(Append(p, d)) == BodyEnd(p))
  {
    if p.mode == Headers {
      TakeHeaderAppend(p, d);
    } else {
      ArrivedAppend(p, d);
    }
  }

  lemma StepMore(p: Protocol, d: Text)
    requires Formed(p) && Next(p).Some?
    ensures Next(Append(p, d)).Some?
    ensures EndsInside(Append(p, d)) ==>
      Formed(Next(p).value) && Next(Append(p, d)) == Some(Append(Next(p).value, d))
  {
    StillGoing(p, d);
    if EndsInside(Append(p, d)) {
      AdvanceAppend(p, d);
      AdvanceFormed(p);
    }
  }

  /** Text may be processed before or after more of it arrives; and if it takes for ever, it does in
      both cases. */
  lemma SettleAppend(p: Protocol, d: Text)
    requires Formed(p) && Forward(Append(p, d))
    ensures Settle(Append(p, d)) == match Settle(p) case None => None case Some(q) => Execute(q, d)
    ensures Settle(p).Some? ==>
      var q := Settle(p).value; Formed(q) && Resting(q) && Forward(Append(q, d))
  {
    var more := (x: Protocol) => Append(x, d);
    forall x | Formed(x) && Next(x).Some?
      ensures Next(more(x)).Some?
      ensures EndsInside(more(x)) ==> Formed(Next(x).value) && Next(more(x)) == Some(more(Next(x).value))
    {
      StepMore(x, d);
    }
    Recursion.SettleMore(Next, EndsInside, Formed, more, p);
  }

  /** The parser after a list of chunks; None once the recursion does not end. */
  ghost function ExecuteAll(p: Protocol, chunks: seq<Text>): Option<Protocol>
    decreases |chunks|
  {
    if chunks == [] then Some(p)
    else
      match Execute(p, chunks[0])
      case None => None
      case Some(q) => ExecuteAll(q, chunks[1..])
  }

  /** For any input, well formed or not, in which no body ends in front of the text: the chunks only
      matter by what they are together, also for whether the recursion ends. */
  lemma {:induction false} AnyChunking(p: Protocol, chunks: seq<Text>)
    requires Formed(p) && Resting(p) && Forward(Append(p, Flatten(chunks)))
    ensures ExecuteAll(p, chunks) == Execute(p, Flatten(chunks))
    decreases |chunks|
  {
    if chunks == [] {
      assert p.raw + [] == p.raw;
      Recursion.SettleStep(Next, p);
    } else {
      var later := Flatten(chunks[1..]);
      var q := Append(p, chunks[0]);
      AppendFormed(p, chunks[0]);
      Assoc(p.raw, chunks[0], later);
      assert Append(q, later) == Append(p, Flatten(chunks));
      SettleAppend(q, later);
      if Settle(q).Some? {
        AnyChunking(Settle(q).value, chunks[1..]);
      }
    }
  }

  // ---------------------------------------------------------------- serialized messages

  /** The decimal digits of a number. */
  function Decimal(n: nat): (s: Text)
    ensures s != [] && forall i :: 0 <= i < |s| ==> IsDigit(s[i])
  {
    if n < 10 then [ZERO + n] else Decimal(n / 10) + [ZERO + n % 10]
  }

  lemma {:induction false} DecimalValue(n: nat)
    ensures Value(Decimal(n)) == n
  {
    var s := Decimal(n);
    if n >= 10 {
      DecimalValue(n / 10);
      assert s[..|s| - 1] == Decimal(n / 10);
    } else {
      assert s[..0] == [];
      assert Value(s) == 10 * Value(s[..|s| - 1]) + Digit(s[|s| - 1]);
    }
  }

  function HeaderFor(json: Text): Text {
    CONTENT_LENGTH + ([COLON, SPACE] + Decimal(|Encode(json)|))
  }

  /** `serialize`, given the JSON text. */
  function Serialized(json: Text): Text {
    HeaderFor(json) + (END_OF_HEADER + json)
  }

  function Stream(jsons: seq<Text>): Text {
    if jsons == [] then [] else Serialized(jsons[0]) + Stream(jsons[1..])
  }

  lemma AtHead(s: Text, pattern: Text, i: nat)
    requires pattern != []
    ensures At(s, pattern, i) ==> s[i] == pattern[0]
  {
    if At(s, pattern, i) {
      assert s[i..i + |pattern|][0] == s[i];
    }
  }

  /** The first place of a pattern whose first character is not in front of it. */
  lemma {:induction false} FirstAfter(before: Text, pattern: Text, rest: Text, from: nat)
    requires pattern != [] && from <= |before|
    requires forall i :: 0 <= i < |before| ==> before[i] != pattern[0]
    ensures IndexOf(before + (pattern + rest), pattern, from) == |before|
    decreases |before| - from
  {
    var s := before + (pattern + rest);
    if from < |before| {
      AtHead(s, pattern, from);
      FirstAfter(before, pattern, rest, from + 1);
    } else {
      assert s[from..from + |pattern|] == pattern;
    }
  }

  lemma {:induction false} Nowhere(s: Text, pattern: Text, from: nat)
    requires pattern != [] && forall i :: 0 <= i < |s| ==> s[i] != pattern[0]
    ensures IndexOf(s, pattern, from) == -1
    decreases |s| - from
  {
    if from + |pattern| <= |s| {
      AtHead(s, pattern, from);
      Nowhere(s, pattern, from + 1);
    }
  }

  lemma HeaderHasNoBreak(json: Text)
    ensures forall i :: 0 <= i < |HeaderFor(json)| ==> HeaderFor(json)[i] != CR
  {}

  /** The value of a line: no line end in it, no colon, and no space in front. */
  predicate LineValue(v: Text) {
    v != [] && v[0] != SPACE && forall i :: 0 <= i < |v| ==> v[i] != COLON && v[i] != CR
  }

  function LengthLine(v: Text): Text {
    CONTENT_LENGTH + ([COLON, SPACE] + v)
  }

  lemma SkipsSpace(h: Text, at: nat)
    requires at + 1 < |h| && h[at] == SPACE && h[at + 1] != SPACE
    ensures SkipSpaces(h, at) == at + 1
  {
    assert SkipSpaces(h, at + 1) == at + 1;
  }

  lemma KeyValueOf(v: Text)
    requires LineValue(v)
    ensures KeyValue(LengthLine(v)) == (CONTENT_LENGTH, Some(v))
  {
    var h := LengthLine(v);
    FirstAfter(CONTENT_LENGTH, [COLON, SPACE], v, 0);
    assert h[15] == SPACE && h[16] == v[0];
    SkipsSpace(h, 15);
    assert h[16..] == v && h[..14] == CONTENT_LENGTH;
    Nowhere(v, [COLON, SPACE], 0);
  }

  /** A header of that line alone. */
  lemma LengthOf(v: Text)
    requires LineValue(v)
    ensures ContentLength(LengthLine(v)) == Number(Some(v))
    ensures forall i :: 0 <= i < |LengthLine(v)| ==> LengthLine(v)[i] != CR
  {
    var h := LengthLine(v);
    Nowhere(h, CRLF, 0);
    assert SplitLines(h) == [h];
    KeyValueOf(v);
    var lines: seq<Text> := [h];
    assert lines[1..] == [];
    assert HeaderMap(lines, map[]) == map[CONTENT_LENGTH := Some(v)];
  }

  lemma ParsesLength(json: Text)
    ensures ContentLength(HeaderFor(json)) == Some(|Encode(json)|)
  {
    LengthOf(Decimal(|Encode(json)|));
    DecimalValue(|Encode(json)|);
  }

  /** A serialized message in front is delivered, and what follows is processed next. */
  lemma OneMessage(json: Text, rest: Text, responses: seq<Text>)
    ensures var p := Waiting(Serialized(json) + rest, responses); var q := Waiting(rest, responses + [json]);
      Settle(p) == Settle(q) && (Forward(q) ==> Forward(p))
  {
    var h := HeaderFor(json);
    var p := Waiting(Serialized(json) + rest, responses);
    Assoc(END_OF_HEADER, json, rest);
    Assoc(h, END_OF_HEADER + json, rest);
    assert p.raw == h + (END_OF_HEADER + (json + rest));
    HeaderHasNoBreak(json);
    FirstAfter(h, END_OF_HEADER, json + rest, 0);
    assert p.raw[..|h|] == h;
    ParsesLength(json);
    var q := TakeHeader(p);
    assert q == Protocol(p.raw, Body, Some(|Encode(json)|), |Encode(h)| + 4, responses);
    BodyOfMessage(json, rest, q);
    Recursion.SettleStep(Next, p);
    Recursion.SettleStep(Next, q);
    Recursion.AllStep(Next, EndsInside, p);
    Recursion.AllStep(Next, EndsInside, q);
  }

  lemma MessageBytes(h: Text, json: Text, rest: Text)
    ensures Encode(h + (END_OF_HEADER + (json + rest)))
         == Encode(h) + (Encode(END_OF_HEADER) + (Encode(json) + Encode(rest)))
  {
    EncodeAppend(h, END_OF_HEADER + (json + rest));
    EncodeAppend(END_OF_HEADER, json + rest);
    EncodeAppend(json, rest);
  }

  lemma PlainSlice(bytes: seq<Byte>, start: nat, end: nat)
    requires start <= end <= |bytes|
    ensures Slice(bytes, start, end) == bytes[start..end] && Clamp(end, |bytes|) == end
  {}

  lemma MessageSlices(h: Text, json: Text, rest: Text)
    ensures var bytes := Encode(h + (END_OF_HEADER + (json + rest)));
      var start := |Encode(h)| + 4; var end := start + |Encode(json)|;
      && end <= |bytes| && Slice(bytes, start, end) == Encode(json)
      && Clamp(end, |bytes|) == end && bytes[end..] == Encode(rest)
  {
    var start := |Encode(h)| + 4;
    MessageBytes(h, json, rest);
    EncodeTerminator();
    Pieces(Encode(h), Encode(END_OF_HEADER), Encode(json), Encode(rest));
    PlainSlice(Encode(h + (END_OF_HEADER + (json + rest))), start, start + |Encode(json)|);
  }

  lemma DecodesTo(bytes: seq<Byte>, s: Text)
    requires bytes == Encode(s)
    ensures Decode(bytes) == s
  {
    RoundTrip(s);
  }

  lemma BodyOfMessage(json: Text, rest: Text, q: Protocol)
    requires q.raw == HeaderFor(json) + (END_OF_HEADER + (json + rest)) && q.mode == Body
    requires q.contentLength == Some(|Encode(json)|) && q.bodyStart == |Encode(HeaderFor(json))| + 4
    ensures BodyArrived(q) && TakeBody(q) == Waiting(rest, q.responses + [json])
  {
    MessageSlices(HeaderFor(json), json, rest);
    BodyIs(q, Encode(q.raw), json, rest);
  }

  lemma BodyIs(q: Protocol, bytes: seq<Byte>, json: Text, rest: Text)
    requires BodyArrived(q) && bytes == Encode(q.raw)
    requires Slice(bytes, q.bodyStart, BodyEnd(q)) == Encode(json) && bytes[Cut(q)..] == Encode(rest)
    ensures TakeBody(q) == Waiting(rest, q.responses + [json])
  {
    DecodesTo(Slice(bytes, q.bodyStart, BodyEnd(q)), json);
    DecodesTo(bytes[Cut(q)..], rest);
    TakesBody(q, bytes, json, rest);
  }

  lemma Pieces(a: seq<Byte>, b: seq<Byte>, c: seq<Byte>, d: seq<Byte>)
    ensures var all := a + (b + (c + d)); var start := |a| + |b|;
      |all| >= start + |c| && all[start..start + |c|] == c && all[start + |c|..] == d
  {}

  lemma NothingLeft(responses: seq<Text>)
    ensures Resting(Waiting([], responses))
  {
    Nowhere([], END_OF_HEADER, 0);
  }

  lemma RestingForward(p: Protocol)
    requires Resting(p)
    ensures Forward(p) && Settle(p) == Some(p)
  {
    Recursion.SettleStep(Next, p);
  }

  lemma FirstMoved(a: seq<Text>, b: seq<Text>)
    requires b != []
    ensures a + [b[0]] + b[1..] == a + b
  {}

  lemma {:induction false} AllMessages(jsons: seq<Text>, responses: seq<Text>)
    ensures var p := Waiting(Stream(jsons), responses);
      Settle(p) == Some(Waiting([], responses + jsons)) && Forward(p)
    decreases |jsons|
  {
    if jsons == [] {
      NothingLeft(responses);
      RestingForward(Waiting([], responses));
      assert responses + jsons == responses;
    } else {
      var first, later := jsons[0], jsons[1..];
      OneMessage(first, Stream(later), responses);
      AllMessages(later, responses + [first]);
      FirstMoved(responses, jsons);
    }
  }

  /** For every list of messages and every way of cutting what `serialize` wrote for them
      into chunks, `onResponse` is called with exactly their bodies, in order, and the parser
      is left as new. */
  lemma Delivery(jsons: seq<Text>, chunks: seq<Text>)
    requires Flatten(chunks) == Stream(jsons)
    ensures ExecuteAll(INITIAL, chunks) == Some(Waiting([], jsons))
  {
    NothingLeft([]);
    assert INITIAL == Waiting([], []);
    assert [] + Stream(jsons) == Stream(jsons) && [] + jsons == jsons;
    AllMessages(jsons, []);
    AnyChunking(INITIAL, chunks);
  }
}
