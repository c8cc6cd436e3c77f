/**
 `Protocol` of lib/_debugger.js: parses the messages of V8's debugger protocol out of text
 that arrives in chunks. A message is a header with a `Content-Length`, counted in UTF-8
 bytes, an empty line, and a JSON body, which is represented by its text.
 */
module Debugger {
  import opened Prelude
  import opened Utf8
  import Recursion

  type Text = seq<Scalar>

  const CR: Scalar := 13
  const LF: Scalar := 10
  const COLON: Scalar := 58
  const SPACE: Scalar := 32
  const ZERO: Scalar := 48
  const PLUS: Scalar := 43
  const MINUS: Scalar := 45

  const CRLF: Text := [CR, LF]
  const END_OF_HEADER: Text := [CR, LF, CR, LF]

  /** "Content-Length" */
  const CONTENT_LENGTH: Text := [67, 111, 110, 116, 101, 110, 116, 45, 76, 101, 110, 103, 116, 104]

  datatype Mode = Headers | Body

  /** `contentLength` is `None` for NaN. `responses` are the bodies passed to `onResponse`. */
  datatype Protocol = Protocol(raw: Text, mode: Mode, contentLength: Option<int>, bodyStart: nat, responses: seq<Text>)

  const INITIAL := Protocol([], Headers, None, 0, [])

  // ---------------------------------------------------------------- text

  predicate At(s: Text, pattern: Text, i: nat) {
    i + |pattern| <= |s| && s[i..i + |pattern|] == pattern
  }

  /** `s.indexOf(pattern, from)` */
  function IndexOf(s: Text, pattern: Text, from: nat): (r: int)
    ensures r == -1 || (from <= r && At(s, pattern, r))
    decreases |s| - from
  {
    if from + |pattern| > |s| then -1
    else if At(s, pattern, from) then from
    else IndexOf(s, pattern, from + 1)
  }

  /** `s.split('\r\n')` */
  function SplitLines(s: Text): (lines: seq<Text>)
    ensures lines != []
    decreases |s|
  {
    var i := IndexOf(s, CRLF, 0);
    if i < 0 then [s] else [s[..i]] + SplitLines(s[i + 2..])
  }

  function SkipSpaces(s: Text, from: nat): (r: nat)
    requires from <= |s|
    ensures from <= r <= |s|
    decreases |s| - from
  {
    if from < |s| && s[from] == SPACE then SkipSpaces(s, from + 1) else from
  }

  /** The first two parts of `line.split(/: +/)`, if there are two. */
  function KeyValue(line: Text): (Text, Option<Text>) {
    var i := IndexOf(line, [COLON, SPACE], 0);
    if i < 0 then (line, None)
    else
      var rest := line[SkipSpaces(line, i + 1)..];
      var k := IndexOf(rest, [COLON, SPACE], 0);
      (line[..i], Some(if k < 0 then rest else rest[..k]))
  }

  function HeaderMap(lines: seq<Text>, headers: map<Text, Option<Text>>): map<Text, Option<Text>>
    decreases |lines|
  {
    if lines == [] then headers
    else
      var (key, value) := KeyValue(lines[0]);
      HeaderMap(lines[1..], headers[key := value])
  }

  predicate IsDigit(c: Scalar) {
    ZERO <= c <= ZERO + 9
  }

  function Digit(c: Scalar): nat
    requires IsDigit(c)
  {
    c - ZERO
  }

  function Value(s: Text): nat
    requires forall i :: 0 <= i < |s| ==> IsDigit(s[i])
  {
    if s == [] then 0 else 10 * Value(s[..|s| - 1]) + Digit(s[|s| - 1])
  }

  function Decimals(s: Text): Option<int> {
    if s != [] && forall i :: 0 <= i < |s| ==> IsDigit(s[i]) then Some(Value(s)) else None
  }

  /** `+value`: a sign and decimal digits, or nothing, which is 0. Anything else counts as NaN. */
  function Number(value: Option<Text>): Option<int> {
    match value
    case None => None
    case Some(s) =>
      if s == [] then Some(0)
      else if s[0] == MINUS then (match Decimals(s[1..]) case None => None case Some(n) => Some(-n))
      else if s[0] == PLUS then Decimals(s[1..])
      else Decimals(s)
  }

  function ContentLength(header: Text): Option<int> {
    var headers := HeaderMap(SplitLines(header), map[]);
    if CONTENT_LENGTH in headers then Number(headers[CONTENT_LENGTH]) else None
  }

  // ---------------------------------------------------------------- the steps

  function EndOfHeader(p: Protocol): int {
    IndexOf(p.raw, END_OF_HEADER, 0)
  }

  /** The header has arrived: what `execute` sets before it looks at the body. */
  function TakeHeader(p: Protocol): Protocol
    requires EndOfHeader(p) >= 0
  {
    var header := p.raw[..EndOfHeader(p)];
    p.(mode := Body, contentLength := ContentLength(header), bodyStart := |Encode(header)| + 4)
  }

  /** Where the body ends, as an index into the bytes. A negative one counts from their end. */
  function BodyEnd(p: Protocol): int
    requires p.contentLength.Some?
  {
    p.bodyStart + p.contentLength.value
  }

  predicate BodyArrived(p: Protocol) {
    p.contentLength.Some? && BodyEnd(p) <= |Encode(p.raw)|
  }

  /** `clamp` of lib/buffer.js. `~~` cuts to 32 bits; no buffer is so long that this matters for an
      index that is not negative. */
  function Clamp(index: int, len: nat): (r: nat)
    ensures r <= len
  {
    var i := if index < -0x8000_0000 then (index + 0x8000_0000) % 0x1_0000_0000 - 0x8000_0000 else index;
    if i >= len then len
    else if i >= 0 then i
    else if i + len >= 0 then i + len
    else 0
  }

  /** A parser waiting for a header. */
  function Waiting(raw: Text, responses: seq<Text>): Protocol {
    Protocol(raw, Headers, None, 0, responses)
  }

  /** `buf.slice(start, end)`, which is empty if the end is in front of the start. */
  function Slice(bytes: seq<Byte>, start: int, end: int): seq<Byte> {
    var a, b := Clamp(start, |bytes|), Clamp(end, |bytes|);
    if a <= b then bytes[a..b] else []
  }

  /** Where what follows the body begins. */
  function Cut(p: Protocol): (r: nat)
    requires p.contentLength.Some?
    ensures r <= |Encode(p.raw)|
  {
    Clamp(BodyEnd(p), |Encode(p.raw)|)
  }

  /** The body has arrived: `onResponse`, and `_newRes` with what follows it. */
  function TakeBody(p: Protocol): Protocol
    requires BodyArrived(p)
  {
    var bytes := Encode(p.raw);
    Waiting(Decode(bytes[Cut(p)..]), p.responses + [Decode(Slice(bytes, p.bodyStart, BodyEnd(p)))])
  }

  /** `execute` has nothing to do until more text arrives. */
  predicate Resting(p: Protocol) {
    match p.mode
    case Headers => EndOfHeader(p) < 0
    case Body => !BodyArrived(p)
  }

  function Advance(p: Protocol): Protocol
    requires !Resting(p)
  {
    match p.mode
    case Headers => TakeHeader(p)
    case Body => TakeBody(p)
  }

  function Next(p: Protocol): Option<Protocol> {
    if Resting(p) then None else Some(Advance(p))
  }

  /** Everything `execute` does after the chunk has been appended, `_newRes` included, if that is at
      most n steps. */
  function Rounds(p: Protocol, n: nat): Option<Protocol> {
    Recursion.Rounds(Next, p, n)
  }

  ghost predicate Ends(p: Protocol) {
    Recursion.Ends(Next, p)
  }

  /** The same without a bound: None if the recursion never ends. */
  ghost function Settle(p: Protocol): Option<Protocol> {
    Recursion.Settle(Next, p)
  }

  function Append(p: Protocol, d: Text): (r: Protocol) {
    p.(raw := p.raw + d)
  }

  ghost function Execute(p: Protocol, d: Text): Option<Protocol> {
    Settle(Append(p, d))
  }

  /** What is known of the header is what is in the text. */
  predicate Formed(p: Protocol) {
    p.mode == Body ==> EndOfHeader(p) >= 0 && p == TakeHeader(p)
  }

  lemma AdvanceFormed(p: Protocol)
    requires Formed(p) && !Resting(p)
    ensures Formed(Advance(p))
  {}

  lemma EncodeTerminator()
    ensures |Encode(END_OF_HEADER)| == 4
  {
    assert END_OF_HEADER[1..] == [LF, CR, LF] && [LF, CR, LF][1..] == [CR, LF] && [CR, LF][1..] == [LF];
    assert Encode([LF]) == EncodeChar(LF);
    assert Encode([CR, LF]) == EncodeChar(CR) + EncodeChar(LF);
    assert Encode([LF, CR, LF]) == EncodeChar(LF) + (EncodeChar(CR) + EncodeChar(LF));
  }

  function Marks(n: nat): Text {
    seq(n, i => REPLACEMENT)
  }

  /** Bytes that start no character. */
  lemma {:induction false} DecodeContinuation(tail: seq<Byte>, rest: seq<Byte>)
    requires forall i :: 0 <= i < |tail| ==> Need(tail[i]) == 0
    ensures Decode(tail + rest) == Marks(|tail|) + Decode(rest)
  {
    if tail == [] {
      assert tail + rest == rest;
    } else {
      assert (tail + rest)[1..] == tail[1..] + rest;
      DecodeContinuation(tail[1..], rest);
      Assoc([REPLACEMENT], Marks(|tail| - 1), Decode(rest));
      assert Marks(|tail|) == [REPLACEMENT] + Marks(|tail| - 1);
    }
  }

  lemma DropPrefix(bytes: seq<Byte>, whole: nat, cut: nat, c: seq<Byte>, rest: seq<Byte>)
    requires whole <= cut <= |bytes| && bytes[whole..] == c + rest && cut - whole <= |c|
    ensures bytes[cut..] == c[cut - whole..] + rest
  {
    assert bytes[cut..] == bytes[whole..][cut - whole..];
  }

  /** How many bytes of a character are behind a place inside it; 0 between two characters. */
  function Torn(s: Text, cut: nat): (t: nat)
    requires cut <= |Encode(s)|
    ensures t < 4 && (t > 0 ==> CharsBefore(s, cut) < |s|)
  {
    CutAt(s, cut);
    var k := CharsBefore(s, cut);
    var whole := |Encode(s[..k])|;
    if cut == whole then 0 else whole + Size(s[k]) - cut
  }

  /** The characters behind a place, and behind the one it tears. */
  function Later(s: Text, cut: nat): Text
    requires cut <= |Encode(s)|
  {
    var k := CharsBefore(s, cut);
    if Torn(s, cut) > 0 then s[k + 1..] else s[k..]
  }

  lemma TailBytes(c: Scalar, from: nat)
    requires 0 < from <= Size(c)
    ensures var tail := EncodeChar(c)[from..]; forall i :: 0 <= i < |tail| ==> Need(tail[i]) == 0
  {
    CharHead(c);
  }

  lemma CharFirst(s: Text, k: nat)
    requires k < |s|
    ensures Encode(s[k..]) == EncodeChar(s[k]) + Encode(s[k + 1..])
  {
    assert s[k..][1..] == s[k + 1..] && s[k..][0] == s[k];
  }

  /** The bytes behind a place inside a character. */
  lemma TornTail(s: Text, cut: nat) returns (tail: seq<Byte>)
    requires cut <= |Encode(s)| && Torn(s, cut) > 0
    ensures Encode(s)[cut..] == tail + Encode(s[CharsBefore(s, cut) + 1..]) && |tail| == Torn(s, cut)
    ensures forall i :: 0 <= i < |tail| ==> Need(tail[i]) == 0
  {
    var k := CharsBefore(s, cut);
    CutAt(s, cut);
    var whole := |Encode(s[..k])|;
    var c := EncodeChar(s[k]);
    CharFirst(s, k);
    TailBytes(s[k], cut - whole);
    tail := c[cut - whole..];
    DropPrefix(Encode(s), whole, cut, c, Encode(s[k + 1..]));
  }

  /** The bytes of a text from any place on: the rest of a torn character, then characters. */
  lemma SuffixParts(s: Text, cut: nat) returns (tail: seq<Byte>)
    requires cut <= |Encode(s)|
    ensures Encode(s)[cut..] == tail + Encode(Later(s, cut)) && |tail| == Torn(s, cut)
    ensures forall i :: 0 <= i < |tail| ==> Need(tail[i]) == 0
  {
    if Torn(s, cut) == 0 {
      tail := [];
      CutAt(s, cut);
      assert [] + Encode(Later(s, cut)) == Encode(Later(s, cut));
    } else {
      tail := TornTail(s, cut);
    }
  }

  /** A torn character leaves one mark for each byte. */
  lemma DecodedFrom(s: Text, cut: nat)
    requires cut <= |Encode(s)|
    ensures Decode(Encode(s)[cut..]) == Marks(Torn(s, cut)) + Later(s, cut)
  {
    var tail := SuffixParts(s, cut);
    DecodeContinuation(tail, Encode(Later(s, cut)));
    RoundTrip(Later(s, cut));
  }

  /** The source's object; `_newRes` calls `execute` again with what was left over. */
  class ProtocolParser {
    var raw: Text
    var mode: Mode
    var contentLength: Option<int>
    var bodyStart: nat
    var responses: seq<Text>

    ghost function Abs(): Protocol
      reads this
    {
      Protocol(raw, mode, contentLength, bodyStart, responses)
    }

    constructor ()
      ensures Abs() == INITIAL
    {
      raw, mode, contentLength, bodyStart, responses := [], Headers, None, 0, [];
    }

    /** The loop over the header's lines. */
    method ParseLines(lines: seq<Text>) returns (headers: map<Text, Option<Text>>)
      ensures headers == HeaderMap(lines, map[])
    {
      headers := map[];
      var i := 0;
      while i < |lines|
        invariant 0 <= i <= |lines|
        invariant HeaderMap(lines[i..], headers) == HeaderMap(lines, map[])
      {
        assert lines[i..][1..] == lines[i + 1..];
        var (key, value) := KeyValue(lines[i]);
        headers := headers[key := value];
        i := i + 1;
      }
    }

    method ParseLength(header: Text) returns (length: Option<int>)
      ensures length == ContentLength(header)
    {
      var headers := ParseLines(SplitLines(header));
      length := if CONTENT_LENGTH in headers then Number(headers[CONTENT_LENGTH]) else None;
    }

    method ParseHeader(end: nat)
      requires EndOfHeader(Abs()) == end
      modifies this
      ensures Abs() == TakeHeader(old(Abs()))
    {
      var header := raw[..end];
      contentLength := ParseLength(header);
      bodyStart := |Encode(header)| + 4;
      mode := Body;
    }

    /** `execute`, on a text for which its recursion ends, within n steps. */
    method ExecuteChunk(d: Text, ghost n: nat)
      requires Rounds(Append(Abs(), d), n).Some?
      modifies this
      ensures Rounds(Append(old(Abs()), d), n) == Some(Abs())
      decreases n, 2
    {
      raw := raw + d;
      ghost var left := n;
      if mode == Headers {
        var end := IndexOf(raw, END_OF_HEADER, 0);
        if end < 0 {
          return;
        }
        ParseHeader(end);
        left := n - 1;
      }
      LookAtBody(left);
    }

    /** The case 'body' of `execute`. */
    method LookAtBody(ghost n: nat)
      requires mode == Body && Rounds(Abs(), n).Some?
      modifies this
      ensures Rounds(old(Abs()), n) == Some(Abs())
      decreases n, 1
    {
      if contentLength.Some? && |Encode(raw)| - bodyStart >= contentLength.value {
        var bytes, end := Encode(raw), bodyStart + contentLength.value;
        responses := responses + [Decode(Slice(bytes, bodyStart, end))];
        NewRes(Decode(bytes[Clamp(end, |bytes|)..]), n - 1);
      }
    }

    /** `_newRes` */
    method NewRes(rest: Text, ghost n: nat)
      requires Rounds(Waiting(rest, responses), n).Some?
      modifies this
      ensures Rounds(Waiting(rest, old(responses)), n) == Some(Abs())
      decreases n, 3
    {
      raw, mode, contentLength, bodyStart := rest, Headers, None, 0;
      assert raw + [] == raw;
      ExecuteChunk([], n);
    }
  }
}
