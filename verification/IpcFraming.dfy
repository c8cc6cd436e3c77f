/**
 The reading side of the IPC channel (`channel.onread` of lib/child_process.js): bytes are
 decoded as UTF-8 and cut into lines, each of which is one JSON text.
 */
module IpcFraming {
  import opened Prelude
  import opened Utf8
  import opened StringDecoder

  const NEWLINE: Scalar := 10

  /** `s.indexOf(x, from)` */
  function IndexOf(s: Text, x: int, from: nat): (r: int)
    requires from <= |s|
    ensures r == -1 || from <= r < |s|
    ensures if r == -1 then forall k :: from <= k < |s| ==> s[k] != x
            else s[r] == x && forall k :: from <= k < r ==> s[k] != x
    decreases |s| - from
  {
    if from == |s| then -1 else if s[from] == x then from else IndexOf(s, x, from + 1)
  }

  /** The complete lines, without their ends, and what is left. */
  function Lines(s: Text): (seq<Text>, Text)
    decreases |s|
  {
    var i := IndexOf(s, NEWLINE, 0);
    if i < 0 then ([], s)
    else
      var (lines, rest) := Lines(s[i + 1..]);
      ([s[..i]] + lines, rest)
  }

  lemma {:induction false} IndexUnique(s: Text, x: int, from: nat, i: nat)
    requires from <= i < |s| && s[i] == x && forall k :: from <= k < i ==> s[k] != x
    ensures IndexOf(s, x, from) == i
    decreases i - from
  {
    if from < i {
      IndexUnique(s, x, from + 1, i);
    }
  }

  lemma {:induction false} IndexNone(s: Text, x: int, from: nat)
    requires from <= |s| && forall k :: from <= k < |s| ==> s[k] != x
    ensures IndexOf(s, x, from) == -1
    decreases |s| - from
  {
    if from < |s| {
      IndexNone(s, x, from + 1);
    }
  }

  lemma LinesOfLine(line: Text, rest: Text)
    requires NEWLINE !in line
    ensures Lines(line + [NEWLINE] + rest) == ([line] + Lines(rest).0, Lines(rest).1)
  {
    var s := line + [NEWLINE] + rest;
    IndexUnique(s, NEWLINE, 0, |line|);
    assert s[|line| + 1..] == rest && s[..|line|] == line;
  }

  /** The channel's reading state. */
  class Reader {
    const decoder: Decoder
    var jsonBuffer: Text

    ghost predicate Valid()
      reads this, decoder, decoder.charBuffer
    {
      decoder.Valid() && decoder.encoding == Utf8Text
    }

    constructor ()
      ensures Valid() && jsonBuffer == [] && decoder.Abs() == NOTHING
      ensures fresh(decoder) && fresh(decoder.charBuffer)
    {
      decoder := new Decoder(Utf8Text);
      jsonBuffer := [];
    }

    /** The loop over complete lines; `start` moves behind each of them. */
    method TakeLines() returns (lines: seq<Text>)
      modifies this`jsonBuffer
      ensures (lines, jsonBuffer) == Lines(old(jsonBuffer))
    {
      var buffer := jsonBuffer;
      lines := [];
      var start := 0;
      assert buffer[0..] == buffer && [] + Lines(buffer).0 == Lines(buffer).0;
      var i := IndexOf(buffer, NEWLINE, start);
      while i >= 0
        invariant 0 <= start <= |buffer| && i == IndexOf(buffer, NEWLINE, start)
        invariant Lines(buffer).0 == lines + Lines(buffer[start..]).0
        invariant Lines(buffer).1 == Lines(buffer[start..]).1
        decreases |buffer| - start
      {
        var json := buffer[start..i];
        FirstLine(buffer, start, i);
        Assoc(lines, [json], Lines(buffer[i + 1..]).0);
        lines := lines + [json];
        start := i + 1;
        i := IndexOf(buffer, NEWLINE, start);
      }
      LastLine(buffer[start..]);
      assert lines + [] == lines;
      jsonBuffer := buffer[start..];
    }

    /** `onread` with data: the JSON texts to be parsed and delivered, in order. */
    method OnRead(pool: seq<Byte>) returns (lines: seq<Text>)
      requires Valid()
      modifies this, decoder, decoder.charBuffer
      ensures Valid() && (lines, decoder.Abs(), jsonBuffer) == Reads(old(decoder.Abs()), old(jsonBuffer), pool)
    {
      var text := decoder.Write(pool);
      jsonBuffer := jsonBuffer + text;
      lines := TakeLines();
    }
  }

  lemma LastLine(s: Text)
    requires NEWLINE !in s
    ensures Lines(s) == ([], s)
  {
    IndexNone(s, NEWLINE, 0);
  }

  lemma FirstLine(s: Text, start: nat, i: nat)
    requires start <= i < |s| && i == IndexOf(s, NEWLINE, start)
    ensures Lines(s[start..]) == ([s[start..i]] + Lines(s[i + 1..]).0, Lines(s[i + 1..]).1)
  {
    var line, rest := s[start..i], s[i + 1..];
    assert s[start..] == line + [NEWLINE] + rest;
    LinesOfLine(line, rest);
  }

  /** One call of `onread` on the bytes held back and the text not yet cut into lines. */
  function Reads(h: Held, buffer: Text, pool: seq<Byte>): (seq<Text>, Held, Text)
    requires HeldOk(h)
  {
    var (text, h') := WriteText(Utf8Text, h, pool);
    var (lines, rest) := Lines(buffer + text);
    (lines, h', rest)
  }

  /** All that is delivered for the chunks. */
  function Delivered(h: Held, buffer: Text, chunks: seq<seq<Byte>>): (seq<Text>, Text)
    requires HeldOk(h)
    decreases |chunks|
  {
    if chunks == [] then ([], buffer)
    else
      var (text, h') := WriteText(Utf8Text, h, chunks[0]);
      var (lines, rest) := Lines(buffer + text);
      var (later, left) := Delivered(h', rest, chunks[1..]);
      (lines + later, left)
  }

  // ---------------------------------------------------------------- any chunking

  /** Cutting into lines may be done piece by piece. */
  lemma {:induction false} LinesAppend(a: Text, b: Text)
    ensures var (lines, rest) := Lines(a);
      Lines(a + b) == (lines + Lines(rest + b).0, Lines(rest + b).1) && NEWLINE !in rest
    decreases |a|
  {
    var i := IndexOf(a, NEWLINE, 0);
    if i < 0 {
      assert [] + Lines(a + b).0 == Lines(a + b).0;
    } else {
      var line, more := a[..i], a[i + 1..];
      assert a == line + [NEWLINE] + more;
      LinesAppend(more, b);
      LinesOfLine(line, more);
      LinesOfLine(line, more + b);
      Assoc(line + [NEWLINE], more, b);
      var (lines, rest) := Lines(more);
      Assoc([line], lines, Lines(rest + b).0);
    }
  }

  lemma {:induction false} DeliveredIsLines(h: Held, buffer: Text, chunks: seq<seq<Byte>>)
    requires HeldOk(h) && NEWLINE !in buffer
    ensures Delivered(h, buffer, chunks) == Lines(buffer + Written(Utf8Text, h, chunks).0)
    decreases |chunks|
  {
    if chunks == [] {
      LastLine(buffer);
      assert buffer + [] == buffer;
    } else {
      var (text, h') := WriteText(Utf8Text, h, chunks[0]);
      var (more, _) := Written(Utf8Text, h', chunks[1..]);
      var (lines, rest) := Lines(buffer + text);
      LinesAppend(buffer + text, more);
      DeliveredIsLines(h', rest, chunks[1..]);
      Assoc(buffer, text, more);
    }
  }

  /** What `send` writes for the JSON texts. */
  function OnWire(jsons: seq<seq<Scalar>>): seq<Scalar> {
    if jsons == [] then [] else jsons[0] + [NEWLINE] + OnWire(jsons[1..])
  }

  lemma {:induction false} LinesOnWire(jsons: seq<seq<Scalar>>)
    requires forall i :: 0 <= i < |jsons| ==> NEWLINE !in jsons[i]
    ensures Lines(OnWire(jsons)) == (jsons, [])
  {
    if jsons == [] {
      LastLine([]);
    } else {
      LinesOnWire(jsons[1..]);
      LinesOfLine(jsons[0], OnWire(jsons[1..]));
      assert jsons == [jsons[0]] + jsons[1..];
    }
  }

  /** For every list of JSON texts, none of which contains a newline, and every way of cutting
      the bytes written for them into chunks, the reader delivers exactly these texts in
      order and keeps nothing back. */
  lemma AnyChunking(jsons: seq<seq<Scalar>>, chunks: seq<seq<Byte>>)
    requires forall i :: 0 <= i < |jsons| ==> NEWLINE !in jsons[i]
    requires Flatten(chunks) == Encode(OnWire(jsons))
    ensures Delivered(NOTHING, [], chunks) == (jsons, [])
  {
    Utf8AnyChunking(chunks, OnWire(jsons));
    DeliveredIsLines(NOTHING, [], chunks);
    assert [] + OnWire(jsons) == OnWire(jsons);
    LinesOnWire(jsons);
  }
}
