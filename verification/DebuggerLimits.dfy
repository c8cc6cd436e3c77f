/**
 Inputs on which the debugger protocol's parser never comes to an end, or depends on chunking: headers
 with a negative length.
 */
module DebuggerLimits {
  import opened Prelude
  import opened Utf8
  import opened Debugger
  import opened DebuggerEnds
  import opened DebuggerChunks
  import Recursion

  predicate Ascii(s: Text) {
    forall i :: 0 <= i < |s| ==> s[i] < 128
  }

  lemma {:induction false} AsciiBytes(s: Text)
    requires Ascii(s)
    ensures Encode(s) == s
  {
    if s != [] {
      AsciiBytes(s[1..]);
      assert s == [s[0]] + s[1..];
    }
  }

  /** A text cut in two. */
  lemma AsciiCut(s: Text, cut: nat)
    requires Ascii(s) && cut <= |s|
    ensures |Encode(s)| == |s| && Decode(Encode(s)[cut..]) == s[cut..]
  {
    AsciiBytes(s);
    AsciiBytes(s[cut..]);
    RoundTrip(s[cut..]);
  }

  function Minus(n: nat): Text {
    [MINUS] + Decimal(n)
  }

  /** A header that announces -n bytes. */
  function NegativeHeader(n: nat): Text {
    LengthLine(Minus(n)) + END_OF_HEADER
  }

  lemma MinusNumber(n: nat)
    ensures LineValue(Minus(n)) && Number(Some(Minus(n))) == Some(-(n as int))
    ensures Ascii(LengthLine(Minus(n))) && Ascii(NegativeHeader(n))
  {
    assert Minus(n)[1..] == Decimal(n);
    DecimalValue(n);
  }

  lemma NegativeFound(n: nat, more: Text)
    requires Ascii(more)
    ensures var raw, size := NegativeHeader(n) + more, |NegativeHeader(n)|;
      && EndOfHeader(Waiting(raw, [])) >= 0 && Found(raw) == Protocol(raw, Body, Some(-(n as int)), size, [])
      && |Encode(raw)| == |raw|
  {
    var line, raw := LengthLine(Minus(n)), NegativeHeader(n) + more;
    MinusNumber(n);
    LengthOf(Minus(n));
    Assoc(line, END_OF_HEADER, more);
    FirstAfter(line, END_OF_HEADER, more, 0);
    assert raw[..|line|] == line;
    AsciiBytes(line);
    AsciiBytes(raw);
  }

  /** It counts back at least twice its own size, and to no farther than 32 bits reach. */
  predicate FarBack(n: nat) {
    2 * |NegativeHeader(n)| <= n <= 0x8000_0000
  }

  lemma NegativeCut(n: nat, more: Text)
    requires Ascii(more) && FarBack(n)
    ensures var raw, size := NegativeHeader(n) + more, |NegativeHeader(n)|;
      && Ascii(raw) && EndOfHeader(Waiting(raw, [])) >= 0 && BodyArrived(Found(raw)) && |Encode(raw)| == |raw|
      && Cut(Found(raw)) == if |raw| + size >= n then |raw| + size - n else 0
  {
    NegativeFound(n, more);
    MinusNumber(n);
  }

  /** What is left of an ASCII text. */
  lemma RestAscii(raw: Text, cut: nat)
    requires EndOfHeader(Waiting(raw, [])) >= 0 && BodyArrived(Found(raw)) && Cut(Found(raw)) == cut <= |raw|
    requires Ascii(raw)
    ensures Rest(raw) == Some(raw[cut..])
  {
    AsciiCut(raw, cut);
  }

  lemma RestBehind(head: Text, more: Text, k: nat)
    requires EndOfHeader(Waiting(head + more, [])) >= 0 && BodyArrived(Found(head + more)) && Ascii(head + more)
    requires k <= |more| && Cut(Found(head + more)) == |head| + k
    ensures Rest(head + more) == Some(more[k..])
  {
    RestAscii(head + more, |head| + k);
    Behind(head, more, k);
  }

  lemma NegativeRest(n: nat, more: Text)
    requires Ascii(more) && FarBack(n) && |more| + |NegativeHeader(n)| >= n
    ensures Rest(NegativeHeader(n) + more) == Some(more[|more| + |NegativeHeader(n)| - n..])
  {
    NegativeCut(n, more);
    RestBehind(NegativeHeader(n), more, |more| + |NegativeHeader(n)| - n);
  }

  lemma Behind(a: Text, b: Text, k: nat)
    requires k <= |b|
    ensures (a + b)[|a| + k..] == b[k..]
  {}

  /** Alone, such a header is parsed again and again. */
  lemma NegativeForever(n: nat)
    requires FarBack(n)
    ensures Rest(NegativeHeader(n)) == Some(NegativeHeader(n)) && Execute(INITIAL, NegativeHeader(n)) == None
  {
    var raw := NegativeHeader(n);
    assert raw + [] == raw && [] + raw == raw && raw[0..] == raw;
    NegativeCut(n, []);
    RestAscii(raw, 0);
    NeverEnds(raw, []);
  }

  /** With enough text behind it in the same chunk, parsing goes on with the end of that. */
  lemma NegativeInOneChunk(n: nat, more: Text)
    requires Ascii(more) && CR !in more
    requires FarBack(n) && |more| + |NegativeHeader(n)| >= n
    ensures var r := Execute(INITIAL, NegativeHeader(n) + more);
      r.Some? && r.value.mode == Headers && r.value.raw == more[|more| + |NegativeHeader(n)| - n..]
  {
    var raw := NegativeHeader(n) + more;
    var p := Waiting(raw, []);
    assert [] + raw == raw;
    NegativeRest(n, more);
    TwoSteps(raw, []);
    Recursion.SettleStep(Next, p);
    Recursion.SettleStep(Next, Advance(p));
    Nowhere(Rest(raw).value, END_OF_HEADER, 0);
    Recursion.SettleStep(Next, Advance(Advance(p)));
  }

  /** So the chunks matter: of the header and what follows, as two chunks and as one. */
  lemma ChunksMatter(n: nat, more: Text)
    requires Ascii(more) && CR !in more
    requires FarBack(n) && |more| + |NegativeHeader(n)| >= n
    ensures ExecuteAll(INITIAL, [NegativeHeader(n), more]) == None
    ensures ExecuteAll(INITIAL, [NegativeHeader(n) + more]).Some?
  {
    NegativeForever(n);
    NegativeInOneChunk(n, more);
  }

  // ---------------------------------------------------------------- a positive index

  const MINUS_27: Text := [MINUS, 50, 55]

  /** Behind two marks and a line end: -27 leads to the fourth byte, which is in the second mark. */
  const BEHIND: Text := CRLF + (LengthLine(MINUS_27) + END_OF_HEADER)

  lemma BehindEnd()
    ensures IndexOf(BEHIND, END_OF_HEADER, 0) == 21 && BEHIND[..21] == CRLF + LengthLine(MINUS_27)
  {
    var line := LengthLine(MINUS_27);
    assert line[0] == 67 && |line| == 19;
    LengthOf(MINUS_27);
    AtPlace(BEHIND, END_OF_HEADER, 0, 2);
    AtPlace(BEHIND, END_OF_HEADER, 1, 0);
    assert BEHIND[2] == 67 && BEHIND[1] == LF;
    IndexBehind(BEHIND, END_OF_HEADER, 0, 2);
    IndexOffset(CRLF, line + END_OF_HEADER, END_OF_HEADER, 0);
    assert line + (END_OF_HEADER + []) == line + END_OF_HEADER;
    FirstAfter(line, END_OF_HEADER, [], 0);
  }

  lemma BehindLines()
    ensures Last(OtherLines(CRLF + LengthLine(MINUS_27))) == Some(Some(MINUS_27))
  {
    var line := LengthLine(MINUS_27);
    var h := CRLF + line;
    LengthOf(MINUS_27);
    KeyValueOf(MINUS_27);
    Nowhere(line, CRLF, 0);
    assert h[0..2] == CRLF && h[2..] == line;
    assert IndexOf(h, CRLF, 0) == 0;
    var lines: seq<Text> := [line];
    assert OtherLines(h) == lines && lines[1..] == [];
  }

  lemma Number27()
    ensures Number(Some(MINUS_27)) == Some(-27)
  {
    assert MINUS_27[1..] == [50, 55];
    assert Value([50, 55]) == 10 * Value([50, 55][..1]) + 7;
    assert [50, 55][..1] == [50];
    assert Value([50]) == 10 * Value([50][..0]) + 2;
  }

  lemma BehindLength()
    ensures ContentLength(Marks(2) + (CRLF + LengthLine(MINUS_27))) == Some(-27)
  {
    var h := CRLF + LengthLine(MINUS_27);
    BehindLines();
    LengthBehind(Marks(2), h);
    LastCounts(SplitLines(Marks(2) + h), map[]);
    Number27();
  }

  lemma BehindBytes()
    ensures |Encode(CRLF + LengthLine(MINUS_27))| == 21 && |Encode(Marks(2))| == 6
  {
    LengthOf(MINUS_27);
    AsciiBytes(CRLF + LengthLine(MINUS_27));
    MarksBytes(2);
  }

  /** A header behind other characters, and the end of its body. */
  lemma EndBehindMarks(u: Text, b: Text, h: Text, length: int)
    requires Inert(u) && IndexOf(b, END_OF_HEADER, 0) >= 0 && h == b[..IndexOf(b, END_OF_HEADER, 0)]
    requires ContentLength(u + h) == Some(length) && |Encode(u)| + |Encode(h)| + 4 + length <= |Encode(u)|
    ensures Rest(u + b).Some? && BodyEnd(Found(u + b)) == |Encode(u)| + |Encode(h)| + 4 + length
  {
    HeaderBehind(u, b, []);
  }

  lemma BehindFound()
    ensures Rest(Marks(2) + BEHIND).Some? && BodyEnd(Found(Marks(2) + BEHIND)) == 4
  {
    BehindEnd();
    BehindLength();
    BehindBytes();
    EndBehindMarks(Marks(2), BEHIND, CRLF + LengthLine(MINUS_27), -27);
  }

  /** The index 4 is positive, and the same text is left: two bytes of a mark become two marks. */
  lemma PositiveIsNotEnough()
    ensures var raw := Marks(2) + BEHIND;
      Rest(raw) == Some(raw) && BodyEnd(Found(raw)) == 4 && Execute(INITIAL, raw) == None
  {
    var raw := Marks(2) + BEHIND;
    BehindFound();
    MarksAgain(2, BEHIND);
    NeverEnds(raw, []);
    assert [] + raw == raw;
  }

  /** An index below -2^31 comes back from the other end, as one that is positive. */
  lemma FarNegative(k: int, len: nat)
    requires 0 < k <= 0x8000_0000
    ensures Clamp(-0x8000_0000 - k, len) == if 0x8000_0000 - k < len then 0x8000_0000 - k else len
  {
    assert (-k) % 0x1_0000_0000 == 0x1_0000_0000 - k;
  }
}
