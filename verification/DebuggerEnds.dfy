/**
 When the recursion of `execute` and `_newRes` ends. A body that ends in front of its start, after a
 negative `Content-Length`, may leave the same text to be parsed again.
 */
module DebuggerEnds {
  import opened Prelude
  import opened Utf8
  import opened Debugger
  import Recursion

  // ---------------------------------------------------------------- one round

  /** At least as many characters are in front of the place as bytes are behind it in the one it
      tears; and some are, if it tears none. */
  predicate Shrinks(p: Protocol)
    requires BodyArrived(p)
  {
    var torn, before := Torn(p.raw, Cut(p)), CharsBefore(p.raw, Cut(p));
    if torn > 0 then torn <= before else before > 0
  }

  /** Exactly when a round leaves a shorter text. */
  lemma ShrinksIff(p: Protocol)
    requires BodyArrived(p)
    ensures |TakeBody(p).raw| < |p.raw| <==> Shrinks(p)
  {
    DecodedFrom(p.raw, Cut(p));
  }

  /** Fewer bytes are left exactly if the index is positive, or negative and smaller in size than the
      bytes held. Decoding may make the text as long as before all the same. */
  lemma CutIff(p: Protocol)
    requires BodyArrived(p) && BodyEnd(p) >= -0x8000_0000 && p.raw != []
    ensures Cut(p) > 0 <==> BodyEnd(p) > 0 || -|Encode(p.raw)| < BodyEnd(p) < 0
  {
    assert |Encode(p.raw)| == Size(p.raw[0]) + |Encode(p.raw[1..])|;
  }

  /** Whole characters before a place, if it lies behind `k` of them. */
  lemma {:induction false} CharsMonotone(s: Text, k: nat, cut: nat)
    requires k <= |s| && |Encode(s[..k])| <= cut <= |Encode(s)|
    ensures CharsBefore(s, cut) >= k
    decreases k
  {
    if k > 0 {
      assert s[..k][1..] == s[1..][..k - 1];
      assert s[..k][0] == s[0];
      CharsMonotone(s[1..], k - 1, cut - Size(s[0]));
    }
  }

  lemma BodyStartOf(p: Protocol)
    requires EndOfHeader(p) >= 0
    ensures var k := EndOfHeader(p) + 4; k <= |p.raw| && TakeHeader(p).bodyStart == |Encode(p.raw[..k])|
  {
    var i := EndOfHeader(p);
    assert p.raw[..i + 4] == p.raw[..i] + END_OF_HEADER;
    EncodeAppend(p.raw[..i], END_OF_HEADER);
    EncodeTerminator();
  }

  /** A length that is not negative always leaves a shorter text, also if it tears a character. */
  lemma TakeBodyShrinks(p: Protocol)
    requires Formed(p) && p.mode == Body && BodyArrived(p) && p.contentLength.value >= 0
    ensures Shrinks(p) && |TakeBody(p).raw| < |p.raw|
  {
    BodyStartOf(p);
    CharsMonotone(p.raw, EndOfHeader(p) + 4, Cut(p));
    ShrinksIff(p);
  }

  // ---------------------------------------------------------------- the same header again

  lemma {:induction false} IndexOffset(u: Text, b: Text, pattern: Text, from: nat)
    ensures var i := IndexOf(b, pattern, from);
      IndexOf(u + b, pattern, |u| + from) == if i < 0 then -1 else |u| + i
    decreases |b| - from
  {
    if from + |pattern| <= |b| {
      assert (u + b)[|u| + from..|u| + from + |pattern|] == b[from..from + |pattern|];
      if !At(b, pattern, from) {
        IndexOffset(u, b, pattern, from + 1);
      }
    }
  }

  lemma {:induction false} IndexBehind(s: Text, pattern: Text, from: nat, to: nat)
    requires from <= to <= |s| && |pattern| > 0 && forall i :: from <= i < to ==> !At(s, pattern, i)
    ensures IndexOf(s, pattern, from) == IndexOf(s, pattern, to)
    decreases |s| - from
  {
    if from < to {
      if from + |pattern| > |s| {
        assert to + |pattern| > |s|;
      } else {
        IndexBehind(s, pattern, from + 1, to);
      }
    }
  }

  lemma AtPlace(s: Text, pattern: Text, i: nat, k: nat)
    requires k < |pattern|
    ensures At(s, pattern, i) ==> s[i + k] == pattern[k]
  {
    if At(s, pattern, i) {
      assert s[i..i + |pattern|][k] == s[i + k];
    }
  }

  /** A few characters, the last of which is beyond ASCII. */
  predicate Inert(u: Text) {
    1 <= |u| <= 3 && u[|u| - 1] >= 128
  }

  lemma EndBehind(u: Text, b: Text)
    requires Inert(u)
    ensures var i := IndexOf(b, END_OF_HEADER, 0);
      IndexOf(u + b, END_OF_HEADER, 0) == if i < 0 then -1 else |u| + i
  {
    var s := u + b;
    forall i | 0 <= i < |u| ensures !At(s, END_OF_HEADER, i) {
      AtPlace(s, END_OF_HEADER, i, |u| - 1 - i);
    }
    IndexBehind(s, END_OF_HEADER, 0, |u|);
    IndexOffset(u, b, END_OF_HEADER, 0);
  }

  /** The lines behind the first one. */
  function OtherLines(h: Text): seq<Text> {
    SplitLines(h)[1..]
  }

  /** No line break begins in front of the last character. */
  predicate OneLine(u: Text) {
    Inert(u) && forall i :: 0 <= i < |u| - 1 ==> !(u[i] == CR && u[i + 1] == LF)
  }

  lemma BreakBehind(u: Text, h: Text)
    requires OneLine(u)
    ensures var i := IndexOf(h, CRLF, 0);
      IndexOf(u + h, CRLF, 0) == if i < 0 then -1 else |u| + i
  {
    var s := u + h;
    forall i | 0 <= i < |u| ensures !At(s, CRLF, i) {
      AtPlace(s, CRLF, i, 0);
      AtPlace(s, CRLF, i, 1);
    }
    IndexBehind(s, CRLF, 0, |u|);
    IndexOffset(u, h, CRLF, 0);
  }

  lemma LinesBehind(u: Text, h: Text)
    requires OneLine(u)
    ensures var lines := SplitLines(u + h); lines[1..] == OtherLines(h) && u <= lines[0]
  {
    BreakBehind(u, h);
    var i := IndexOf(h, CRLF, 0);
    if i >= 0 {
      assert (u + h)[|u| + i + 2..] == h[i + 2..];
    }
  }

  /** The last line of that key, if there is one. */
  function Last(lines: seq<Text>): Option<Option<Text>>
    decreases |lines|
  {
    if lines == [] then None
    else
      var later := Last(lines[1..]);
      if later.Some? then later
      else if KeyValue(lines[0]).0 == CONTENT_LENGTH then Some(KeyValue(lines[0]).1)
      else None
  }

  lemma {:induction false} LastCounts(lines: seq<Text>, headers: map<Text, Option<Text>>)
    ensures var r := HeaderMap(lines, headers);
      match Last(lines)
      case Some(v) => CONTENT_LENGTH in r && r[CONTENT_LENGTH] == v
      case None =>
        && (CONTENT_LENGTH in r <==> CONTENT_LENGTH in headers)
        && (CONTENT_LENGTH in headers ==> r[CONTENT_LENGTH] == headers[CONTENT_LENGTH])
    decreases |lines|
  {
    if lines != [] {
      var (key, value) := KeyValue(lines[0]);
      LastCounts(lines[1..], headers[key := value]);
    }
  }

  lemma OtherKey(line: Text, i: nat)
    requires i < |line| && i < 14 && line[i] >= 128
    ensures KeyValue(line).0 != CONTENT_LENGTH
  {
    var key := KeyValue(line).0;
    assert i < |key| ==> key[i] == line[i];
    assert CONTENT_LENGTH[i] < 128;
  }

  lemma OneLineLength(u: Text, h: Text)
    requires OneLine(u)
    ensures Last(SplitLines(u + h)) == Last(OtherLines(h))
  {
    LinesBehind(u, h);
    OtherKey(SplitLines(u + h)[0], |u| - 1);
  }

  lemma BreakFirst(v: Text)
    ensures SplitLines(CRLF + v) == [[]] + SplitLines(v)
  {
    var s := CRLF + v;
    assert s[0..2] == CRLF && s[2..] == v;
    assert IndexOf(s, CRLF, 0) == 0 && s[..0] == [];
  }

  lemma EmptyFirst(lines: seq<Text>)
    ensures Last([[]] + lines) == Last(lines)
  {
    assert KeyValue([]).0 == [];
    assert ([[]] + lines)[1..] == lines;
  }

  /** What stands in front does not matter for the length: its line has another key. */
  lemma LengthBehind(u: Text, h: Text)
    requires Inert(u)
    ensures Last(SplitLines(u + h)) == Last(OtherLines(h))
  {
    if |u| == 3 && u[0] == CR && u[1] == LF {
      var v := u[2..];
      assert u + h == CRLF + (v + h);
      BreakFirst(v + h);
      EmptyFirst(SplitLines(v + h));
      OneLineLength(v, h);
    } else {
      OneLineLength(u, h);
    }
  }

  lemma SameLength(u: Text, v: Text, h: Text)
    requires Inert(u) && Inert(v)
    ensures ContentLength(u + h) == ContentLength(v + h)
  {
    LengthBehind(u, h);
    LengthBehind(v, h);
    LastCounts(SplitLines(u + h), map[]);
    LastCounts(SplitLines(v + h), map[]);
  }

  /** The header of `u + b`, when it ends in `b`. */
  lemma HeaderBehind(u: Text, b: Text, rs: seq<Text>)
    requires Inert(u) && IndexOf(b, END_OF_HEADER, 0) >= 0
    ensures var p := Waiting(u + b, rs); var h := b[..IndexOf(b, END_OF_HEADER, 0)];
      && EndOfHeader(p) == |u| + |h|
      && TakeHeader(p).contentLength == ContentLength(u + h)
      && TakeHeader(p).bodyStart == |Encode(u)| + |Encode(h)| + 4
      && |Encode(p.raw)| == |Encode(u)| + |Encode(b)|
  {
    EndBehind(u, b);
    var h := b[..IndexOf(b, END_OF_HEADER, 0)];
    assert (u + b)[..|u| + |h|] == u + h;
    EncodeAppend(u, h);
    EncodeAppend(u, b);
  }

  /** The same header is found behind other characters. */
  lemma SameHeader(u: Text, v: Text, b: Text, rs: seq<Text>, rs': seq<Text>)
    requires Inert(u) && Inert(v) && EndOfHeader(Waiting(u + b, rs)) >= 0
    ensures EndOfHeader(Waiting(v + b, rs')) >= 0
    ensures var p, q := TakeHeader(Waiting(u + b, rs)), TakeHeader(Waiting(v + b, rs'));
      && q.contentLength == p.contentLength && q.bodyStart == p.bodyStart - |Encode(u)| + |Encode(v)|
      && |Encode(q.raw)| == |Encode(p.raw)| - |Encode(u)| + |Encode(v)|
  {
    EndBehind(u, b);
    HeaderBehind(u, b, rs);
    HeaderBehind(v, b, rs');
    SameLength(u, v, b[..IndexOf(b, END_OF_HEADER, 0)]);
  }

  // ---------------------------------------------------------------- texts that come again

  /** The message in front of a text, given that the header has arrived: None if the body has not. */
  function Rest(raw: Text): Option<Text> {
    var p := Waiting(raw, []);
    if EndOfHeader(p) < 0 || !BodyArrived(TakeHeader(p)) then None
    else Some(TakeBody(TakeHeader(p)).raw)
  }

  lemma TwoSteps(raw: Text, rs: seq<Text>)
    requires Rest(raw).Some?
    ensures !Resting(Waiting(raw, rs)) && !Resting(Advance(Waiting(raw, rs)))
    ensures var p := Advance(Advance(Waiting(raw, rs))); p == Waiting(Rest(raw).value, p.responses)
  {}

  /** A text that leaves itself is parsed again and again. */
  lemma NeverEnds(raw: Text, rs: seq<Text>)
    requires Rest(raw) == Some(raw)
    ensures !Ends(Waiting(raw, rs))
  {
    var again := (p: Protocol) => p == Waiting(raw, p.responses);
    forall p | again(p)
      ensures Next(p).Some? && Next(Next(p).value).Some? && again(Next(Next(p).value).value)
    {
      TwoSteps(raw, p.responses);
    }
    Recursion.Cycle(Next, again, Waiting(raw, rs));
  }

  /** So is one that leaves such a text. */
  lemma NeverEndsAfter(raw: Text, next: Text, rs: seq<Text>)
    requires Rest(raw) == Some(next) && forall rs' :: !Ends(Waiting(next, rs'))
    ensures !Ends(Waiting(raw, rs))
  {
    var p := Waiting(raw, rs);
    TwoSteps(raw, rs);
    Recursion.EndsStep(Next, p);
    Recursion.EndsStep(Next, Advance(p));
    assert !Ends(Waiting(next, Advance(Advance(p)).responses));
  }

  // ---------------------------------------------------------------- a round that does not shrink

  /** The state in which the message in front of a text is taken. */
  function Found(raw: Text): Protocol
    requires EndOfHeader(Waiting(raw, [])) >= 0
  {
    TakeHeader(Waiting(raw, []))
  }

  lemma RestIs(raw: Text)
    requires Rest(raw).Some?
    ensures var cut := Cut(Found(raw)); Rest(raw) == Some(Marks(Torn(raw, cut)) + Later(raw, cut))
  {
    DecodedFrom(raw, Cut(Found(raw)));
  }

  lemma {:induction false} MarksBytes(t: nat)
    ensures |Encode(Marks(t))| == 3 * t
  {
    if t > 0 {
      assert Marks(t)[1..] == Marks(t - 1);
      MarksBytes(t - 1);
    }
  }

  /** Two thirds of the bytes of a few marks. */
  lemma MarksCut(t: nat, b: Text)
    requires 1 <= t <= 3
    ensures 2 * t <= |Encode(Marks(t) + b)|
    ensures var s, cut := Marks(t) + b, 2 * t;
      && CharsBefore(s, cut) == t - 1 && Torn(s, cut) == (if t < 3 then t else 0)
  {
    var s := Marks(t) + b;
    EncodeAppend(Marks(t), b);
    MarksBytes(t);
    MarksBytes(t - 1);
    assert s[..t - 1] == Marks(t - 1);
    CharsInMarks(s, 2 * t, t - 1);
  }

  lemma {:induction false} CharsInMarks(s: Text, cut: nat, k: nat)
    requires k < |s| && cut <= |Encode(s)| && 3 * k <= cut < 3 * k + 3
    requires forall i :: 0 <= i <= k ==> s[i] == REPLACEMENT
    ensures CharsBefore(s, cut) == k
    decreases k
  {
    if k > 0 {
      CharsInMarks(s[1..], cut - 3, k - 1);
    }
  }

  lemma WholeAgain(raw: Text)
    requires Rest(raw).Some? && BodyEnd(Found(raw)) == 0
    ensures Rest(raw) == Some(raw)
  {
    RestIs(raw);
    assert raw[0..] == raw && Marks(0) + raw == raw && raw[..0] == [];
  }

  /** One or two marks, the second half of which is cut off and becomes as many again. */
  lemma MarksAgain(t: nat, b: Text)
    requires 1 <= t <= 2 && Rest(Marks(t) + b).Some? && BodyEnd(Found(Marks(t) + b)) == 2 * t
    ensures Rest(Marks(t) + b) == Some(Marks(t) + b)
  {
    var s := Marks(t) + b;
    MarksCut(t, b);
    RestIs(s);
    assert s[t..] == b;
  }

  lemma LaterOfThree(b: Text)
    ensures 6 <= |Encode(Marks(3) + b)| && Torn(Marks(3) + b, 6) == 0 && Later(Marks(3) + b, 6) == Marks(1) + b
  {
    MarksCut(3, b);
    assert (Marks(3) + b)[2..] == Marks(1) + b;
  }

  lemma MarksThree(b: Text)
    requires Rest(Marks(3) + b).Some? && BodyEnd(Found(Marks(3) + b)) == 6
    ensures Rest(Marks(3) + b) == Some(Marks(1) + b)
  {
    LaterOfThree(b);
    RestIs(Marks(3) + b);
    assert Marks(0) + (Marks(1) + b) == Marks(1) + b;
  }

  /** The header of u + b, seen behind v. */
  lemma FoundBehind(u: Text, v: Text, b: Text)
    requires Inert(u) && Inert(v) && Rest(u + b).Some?
    ensures Rest(v + b).Some?
    ensures BodyEnd(Found(v + b)) == BodyEnd(Found(u + b)) - |Encode(u)| + |Encode(v)|
  {
    SameHeader(u, v, b, [], []);
  }

  /** Of three marks one is left, and then it stays. */
  lemma MarksBecomeOne(b: Text)
    requires Rest(Marks(3) + b).Some? && BodyEnd(Found(Marks(3) + b)) == 6
    ensures Rest(Marks(3) + b) == Some(Marks(1) + b) && Rest(Marks(1) + b) == Some(Marks(1) + b)
  {
    MarksThree(b);
    MarksBytes(3);
    MarksBytes(1);
    FoundBehind(Marks(3), Marks(1), b);
    WholeAgain(Marks(1) + b);
  }

  lemma OneMore(raw: Text, k: nat)
    requires k < |raw|
    ensures |Encode(raw[..k + 1])| == |Encode(raw[..k])| + Size(raw[k])
  {
    assert raw[..k + 1] == raw[..k] + [raw[k]];
    EncodeAppend(raw[..k], [raw[k]]);
    assert [raw[k]][1..] == [] && Encode([raw[k]]) == EncodeChar(raw[k]) + [];
  }

  /** The first characters, up to a torn one that has more bytes left than there are in front. */
  lemma TornParts(raw: Text, cut: nat)
    requires cut <= |Encode(raw)| && Torn(raw, cut) > CharsBefore(raw, cut)
    ensures var k := CharsBefore(raw, cut);
      && k < |raw| && raw == raw[..k + 1] + Later(raw, cut) && Inert(raw[..k + 1])
      && |Encode(raw[..k + 1])| == cut + Torn(raw, cut)
  {
    var k := CharsBefore(raw, cut);
    CutAt(raw, cut);
    OneMore(raw, k);
  }

  /** They become marks, and the header is found again. */
  lemma TornAway(raw: Text)
    requires Rest(raw).Some? && BodyEnd(Found(raw)) >= 0
    requires var cut := Cut(Found(raw)); Torn(raw, cut) > CharsBefore(raw, cut)
    ensures var cut := Cut(Found(raw)); var t, b := Torn(raw, cut), Later(raw, cut);
      && 1 <= t <= 3 && Rest(raw) == Some(Marks(t) + b)
      && Rest(Marks(t) + b).Some? && BodyEnd(Found(Marks(t) + b)) == 2 * t
  {
    var cut := Cut(Found(raw));
    var t, k := Torn(raw, cut), CharsBefore(raw, cut);
    RestIs(raw);
    TornParts(raw, cut);
    MarksBytes(t);
    FoundBehind(raw[..k + 1], Marks(t), Later(raw, cut));
  }

  /** A round that does not leave a shorter text leads to one that comes again for ever. */
  lemma LoopsUnlessShrinks(raw: Text, rs: seq<Text>)
    requires Rest(raw).Some? && BodyEnd(Found(raw)) >= 0 && !Shrinks(Found(raw))
    ensures !Ends(Waiting(raw, rs))
  {
    var cut := Cut(Found(raw));
    var t, b := Torn(raw, cut), Later(raw, cut);
    CutAt(raw, cut);
    if t == 0 {
      assert raw[..0] == [];
      WholeAgain(raw);
      NeverEnds(raw, rs);
    } else {
      TornAway(raw);
      MarksForever(t, b);
      NeverEndsAfter(raw, Marks(t) + b, rs);
    }
  }

  lemma NeverFrom(raw: Text)
    requires Rest(raw) == Some(raw)
    ensures forall rs :: !Ends(Waiting(raw, rs))
  {
    forall rs ensures !Ends(Waiting(raw, rs)) {
      NeverEnds(raw, rs);
    }
  }

  lemma NeverFromAfter(raw: Text, next: Text)
    requires Rest(raw) == Some(next) && Rest(next) == Some(next)
    ensures forall rs :: !Ends(Waiting(raw, rs))
  {
    NeverFrom(next);
    forall rs ensures !Ends(Waiting(raw, rs)) {
      NeverEndsAfter(raw, next, rs);
    }
  }

  lemma MarksForever(t: nat, b: Text)
    requires 1 <= t <= 3 && Rest(Marks(t) + b).Some? && BodyEnd(Found(Marks(t) + b)) == 2 * t
    ensures forall rs :: !Ends(Waiting(Marks(t) + b, rs))
  {
    if t < 3 {
      MarksAgain(t, b);
      NeverFrom(Marks(t) + b);
    } else {
      MarksBecomeOne(b);
      NeverFromAfter(Marks(3) + b, Marks(1) + b);
    }
  }

  // ---------------------------------------------------------------- whole recursions

  /** The body does not end in front of the text. */
  predicate EndsInside(p: Protocol) {
    p.mode == Body && BodyArrived(p) ==> BodyEnd(p) >= 0
  }

  /** The round leaves a shorter text. */
  predicate LeavesLess(p: Protocol) {
    p.mode == Body && BodyArrived(p) ==> Shrinks(p)
  }

  predicate LengthOk(p: Protocol) {
    p.mode == Body && BodyArrived(p) ==> p.contentLength.value >= 0
  }

  ghost predicate Forward(p: Protocol) {
    Recursion.All(Next, EndsInside, p)
  }

  ghost predicate Steady(p: Protocol) {
    Recursion.All(Next, LeavesLess, p)
  }

  /** No header that is met has a negative length. */
  ghost predicate Plain(p: Protocol) {
    Recursion.All(Next, LengthOk, p)
  }

  function Left(p: Protocol): nat {
    2 * |p.raw| + (if p.mode == Headers then 1 else 0)
  }

  lemma StepLeaves(p: Protocol)
    requires LeavesLess(p) && Next(p).Some?
    ensures Left(Next(p).value) < Left(p)
  {
    if p.mode == Body {
      ShrinksIff(p);
    }
  }

  /** A state that has its header ends as the one that is about to find it. */
  lemma FoundEnds(p: Protocol)
    requires Formed(p) && p.mode == Body && BodyArrived(p)
    ensures var q := Found(p.raw); Rest(p.raw).Some? && BodyEnd(q) == BodyEnd(p) && Shrinks(q) == Shrinks(p)
    ensures Ends(p) <==> Ends(Waiting(p.raw, p.responses))
  {
    var w := Waiting(p.raw, p.responses);
    assert Advance(w) == p;
    Recursion.EndsStep(Next, w);
  }

  lemma EndingLeaves(p: Protocol)
    requires Formed(p) && Next(p).Some? && EndsInside(p) && Ends(p)
    ensures LeavesLess(p)
  {
    if p.mode == Body && !Shrinks(p) {
      FoundEnds(p);
      LoopsUnlessShrinks(p.raw, p.responses);
    }
  }

  /** When no body ends in front of the text: the recursion ends if and only if every round of it
      leaves a shorter text. */
  lemma EndsIff(p: Protocol)
    requires Formed(p) && Forward(p)
    ensures Ends(p) <==> Steady(p)
  {
    forall x | Formed(x) && Next(x).Some? ensures Formed(Next(x).value) {
      AdvanceFormed(x);
    }
    forall x | LeavesLess(x) && Next(x).Some? ensures Left(Next(x).value) < Left(x) {
      StepLeaves(x);
    }
    forall x | Formed(x) && Next(x).Some? && EndsInside(x) && Recursion.Ends(Next, x) ensures LeavesLess(x) {
      EndingLeaves(x);
    }
    Recursion.EndsIff(Next, EndsInside, LeavesLess, Formed, Left, p);
  }

  lemma PlainStep(p: Protocol)
    requires Formed(p) && Next(p).Some?
    ensures Formed(Next(p).value) && (LengthOk(p) ==> EndsInside(p) && LeavesLess(p))
  {
    AdvanceFormed(p);
    if p.mode == Body && LengthOk(p) {
      TakeBodyShrinks(p);
    }
  }

  /** Without negative lengths it always ends. */
  lemma PlainEnds(p: Protocol)
    requires Formed(p) && Plain(p)
    ensures Forward(p) && Ends(p)
  {
    forall x | Formed(x) && Next(x).Some?
      ensures Formed(Next(x).value) && (LengthOk(x) ==> EndsInside(x) && LeavesLess(x))
    {
      PlainStep(x);
    }
    Recursion.AllWeaker(Next, EndsInside, LengthOk, Formed, p);
    Recursion.AllWeaker(Next, LeavesLess, LengthOk, Formed, p);
    EndsIff(p);
  }
}
