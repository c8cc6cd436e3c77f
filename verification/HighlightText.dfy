/** `sh_highlightString` over all lines: the pattern stack goes on from line to line, styles do not. */
module HighlightText {
  import opened Prelude
  import opened MergeTags
  import opened Highlighter
  import opened HighlightColours

  /** A line by what can be found in it, how long it is, how often its loop goes round, and where the next
      line begins. */
  datatype LineInput = LineInput(find: Finder, length: nat, rounds: nat, next: nat)

  const START := Scan(0, [], None, [])

  ghost predicate AllKnown(lang: Language, lines: seq<LineInput>) {
    forall i :: 0 <= i < |lines| ==> Leftmost(lines[i].find) && Known(lines[i].find, lang)
  }

  lemma NextStackOk(find: Finder, lang: Language, start: nat, length: nat, x: Scan)
    requires Known(find, lang) && StackOk(lang, x.stack)
    ensures StackOk(lang, Advance(find, lang, start, length)(x).scan.stack)
  {}

  lemma RoundsStackOk(find: Finder, lang: Language, start: nat, length: nat, x: Scan, rounds: nat)
    requires Known(find, lang) && StackOk(lang, x.stack) && start <= x.pos
    ensures StackOk(lang, Rounds(find, lang, start, length, x, rounds).scan.stack)
  {
    var among := iset y: Scan | StackOk(lang, y.stack);
    forall y | y in among ensures Advance(find, lang, start, length)(y).scan in among {
      NextStackOk(find, lang, start, length, y);
    }
    GoingKept(Advance(find, lang, start, length), x, rounds, among);
  }

  /** One line and its end. */
  ghost function OneLine(lang: Language, l: LineInput, x: Scan): (r: Scan)
    requires Known(l.find, lang) && StackOk(lang, x.stack)
    ensures StackOk(lang, r.stack) && r.style == None && r.pos == l.next
  {
    RoundsStackOk(l.find, lang, x.pos, l.length, x, l.rounds);
    EndLine(Rounds(l.find, lang, x.pos, l.length, x, l.rounds).scan, l.next)
  }

  ghost function AllLines(lang: Language, lines: seq<LineInput>, x: Scan): (r: Scan)
    requires AllKnown(lang, lines) && StackOk(lang, x.stack)
    ensures StackOk(lang, r.stack)
  {
    if lines == [] then x else AllLines(lang, lines[1..], OneLine(lang, lines[0], x))
  }

  /** The loop over the lines. */
  method HighlightString(lang: Language, lines: seq<LineInput>) returns (tags: seq<Tag>)
    requires AllKnown(lang, lines)
    ensures tags == AllLines(lang, lines, START).tags
  {
    var x, i := START, 0;
    while i < |lines|
      invariant 0 <= i <= |lines| && StackOk(lang, x.stack)
      invariant AllLines(lang, lines[i..], x) == AllLines(lang, lines, START)
    {
      var l := lines[i];
      assert lines[i..][0] == l && lines[i..][1..] == lines[i + 1..];
      RoundsStackOk(l.find, lang, x.pos, l.length, x, l.rounds);
      var line := HighlightLine(l.find, lang, x.pos, l.length, x, l.rounds);
      x := EndLine(line.scan, l.next);
      i := i + 1;
    }
    tags := x.tags;
  }

  // ---------------------------------------------------------------- the stack

  /** The patterns that are taken in some steps. */
  ghost function TakenIn(next: Scan -> Line, pick: Scan -> seq<Pattern>, x: Scan, n: nat): seq<Pattern>
    decreases n
  {
    if n == 0 then []
    else if next(x).ended then pick(x)
    else pick(x) + TakenIn(next, pick, next(x).scan, n - 1)
  }

  ghost predicate PicksAt(next: Scan -> Line, pick: Scan -> seq<Pattern>, x: Scan) {
    next(x).scan.stack == Stacks(x.stack, pick(x))
  }

  lemma {:induction false} StackOfSteps(next: Scan -> Line, pick: Scan -> seq<Pattern>, x: Scan, n: nat)
    requires forall y :: PicksAt(next, pick, y)
    ensures Going(next, x, n).scan.stack == Stacks(x.stack, TakenIn(next, pick, x, n))
    decreases n
  {
    if n > 0 {
      assert PicksAt(next, pick, x);
      if !next(x).ended {
        StackOfSteps(next, pick, next(x).scan, n - 1);
        StacksOn(x.stack, pick(x), TakenIn(next, pick, next(x).scan, n - 1));
      }
    }
  }

  /** The pattern that the next round takes, if there is one. */
  ghost function Picked(find: Finder, lang: Language, start: nat): Scan -> seq<Pattern>
    requires Known(find, lang)
  {
    (x: Scan) =>
      if StackOk(lang, x.stack) && start <= x.pos && NextBest(find, lang, start, x).Some? then
        BestFits(find, lang, StateOf(x.stack), x.pos - start);
        [lang[StateOf(x.stack)][NextBest(find, lang, start, x).value.pattern]]
      else []
  }

  lemma OnStack(stack: seq<Pattern>, p: Pattern)
    ensures Stacks(stack, [p]) == NextStack(stack, p)
  {
    assert [p][..0] == [];
  }

  lemma RoundPicks(find: Finder, lang: Language, start: nat, length: nat, x: Scan)
    requires Leftmost(find) && Known(find, lang)
    ensures PicksAt(Advance(find, lang, start, length), Picked(find, lang, start), x)
  {
    if StackOk(lang, x.stack) && start <= x.pos && NextBest(find, lang, start, x).Some? {
      TakenIs(find, lang, start, length, x);
      OnStack(x.stack, lang[StateOf(x.stack)][NextBest(find, lang, start, x).value.pattern]);
    }
  }

  ghost function LineTaken(lang: Language, l: LineInput, x: Scan): seq<Pattern>
    requires Known(l.find, lang)
  {
    TakenIn(Advance(l.find, lang, x.pos, l.length), Picked(l.find, lang, x.pos), x, l.rounds)
  }

  lemma LineStack(lang: Language, l: LineInput, x: Scan)
    requires Leftmost(l.find) && Known(l.find, lang) && StackOk(lang, x.stack)
    ensures OneLine(lang, l, x).stack == Stacks(x.stack, LineTaken(lang, l, x))
  {
    forall y ensures PicksAt(Advance(l.find, lang, x.pos, l.length), Picked(l.find, lang, x.pos), y) {
      RoundPicks(l.find, lang, x.pos, l.length, y);
    }
    StackOfSteps(Advance(l.find, lang, x.pos, l.length), Picked(l.find, lang, x.pos), x, l.rounds);
  }

  /** All patterns taken in the text, in order. */
  ghost function TextTaken(lang: Language, lines: seq<LineInput>, x: Scan): seq<Pattern>
    requires AllKnown(lang, lines) && StackOk(lang, x.stack)
  {
    if lines == [] then []
    else LineTaken(lang, lines[0], x) + TextTaken(lang, lines[1..], OneLine(lang, lines[0], x))
  }

  /** After any number of lines the stack is that of all patterns taken so far: the ends of lines do not count. */
  lemma {:induction false} TextStack(lang: Language, lines: seq<LineInput>, x: Scan)
    requires AllKnown(lang, lines) && StackOk(lang, x.stack)
    ensures AllLines(lang, lines, x).stack == Stacks(x.stack, TextTaken(lang, lines, x))
  {
    if lines != [] {
      var y := OneLine(lang, lines[0], x);
      LineStack(lang, lines[0], x);
      TextStack(lang, lines[1..], y);
      StacksOn(x.stack, LineTaken(lang, lines[0], x), TextTaken(lang, lines[1..], y));
    }
  }

  /** So an environment that was entered and not left holds at the beginning of the next line. */
  lemma EnvironmentGoesOn(lang: Language, lines: seq<LineInput>, before: seq<Pattern>, p: Pattern, ps: seq<Pattern>)
    requires AllKnown(lang, lines) && TextTaken(lang, lines, START) == before + ([p] + ps)
    requires p.next >= 0 && Nested(ps)
    ensures var y := AllLines(lang, lines, START);
      StateOf(y.stack) == p.next
      && (p.style.One? ==> Effective(y.stack, None) == if p.isState then None else p.style.style)
  {
    TextStack(lang, lines, START);
    StacksOn([], before, [p] + ps);
    EnvironmentHolds(Stacks([], before), p, ps, p);
  }

  // ---------------------------------------------------------------- the styles

  /** Where the text of a line was left. */
  ghost function LineEnd(lang: Language, l: LineInput, x: Scan): nat
    requires Known(l.find, lang) && StackOk(lang, x.stack)
  {
    Rounds(l.find, lang, x.pos, l.length, x, l.rounds).scan.pos
  }

  /** No line goes beyond where the next one begins. */
  ghost predicate LinesFit(lang: Language, lines: seq<LineInput>, x: Scan)
    requires AllKnown(lang, lines) && StackOk(lang, x.stack)
  {
    lines == [] ||
    (LineEnd(lang, lines[0], x) <= lines[0].next && LinesFit(lang, lines[1..], OneLine(lang, lines[0], x)))
  }

  /** What is found lies in the line, with the parts that are put out for it. */
  ghost predicate Inside(lang: Language, l: LineInput)
    requires Known(l.find, lang)
  {
    forall s: nat, i: nat, p: nat :: InsideAt(lang, l, s, i, p)
  }

  ghost predicate InsideAt(lang: Language, l: LineInput, s: nat, i: nat, p: nat)
    requires Known(l.find, lang)
  {
    s < |lang| && i < |lang[s]| && l.find(s, i, p).Some? ==>
      MatchFits(l.find, lang, s, i, p) &&
      l.find(s, i, p).value.index + MatchLength(l.find(s, i, p).value, lang[s][i]) <= l.length
  }

  /** Every line begins where the one before it says, and has room for its text. */
  predicate LinesFollow(lines: seq<LineInput>, start: nat) {
    lines == [] || (start + lines[0].length <= lines[0].next && LinesFollow(lines[1..], lines[0].next))
  }

  lemma PutOut(x: Scan, at: nat, found: Match, p: Pattern)
    requires found.index >= at && (p.style.Subs? ==> |found.groups| >= |p.style.styles|)
    ensures Take(x, at, found, p).pos == x.pos + (found.index - at) + MatchLength(found, p)
  {
    if p.style.Subs? {
      GroupsGo(Before(x, at, found), found.groups, p.style.styles, |p.style.styles|);
    }
  }

  lemma StepInside(lang: Language, l: LineInput, start: nat, x: Scan)
    requires Leftmost(l.find) && Known(l.find, lang) && Inside(lang, l)
    requires x.pos <= start + l.length
    ensures Advance(l.find, lang, start, l.length)(x).scan.pos <= start + l.length
  {
    if StackOk(lang, x.stack) && start <= x.pos && NextBest(l.find, lang, start, x).Some? {
      TakenIs(l.find, lang, start, l.length, x);
      var b := NextBest(l.find, lang, start, x).value;
      BestIsFound(l.find, StateOf(x.stack), |lang[StateOf(x.stack)]|, x.pos - start);
      assert InsideAt(lang, l, StateOf(x.stack), b.pattern, x.pos - start);
      PutOut(x, x.pos - start, b.found, lang[StateOf(x.stack)][b.pattern]);
    }
  }

  lemma LineInside(lang: Language, l: LineInput, x: Scan)
    requires Leftmost(l.find) && Known(l.find, lang) && Inside(lang, l) && StackOk(lang, x.stack)
    ensures LineEnd(lang, l, x) <= x.pos + l.length
  {
    var among := iset y: Scan | y.pos <= x.pos + l.length;
    forall y | y in among ensures Advance(l.find, lang, x.pos, l.length)(y).scan in among {
      StepInside(lang, l, x.pos, y);
    }
    GoingKept(Advance(l.find, lang, x.pos, l.length), x, l.rounds, among);
  }

  /** Then no line goes too far. */
  lemma {:induction false} InsideFits(lang: Language, lines: seq<LineInput>, x: Scan)
    requires AllKnown(lang, lines) && StackOk(lang, x.stack) && LinesFollow(lines, x.pos)
    requires forall i :: 0 <= i < |lines| ==> Inside(lang, lines[i])
    ensures LinesFit(lang, lines, x)
    decreases |lines|
  {
    if lines != [] {
      LineInside(lang, lines[0], x);
      InsideFits(lang, lines[1..], OneLine(lang, lines[0], x));
    }
  }

  /** The style of a place of the text: that of its line, and none between two lines. */
  ghost function TextColour(lang: Language, lines: seq<LineInput>, x: Scan, t: nat): Option<Node>
    requires AllKnown(lang, lines) && StackOk(lang, x.stack)
  {
    if lines == [] then None
    else
      var l := lines[0];
      if t < LineEnd(lang, l, x) then LineColour(l.find, lang, x.pos, l.length, x, l.rounds, t)
      else if t < l.next then None
      else TextColour(lang, lines[1..], OneLine(lang, l, x), t)
  }

  /** Between the end of a line's text and the next line nothing is open. */
  lemma BetweenLines(x: Scan, next: nat, hs: seq<Span>, t: nat)
    requires Shaped(x) && EndLine(x, next).tags == Tags(hs) && Laid(hs, next) && x.pos <= t
    ensures StyleAt(hs, t) == []
  {
    var open, p :| Shape(x, open, p);
    CloseSpan(x, open, p);
    var closed := Closed(x, open, p);
    LaidApart(closed, x.pos);
    SpansSay(hs, next, t);
    SpansSay(closed, x.pos, t);
    NoStyleBehind(closed, x.pos, t);
  }

  predicate Begun(x: Scan, hs: seq<Span>) {
    x.style == None && x.tags == Tags(hs) && Laid(hs, x.pos)
  }

  lemma BegunShaped(x: Scan, hs: seq<Span>)
    requires Begun(x, hs)
    ensures Shaped(x)
  {
    assert Tags(hs) + [] == Tags(hs);
    assert Shape(x, hs, x.pos);
  }

  /** What one line adds. */
  lemma LineSays(lang: Language, l: LineInput, x: Scan, hs: seq<Span>) returns (hs': seq<Span>)
    requires Leftmost(l.find) && Known(l.find, lang) && StackOk(lang, x.stack) && Begun(x, hs)
    requires LineEnd(lang, l, x) <= l.next
    ensures Begun(OneLine(lang, l, x), hs') && x.pos <= LineEnd(lang, l, x)
  {
    BegunShaped(x, hs);
    hs' := FitForMerging(l.find, lang, x.pos, l.length, x, l.rounds, l.next, hs);
    RoundsGoOn(l.find, lang, x.pos, l.length, x, l.rounds);
  }

  lemma LineSaysAt(lang: Language, l: LineInput, x: Scan, hs: seq<Span>, hs': seq<Span>, t: nat)
    requires Leftmost(l.find) && Known(l.find, lang) && StackOk(lang, x.stack) && Begun(x, hs)
    requires Begun(OneLine(lang, l, x), hs') && x.pos <= LineEnd(lang, l, x)
    ensures t < x.pos ==> StyleAt(hs', t) == StyleAt(hs, t)
    ensures x.pos <= t < LineEnd(lang, l, x) ==>
              StyleAt(hs', t) == Listed(LineColour(l.find, lang, x.pos, l.length, x, l.rounds, t))
    ensures LineEnd(lang, l, x) <= t ==> StyleAt(hs', t) == []
  {
    BegunShaped(x, hs);
    if t < LineEnd(lang, l, x) {
      LineSpans(l.find, lang, x.pos, l.length, x, l.rounds, l.next, hs, hs', t);
    } else {
      RoundsShaped(l.find, lang, x.pos, l.length, x, l.rounds);
      BetweenLines(Rounds(l.find, lang, x.pos, l.length, x, l.rounds).scan, l.next, hs', t);
    }
  }

  /** The tags of the whole text are spans, and say at every place its style. */
  lemma {:induction false} TextSays(lang: Language, lines: seq<LineInput>, x: Scan, hs: seq<Span>, t: nat)
    returns (hs': seq<Span>)
    requires AllKnown(lang, lines) && StackOk(lang, x.stack) && LinesFit(lang, lines, x) && Begun(x, hs)
    ensures Begun(AllLines(lang, lines, x), hs') && x.pos <= AllLines(lang, lines, x).pos
    ensures t < x.pos ==> StyleAt(hs', t) == StyleAt(hs, t)
    ensures x.pos <= t < AllLines(lang, lines, x).pos ==> StyleAt(hs', t) == Listed(TextColour(lang, lines, x, t))
    decreases |lines|
  {
    if lines == [] {
      hs' := hs;
    } else {
      var l := lines[0];
      var hs1 := LineSays(lang, l, x, hs);
      LineSaysAt(lang, l, x, hs, hs1, t);
      hs' := TextSays(lang, lines[1..], OneLine(lang, l, x), hs1, t);
    }
  }

  /**
   The whole way from the matches to the document: where the tags of a text are merged with those of the
   document, every place of the text is inside the same elements of the document as before and, inside these,
   has exactly the style that the matches give it, whatever lines came before.
   */
  lemma TextInDocument(lang: Language, lines: seq<LineInput>, os: seq<Tag>, t: nat) returns (hs: seq<Span>)
    requires AllKnown(lang, lines) && LinesFollow(lines, 0) && Sorted(os)
    requires forall i :: 0 <= i < |lines| ==> Inside(lang, lines[i])
    ensures AllLines(lang, lines, START).tags == Tags(hs) && Apart(hs)
    ensures t < AllLines(lang, lines, START).pos ==>
              Open(Upto(Merge(os, hs), t), [])
              == Within(Open(Upto(os, t), []), Listed(TextColour(lang, lines, START, t)))
  {
    InsideFits(lang, lines, START);
    hs := TextSays(lang, lines, START, [], t);
    LaidApart(hs, AllLines(lang, lines, START).pos);
    MergeKeepsText(os, hs, t, []);
  }
}
