/**
 What the tags of a highlighted line mean: which style the text has at each place, and which
 environments hold there.
 */
module HighlightColours {
  import opened Prelude
  import opened MergeTags
  import opened Highlighter

  // ---------------------------------------------------------------- environments

  /** The stack after these matches. */
  function Stacks(stack: seq<Pattern>, ps: seq<Pattern>): seq<Pattern> {
    if ps == [] then stack else NextStack(Stacks(stack, ps[..|ps| - 1]), ps[|ps| - 1])
  }

  /** How many more states were entered than left. */
  function Depth(ps: seq<Pattern>): int {
    if ps == [] then 0
    else
      var p := ps[|ps| - 1];
      Depth(ps[..|ps| - 1]) + (if p.next >= 0 then 1 else if p.next == -2 then -1 else 0)
  }

  /** Nothing is left that was not entered, and not all at once. */
  predicate Above(ps: seq<Pattern>) {
    (forall k :: 0 <= k < |ps| ==> -2 <= ps[k].next) && (forall k :: 0 <= k <= |ps| ==> Depth(ps[..k]) >= 0)
  }

  /** Everything that was entered was left again. */
  predicate Nested(ps: seq<Pattern>) {
    Above(ps) && Depth(ps) == 0
  }

  lemma AboveBefore(ps: seq<Pattern>)
    requires Above(ps) && ps != []
    ensures Above(ps[..|ps| - 1])
  {
    var before := ps[..|ps| - 1];
    forall k | 0 <= k <= |before| ensures Depth(before[..k]) >= 0 {
      assert before[..k] == ps[..k];
    }
  }

  /** What was on the stack before stays there. */
  lemma {:induction false} StacksAbove(stack: seq<Pattern>, ps: seq<Pattern>)
    requires Above(ps)
    ensures |Stacks(stack, ps)| == |stack| + Depth(ps) && stack <= Stacks(stack, ps)
  {
    if ps != [] {
      AboveBefore(ps);
      StacksAbove(stack, ps[..|ps| - 1]);
      assert ps[..|ps|] == ps;
    }
  }

  lemma {:induction false} StacksOn(stack: seq<Pattern>, a: seq<Pattern>, b: seq<Pattern>)
    ensures Stacks(stack, a + b) == Stacks(Stacks(stack, a), b)
  {
    if b == [] {
      assert a + b == a;
    } else {
      assert (a + b)[..|a + b| - 1] == a + b[..|b| - 1];
      StacksOn(stack, a, b[..|b| - 1]);
    }
  }

  /**
   From where a state is entered to where it is left, its patterns are those looked for outside
   of what is entered in between, and text without a style of its own has the style of the
   environment. Leaving it restores what was before; leaving all leaves nothing.
   */
  lemma EnvironmentHolds(stack: seq<Pattern>, p: Pattern, ps: seq<Pattern>, leave: Pattern)
    requires p.next >= 0 && Nested(ps)
    ensures StateOf(Stacks(stack, [p] + ps)) == p.next
    ensures p.style.One? ==> Effective(Stacks(stack, [p] + ps), None) == if p.isState then None else p.style.style
    ensures leave.next == -2 ==> Stacks(stack, [p] + ps + [leave]) == stack
    ensures leave.next == -3 ==> Stacks(stack, [p] + ps + [leave]) == []
  {
    assert [p][..0] == [] && Stacks(stack, [p][..0]) == stack;
    assert Stacks(stack, [p]) == stack + [p];
    StacksOn(stack, [p], ps);
    StacksAbove(stack + [p], ps);
    assert ([p] + ps + [leave])[..|ps| + 1] == [p] + ps;
  }

  // ---------------------------------------------------------------- steps that go on in the text

  /** What `here` says of the step that goes beyond t. */
  ghost function Covering(next: Scan -> Line, here: Scan -> Option<Node>, x: Scan, n: nat, t: nat): Option<Node>
    decreases n
  {
    if n == 0 then None
    else
      var l := next(x);
      if t < l.scan.pos then here(x) else if l.ended then None else Covering(next, here, l.scan, n - 1, t)
  }

  /** A reading of the tags: a step leaves a place behind it as it was, and makes one that it goes
      beyond what `here` says. */
  ghost predicate ReadsAt<D>(next: Scan -> Line, fine: Scan -> bool, here: Scan -> Option<Node>,
                             at: Scan -> D, of: Option<Node> -> D, t: nat, x: Scan) {
    var y := next(x).scan;
    && fine(y) && x.pos <= y.pos
    && (t < x.pos ==> at(y) == at(x))
    && (x.pos <= t < y.pos ==> at(y) == of(here(x)))
  }

  ghost predicate Reads<D>(next: Scan -> Line, fine: Scan -> bool, here: Scan -> Option<Node>,
                           at: Scan -> D, of: Option<Node> -> D, t: nat) {
    forall x :: fine(x) ==> ReadsAt(next, fine, here, at, of, t, x)
  }

  lemma {:induction false} ReadsOld<D>(next: Scan -> Line, fine: Scan -> bool, here: Scan -> Option<Node>,
                                       at: Scan -> D, of: Option<Node> -> D, x: Scan, n: nat, t: nat)
    requires Reads(next, fine, here, at, of, t) && fine(x) && t < x.pos
    ensures at(Going(next, x, n).scan) == at(x)
    decreases n
  {
    if n > 0 {
      assert ReadsAt(next, fine, here, at, of, t, x);
      if !next(x).ended {
        ReadsOld(next, fine, here, at, of, next(x).scan, n - 1, t);
      }
    }
  }

  lemma {:induction false} ReadsCovered<D>(next: Scan -> Line, fine: Scan -> bool, here: Scan -> Option<Node>,
                                           at: Scan -> D, of: Option<Node> -> D, x: Scan, n: nat, t: nat)
    requires Reads(next, fine, here, at, of, t) && fine(x) && x.pos <= t < Going(next, x, n).scan.pos
    ensures at(Going(next, x, n).scan) == of(Covering(next, here, x, n, t))
    decreases n
  {
    assert ReadsAt(next, fine, here, at, of, t, x);
    var l := next(x);
    if t < l.scan.pos {
      if !l.ended {
        ReadsOld(next, fine, here, at, of, l.scan, n - 1, t);
      }
    } else {
      ReadsCovered(next, fine, here, at, of, l.scan, n - 1, t);
    }
  }

  lemma {:induction false} GoingOn<D>(next: Scan -> Line, fine: Scan -> bool, here: Scan -> Option<Node>,
                                      at: Scan -> D, of: Option<Node> -> D, x: Scan, n: nat, t: nat)
    requires Reads(next, fine, here, at, of, t) && fine(x)
    ensures x.pos <= Going(next, x, n).scan.pos
    decreases n
  {
    if n > 0 {
      assert ReadsAt(next, fine, here, at, of, t, x);
      if !next(x).ended {
        GoingOn(next, fine, here, at, of, next(x).scan, n - 1, t);
      }
    }
  }

  // ---------------------------------------------------------------- the style at a place

  function Listed(style: Option<Node>): seq<Node> {
    match style case None => [] case Some(n) => [n]
  }

  /** What is open in front of the text at t. */
  function ColourAt(x: Scan, t: nat): Option<seq<Node>> {
    Open(Upto(x.tags, t), [])
  }

  lemma {:induction false} UptoAppend(a: seq<Tag>, b: seq<Tag>, t: nat)
    ensures Upto(a + b, t) == Upto(a, t) + Upto(b, t)
  {
    if a == [] {
      assert a + b == b;
    } else {
      UptoAppend(a[1..], b, t);
      var first := if a[0].pos <= t then [a[0]] else [];
      assert (a + b)[0] == a[0] && (a + b)[1..] == a[1..] + b;
      Assoc(first, Upto(a[1..], t), Upto(b, t));
    }
  }

  lemma {:induction false} OpenAppend(a: seq<Tag>, b: seq<Tag>, stack: seq<Node>)
    ensures Open(a + b, stack) == match Open(a, stack) { case None => None case Some(s) => Open(b, s) }
    decreases |a|
  {
    if a == [] {
      assert a + b == b;
    } else {
      assert (a + b)[1..] == a[1..] + b;
      match a[0].node {
        case Some(n) => OpenAppend(a[1..], b, stack + [n]);
        case None => if stack != [] { OpenAppend(a[1..], b, stack[..|stack| - 1]); }
      }
    }
  }

  lemma {:induction false} NoStyleBehind(hs: seq<Span>, end: nat, t: nat)
    requires (forall k :: 0 <= k < |hs| ==> hs[k].end <= end) && end <= t
    ensures StyleAt(hs, t) == []
  {
    if hs != [] {
      NoStyleBehind(hs[1..], end, t);
    }
  }

  lemma SpansSay(hs: seq<Span>, end: nat, t: nat)
    requires Laid(hs, end)
    ensures Open(Upto(Tags(hs), t), []) == Some(StyleAt(hs, t))
  {
    LaidApart(hs, end);
    TagsOpen(hs, t, []);
    assert [] + StyleAt(hs, t) == StyleAt(hs, t);
  }

  lemma StartOpens(style: Option<Node>, p: nat, t: nat)
    requires style.Some? ==> p <= t
    ensures Open(Upto(StartTags(style, p), t), []) == Some(Listed(style))
  {
    if style.Some? {
      var tags := StartTags(style, p);
      assert tags[1..] == [] && Upto(tags, t) == tags + [] == tags;
      assert [] + [style.value] == [style.value];
    }
  }

  /** Behind the spans that are complete the current style is open, and nothing else. */
  lemma CurrentIsOpen(hs: seq<Span>, end: nat, style: Option<Node>, p: nat, t: nat)
    requires Laid(hs, end) && end <= t && (style.Some? ==> p <= t)
    ensures Open(Upto(Tags(hs) + StartTags(style, p), t), []) == Some(Listed(style))
  {
    LaidApart(hs, end);
    SpansSay(hs, end, t);
    NoStyleBehind(hs, end, t);
    UptoAppend(Tags(hs), StartTags(style, p), t);
    OpenAppend(Upto(Tags(hs), t), Upto(StartTags(style, p), t), []);
    StartOpens(style, p, t);
  }

  /** The text that is put out has its own style or that of the environment. */
  lemma NewColour(x: Scan, length: nat, style: Option<Node>, hs: seq<Span>, p: nat, t: nat)
    requires Shape(x, hs, p) && x.pos <= t && length > 0
    ensures ColourAt(Output(x, length, style), t) == Some(Listed(Effective(x.stack, style)))
  {
    var st := Effective(x.stack, style);
    if x.style == st {
      CurrentIsOpen(hs, if x.style.Some? then p else x.pos, st, p, t);
    } else {
      CloseSpan(x, hs, p);
      CurrentIsOpen(Closed(x, hs, p), x.pos, st, x.pos, t);
    }
  }

  lemma LaterTags(tags: seq<Tag>, more: seq<Tag>, p: nat, t: nat)
    requires From(more, p) && t < p
    ensures Upto(tags + more, t) == Upto(tags, t)
  {
    UptoAppend(tags, more, t);
    UptoNone(more, p, t);
    assert Upto(tags, t) + [] == Upto(tags, t);
  }

  /** The text before it keeps its style. */
  lemma OldColour(x: Scan, length: nat, style: Option<Node>, t: nat)
    requires t < x.pos
    ensures ColourAt(Output(x, length, style), t) == ColourAt(x, t)
  {
    if length > 0 && x.style != Effective(x.stack, style) {
      LaterTags(x.tags, EndTags(x.style, x.pos), x.pos, t);
      LaterTags(x.tags + EndTags(x.style, x.pos), StartTags(Effective(x.stack, style), x.pos), x.pos, t);
    }
  }

  lemma OutputShaped(x: Scan, length: nat, style: Option<Node>)
    requires Shaped(x)
    ensures Shaped(Output(x, length, style))
  {
    var hs, p :| Shape(x, hs, p);
    var hs', p' := OutputShape(x, length, style, hs, p);
  }

  lemma OutputColour(x: Scan, length: nat, style: Option<Node>, t: nat)
    requires Shaped(x) && x.pos <= t < x.pos + length
    ensures ColourAt(Output(x, length, style), t) == Some(Listed(Effective(x.stack, style)))
  {
    var hs, p :| Shape(x, hs, p);
    NewColour(x, length, style, hs, p, t);
  }

  // ---------------------------------------------------------------- a match

  function Total(groups: seq<nat>, k: nat): nat
    requires k <= |groups|
  {
    if k == 0 then 0 else Total(groups, k - 1) + groups[k - 1]
  }

  /** The style of the subexpression that this place of the match belongs to. */
  function GroupStyle(groups: seq<nat>, styles: seq<Option<Node>>, k: nat, d: nat): Option<Node>
    requires k <= |styles| <= |groups|
  {
    if k == 0 then None
    else if d >= Total(groups, k - 1) then styles[k - 1]
    else GroupStyle(groups, styles, k - 1, d)
  }

  lemma {:induction false} GroupsShaped(x: Scan, groups: seq<nat>, styles: seq<Option<Node>>, k: nat)
    requires k <= |styles| <= |groups| && Shaped(x)
    ensures Shaped(OutputGroups(x, groups, styles, k))
  {
    if k > 0 {
      GroupsShaped(x, groups, styles, k - 1);
      OutputShaped(OutputGroups(x, groups, styles, k - 1), groups[k - 1], styles[k - 1]);
    }
  }

  lemma {:induction false} GroupsGo(x: Scan, groups: seq<nat>, styles: seq<Option<Node>>, k: nat)
    requires k <= |styles| <= |groups|
    ensures var y := OutputGroups(x, groups, styles, k);
      y.stack == x.stack && y.pos == x.pos + Total(groups, k)
  {
    if k > 0 {
      GroupsGo(x, groups, styles, k - 1);
    }
  }

  lemma {:induction false} GroupsOld(x: Scan, groups: seq<nat>, styles: seq<Option<Node>>, k: nat, t: nat)
    requires k <= |styles| <= |groups| && Shaped(x) && t < x.pos
    ensures ColourAt(OutputGroups(x, groups, styles, k), t) == ColourAt(x, t)
  {
    if k > 0 {
      GroupsOld(x, groups, styles, k - 1, t);
      GroupsGo(x, groups, styles, k - 1);
      OldColour(OutputGroups(x, groups, styles, k - 1), groups[k - 1], styles[k - 1], t);
    }
  }

  lemma {:induction false} GroupsColour(x: Scan, groups: seq<nat>, styles: seq<Option<Node>>, k: nat, t: nat)
    requires k <= |styles| <= |groups| && Shaped(x) && x.pos <= t < x.pos + Total(groups, k)
    ensures ColourAt(OutputGroups(x, groups, styles, k), t)
         == Some(Listed(Effective(x.stack, GroupStyle(groups, styles, k, t - x.pos))))
  {
    var y := OutputGroups(x, groups, styles, k - 1);
    GroupsGo(x, groups, styles, k - 1);
    GroupsShaped(x, groups, styles, k - 1);
    if t < y.pos {
      GroupsColour(x, groups, styles, k - 1, t);
      OldColour(y, groups[k - 1], styles[k - 1], t);
    } else {
      OutputColour(y, groups[k - 1], styles[k - 1], t);
    }
  }

  /** The style that a pattern gives to a place of its match. */
  function OwnStyle(found: Match, p: Pattern, d: nat): Option<Node>
    requires p.style.Subs? ==> |found.groups| >= |p.style.styles|
  {
    match p.style
    case One(style) => style
    case Subs(styles) => GroupStyle(found.groups, styles, |styles|, d)
  }

  function MatchLength(found: Match, p: Pattern): nat
    requires p.style.Subs? ==> |found.groups| >= |p.style.styles|
  {
    match p.style
    case One(_) => found.length
    case Subs(styles) => Total(found.groups, |styles|)
  }

  /** What a match is put out behind. */
  function Before(x: Scan, at: nat, found: Match): Scan
    requires found.index >= at
  {
    Output(x, found.index - at, None)
  }

  function Matched(x: Scan, found: Match, p: Pattern): Scan
    requires p.style.Subs? ==> |found.groups| >= |p.style.styles|
  {
    match p.style
    case One(style) => Output(x, found.length, style)
    case Subs(styles) => OutputGroups(x, found.groups, styles, |styles|)
  }

  lemma TakeParts(x: Scan, at: nat, found: Match, p: Pattern, t: nat)
    requires found.index >= at && (p.style.Subs? ==> |found.groups| >= |p.style.styles|)
    ensures Take(x, at, found, p).pos == Matched(Before(x, at, found), found, p).pos
    ensures ColourAt(Take(x, at, found, p), t) == ColourAt(Matched(Before(x, at, found), found, p), t)
  {}

  lemma MatchedGoes(x: Scan, found: Match, p: Pattern)
    requires Shaped(x) && (p.style.Subs? ==> |found.groups| >= |p.style.styles|)
    ensures Matched(x, found, p).pos == x.pos + MatchLength(found, p)
  {
    if p.style.Subs? {
      GroupsGo(x, found.groups, p.style.styles, |p.style.styles|);
    }
  }

  lemma MatchedOld(x: Scan, found: Match, p: Pattern, t: nat)
    requires Shaped(x) && (p.style.Subs? ==> |found.groups| >= |p.style.styles|) && t < x.pos
    ensures ColourAt(Matched(x, found, p), t) == ColourAt(x, t)
  {
    match p.style
    case One(style) => OldColour(x, found.length, style, t);
    case Subs(styles) => GroupsOld(x, found.groups, styles, |styles|, t);
  }

  lemma MatchedColour(x: Scan, found: Match, p: Pattern, t: nat)
    requires Shaped(x) && (p.style.Subs? ==> |found.groups| >= |p.style.styles|)
    requires x.pos <= t < x.pos + MatchLength(found, p)
    ensures ColourAt(Matched(x, found, p), t) == Some(Listed(Effective(x.stack, OwnStyle(found, p, t - x.pos))))
  {
    match p.style
    case One(style) => OutputColour(x, found.length, style, t);
    case Subs(styles) => GroupsColour(x, found.groups, styles, |styles|, t);
  }

  /** The style of a place up to the end of a match: plain before it, and in it that of its pattern. */
  function TakenStyle(x: Scan, at: nat, found: Match, p: Pattern, t: nat): Option<Node>
    requires found.index >= at && (p.style.Subs? ==> |found.groups| >= |p.style.styles|)
  {
    var begin := x.pos + (found.index - at);
    Effective(x.stack, if t < begin then None else OwnStyle(found, p, t - begin))
  }

  lemma TakeGoes(x: Scan, at: nat, found: Match, p: Pattern)
    requires Shaped(x) && found.index >= at && (p.style.Subs? ==> |found.groups| >= |p.style.styles|)
    ensures Shaped(Take(x, at, found, p))
    ensures Take(x, at, found, p).pos == x.pos + (found.index - at) + MatchLength(found, p)
  {
    TakeShaped(x, at, found, p);
    OutputShaped(x, found.index - at, None);
    MatchedGoes(Before(x, at, found), found, p);
    TakeParts(x, at, found, p, 0);
  }

  lemma TakeOld(x: Scan, at: nat, found: Match, p: Pattern, t: nat)
    requires Shaped(x) && found.index >= at && (p.style.Subs? ==> |found.groups| >= |p.style.styles|) && t < x.pos
    ensures ColourAt(Take(x, at, found, p), t) == ColourAt(x, t)
  {
    OldColour(x, found.index - at, None, t);
    OutputShaped(x, found.index - at, None);
    MatchedOld(Before(x, at, found), found, p, t);
    TakeParts(x, at, found, p, t);
  }

  lemma TakeColourBefore(x: Scan, at: nat, found: Match, p: Pattern, t: nat)
    requires Shaped(x) && found.index >= at && (p.style.Subs? ==> |found.groups| >= |p.style.styles|)
    requires x.pos <= t < x.pos + (found.index - at)
    ensures ColourAt(Take(x, at, found, p), t) == Some(Listed(TakenStyle(x, at, found, p, t)))
  {
    OutputShaped(x, found.index - at, None);
    OutputColour(x, found.index - at, None, t);
    MatchedOld(Before(x, at, found), found, p, t);
    TakeParts(x, at, found, p, t);
  }

  lemma BeforeKeeps(x: Scan, at: nat, found: Match)
    requires Shaped(x) && found.index >= at
    ensures var y := Before(x, at, found);
      Shaped(y) && y.stack == x.stack && y.pos == x.pos + (found.index - at)
  {
    OutputShaped(x, found.index - at, None);
  }

  lemma TakeColourWithin(x: Scan, at: nat, found: Match, p: Pattern, t: nat)
    requires Shaped(x) && found.index >= at && (p.style.Subs? ==> |found.groups| >= |p.style.styles|)
    requires x.pos + (found.index - at) <= t < x.pos + (found.index - at) + MatchLength(found, p)
    ensures ColourAt(Take(x, at, found, p), t) == Some(Listed(TakenStyle(x, at, found, p, t)))
  {
    BeforeKeeps(x, at, found);
    MatchedColour(Before(x, at, found), found, p, t);
    TakeParts(x, at, found, p, t);
  }

  lemma TakeColour(x: Scan, at: nat, found: Match, p: Pattern, t: nat)
    requires Shaped(x) && found.index >= at && (p.style.Subs? ==> |found.groups| >= |p.style.styles|)
    requires x.pos <= t < x.pos + (found.index - at) + MatchLength(found, p)
    ensures ColourAt(Take(x, at, found, p), t) == Some(Listed(TakenStyle(x, at, found, p, t)))
  {
    if t < x.pos + (found.index - at) {
      TakeColourBefore(x, at, found, p, t);
    } else {
      TakeColourWithin(x, at, found, p, t);
    }
  }

  // ---------------------------------------------------------------- a line

  /** The best match of the round that comes next. */
  ghost function NextBest(find: Finder, lang: Language, start: nat, x: Scan): Option<Best>
    requires Known(find, lang) && StackOk(lang, x.stack) && start <= x.pos
  {
    BestOf(find, StateOf(x.stack), |lang[StateOf(x.stack)]|, x.pos - start)
  }

  /** The style of a place that the next round covers. */
  ghost function RoundColour(find: Finder, lang: Language, start: nat, x: Scan, t: nat): Option<Node>
    requires Leftmost(find) && Known(find, lang) && StackOk(lang, x.stack) && start <= x.pos
  {
    match NextBest(find, lang, start, x)
    case None => Effective(x.stack, None)
    case Some(b) =>
      BestFits(find, lang, StateOf(x.stack), x.pos - start);
      BestIsFound(find, StateOf(x.stack), |lang[StateOf(x.stack)]|, x.pos - start);
      TakenStyle(x, x.pos - start, b.found, lang[StateOf(x.stack)][b.pattern], t)
  }

  ghost function Here(find: Finder, lang: Language, start: nat, t: nat): Scan -> Option<Node>
    requires Leftmost(find) && Known(find, lang)
  {
    (x: Scan) => if StackOk(lang, x.stack) && start <= x.pos then RoundColour(find, lang, start, x, t) else None
  }

  /** The style of a place of the line, which the round that covers it decides. */
  ghost function LineColour(find: Finder, lang: Language, start: nat, length: nat, x: Scan, rounds: nat,
                            t: nat): Option<Node>
    requires Leftmost(find) && Known(find, lang)
  {
    Covering(Advance(find, lang, start, length), Here(find, lang, start, t), x, rounds, t)
  }

  lemma RestColours(find: Finder, lang: Language, start: nat, length: nat, x: Scan, t: nat)
    requires Leftmost(find) && Known(find, lang) && StackOk(lang, x.stack) && start <= x.pos && Shaped(x)
    requires NextBest(find, lang, start, x) == None
    ensures var y := NextLine(find, lang, start, length, x).scan;
      && Shaped(y)
      && (t < x.pos ==> ColourAt(y, t) == ColourAt(x, t))
      && (x.pos <= t < y.pos ==> ColourAt(y, t) == Some(Listed(RoundColour(find, lang, start, x, t))))
  {
    var n := if length > x.pos - start then length - (x.pos - start) else 0;
    assert NextLine(find, lang, start, length, x).scan == Output(x, n, None);
    OutputShaped(x, n, None);
    if t < x.pos {
      OldColour(x, n, None, t);
    } else if t < x.pos + n {
      OutputColour(x, n, None, t);
    }
  }

  /** What a round with a match leads to. */
  lemma TakenIs(find: Finder, lang: Language, start: nat, length: nat, x: Scan)
    requires Leftmost(find) && Known(find, lang) && StackOk(lang, x.stack) && start <= x.pos
    requires NextBest(find, lang, start, x).Some?
    ensures var b := NextBest(find, lang, start, x).value;
      && b.pattern < |lang[StateOf(x.stack)]| && b.found.index >= x.pos - start
      && (lang[StateOf(x.stack)][b.pattern].style.Subs? ==>
            |b.found.groups| >= |lang[StateOf(x.stack)][b.pattern].style.styles|)
      && NextLine(find, lang, start, length, x).scan
         == Take(x, x.pos - start, b.found, lang[StateOf(x.stack)][b.pattern])
  {
    BestFits(find, lang, StateOf(x.stack), x.pos - start);
    BestIsFound(find, StateOf(x.stack), |lang[StateOf(x.stack)]|, x.pos - start);
  }

  lemma TakenGoes(find: Finder, lang: Language, start: nat, length: nat, x: Scan)
    requires Leftmost(find) && Known(find, lang) && StackOk(lang, x.stack) && start <= x.pos && Shaped(x)
    requires NextBest(find, lang, start, x).Some?
    ensures Shaped(NextLine(find, lang, start, length, x).scan)
  {
    TakenIs(find, lang, start, length, x);
    var b := NextBest(find, lang, start, x).value;
    TakeShaped(x, x.pos - start, b.found, lang[StateOf(x.stack)][b.pattern]);
  }

  lemma TakenOld(find: Finder, lang: Language, start: nat, length: nat, x: Scan, t: nat)
    requires Leftmost(find) && Known(find, lang) && StackOk(lang, x.stack) && start <= x.pos && Shaped(x)
    requires NextBest(find, lang, start, x).Some? && t < x.pos
    ensures ColourAt(NextLine(find, lang, start, length, x).scan, t) == ColourAt(x, t)
  {
    TakenIs(find, lang, start, length, x);
    var b := NextBest(find, lang, start, x).value;
    TakeOld(x, x.pos - start, b.found, lang[StateOf(x.stack)][b.pattern], t);
  }

  lemma RoundColourIs(find: Finder, lang: Language, start: nat, x: Scan, b: Best, t: nat)
    requires Leftmost(find) && Known(find, lang) && StackOk(lang, x.stack) && start <= x.pos
    requires NextBest(find, lang, start, x) == Some(b)
    requires b.pattern < |lang[StateOf(x.stack)]| && b.found.index >= x.pos - start
    requires var p := lang[StateOf(x.stack)][b.pattern];
      p.style.Subs? ==> |b.found.groups| >= |p.style.styles|
    ensures RoundColour(find, lang, start, x, t)
         == TakenStyle(x, x.pos - start, b.found, lang[StateOf(x.stack)][b.pattern], t)
  {}

  lemma TakenColour(find: Finder, lang: Language, start: nat, length: nat, x: Scan, t: nat)
    requires Leftmost(find) && Known(find, lang) && StackOk(lang, x.stack) && start <= x.pos && Shaped(x)
    requires NextBest(find, lang, start, x).Some? && x.pos <= t < NextLine(find, lang, start, length, x).scan.pos
    ensures ColourAt(NextLine(find, lang, start, length, x).scan, t)
         == Some(Listed(RoundColour(find, lang, start, x, t)))
  {
    TakenIs(find, lang, start, length, x);
    var b := NextBest(find, lang, start, x).value;
    var p := lang[StateOf(x.stack)][b.pattern];
    RoundColourIs(find, lang, start, x, b, t);
    TakeGoes(x, x.pos - start, b.found, p);
    TakeColour(x, x.pos - start, b.found, p, t);
  }

  lemma RoundColours(find: Finder, lang: Language, start: nat, length: nat, x: Scan, t: nat)
    requires Leftmost(find) && Known(find, lang) && StackOk(lang, x.stack) && start <= x.pos && Shaped(x)
    ensures var y := NextLine(find, lang, start, length, x).scan;
      && Shaped(y)
      && (t < x.pos ==> ColourAt(y, t) == ColourAt(x, t))
      && (x.pos <= t < y.pos ==> ColourAt(y, t) == Some(Listed(RoundColour(find, lang, start, x, t))))
  {
    if NextBest(find, lang, start, x) == None {
      RestColours(find, lang, start, length, x, t);
    } else {
      TakenGoes(find, lang, start, length, x);
      if t < x.pos {
        TakenOld(find, lang, start, length, x, t);
      } else if t < NextLine(find, lang, start, length, x).scan.pos {
        TakenColour(find, lang, start, length, x, t);
      }
    }
  }

  ghost function Fine(lang: Language, start: nat): Scan -> bool {
    (x: Scan) => StackOk(lang, x.stack) && start <= x.pos && Shaped(x)
  }

  ghost function Reader(t: nat): Scan -> Option<seq<Node>> {
    (x: Scan) => ColourAt(x, t)
  }

  ghost function AsOpen(): Option<Node> -> Option<seq<Node>> {
    (style: Option<Node>) => Some(Listed(style))
  }

  lemma ReadsRound(find: Finder, lang: Language, start: nat, length: nat, x: Scan, t: nat)
    requires Leftmost(find) && Known(find, lang) && Fine(lang, start)(x)
    ensures ReadsAt(Advance(find, lang, start, length), Fine(lang, start), Here(find, lang, start, t),
                    Reader(t), AsOpen(), t, x)
  {
    RoundColours(find, lang, start, length, x, t);
  }

  lemma LineReads(find: Finder, lang: Language, start: nat, length: nat, t: nat)
    requires Leftmost(find) && Known(find, lang)
    ensures Reads(Advance(find, lang, start, length), Fine(lang, start), Here(find, lang, start, t),
                  Reader(t), AsOpen(), t)
  {
    forall x | Fine(lang, start)(x)
      ensures ReadsAt(Advance(find, lang, start, length), Fine(lang, start), Here(find, lang, start, t),
                      Reader(t), AsOpen(), t, x)
    {
      ReadsRound(find, lang, start, length, x, t);
    }
  }

  lemma LineOld(find: Finder, lang: Language, start: nat, length: nat, x: Scan, rounds: nat, t: nat)
    requires Leftmost(find) && Known(find, lang) && StackOk(lang, x.stack) && start <= x.pos && Shaped(x) && t < x.pos
    ensures ColourAt(Rounds(find, lang, start, length, x, rounds).scan, t) == ColourAt(x, t)
  {
    LineReads(find, lang, start, length, t);
    ReadsOld(Advance(find, lang, start, length), Fine(lang, start), Here(find, lang, start, t),
             Reader(t), AsOpen(), x, rounds, t);
  }

  /** The tags of a line say at each of its places the style that the matches give it. */
  lemma LineColours(find: Finder, lang: Language, start: nat, length: nat, x: Scan, rounds: nat, t: nat)
    requires Leftmost(find) && Known(find, lang) && StackOk(lang, x.stack) && start <= x.pos && Shaped(x)
    requires x.pos <= t < Rounds(find, lang, start, length, x, rounds).scan.pos
    ensures ColourAt(Rounds(find, lang, start, length, x, rounds).scan, t)
         == Some(Listed(LineColour(find, lang, start, length, x, rounds, t)))
  {
    LineReads(find, lang, start, length, t);
    ReadsCovered(Advance(find, lang, start, length), Fine(lang, start), Here(find, lang, start, t),
                 Reader(t), AsOpen(), x, rounds, t);
  }

  lemma RoundsGoOn(find: Finder, lang: Language, start: nat, length: nat, x: Scan, rounds: nat)
    requires Leftmost(find) && Known(find, lang) && StackOk(lang, x.stack) && start <= x.pos && Shaped(x)
    ensures x.pos <= Rounds(find, lang, start, length, x, rounds).scan.pos
  {
    LineReads(find, lang, start, length, 0);
    GoingOn(Advance(find, lang, start, length), Fine(lang, start), Here(find, lang, start, 0),
            Reader(0), AsOpen(), x, rounds, 0);
  }

  lemma EndLineColours(x: Scan, next: nat, t: nat)
    requires t < x.pos
    ensures ColourAt(EndLine(x, next), t) == ColourAt(x, t)
  {
    LaterTags(x.tags, EndTags(x.style, x.pos), x.pos, t);
  }

  /** The spans that the tags of a line make are those of the styles. */
  lemma LineSpans(find: Finder, lang: Language, start: nat, length: nat, x: Scan, rounds: nat, next: nat,
                  hs: seq<Span>, hs': seq<Span>, t: nat)
    requires Leftmost(find) && Known(find, lang) && StackOk(lang, x.stack) && start <= x.pos
    requires x.style == None && x.tags == Tags(hs) && Laid(hs, x.pos)
    requires EndLine(Rounds(find, lang, start, length, x, rounds).scan, next).tags == Tags(hs') && Laid(hs', next)
    ensures x.pos <= t < Rounds(find, lang, start, length, x, rounds).scan.pos ==>
              StyleAt(hs', t) == Listed(LineColour(find, lang, start, length, x, rounds, t))
    ensures t < x.pos <= Rounds(find, lang, start, length, x, rounds).scan.pos ==> StyleAt(hs', t) == StyleAt(hs, t)
  {
    var y := Rounds(find, lang, start, length, x, rounds).scan;
    SpansSay(hs', next, t);
    SpansSay(hs, x.pos, t);
    assert Tags(hs) + [] == Tags(hs);
    assert Shape(x, hs, x.pos);
    if t < x.pos <= y.pos {
      LineOld(find, lang, start, length, x, rounds, t);
      EndLineColours(y, next, t);
    } else if x.pos <= t < y.pos {
      LineColours(find, lang, start, length, x, rounds, t);
      EndLineColours(y, next, t);
    }
  }

  /**
   From the matches to the document: where the tags of a line are merged with those of the
   document, every place of the line is inside the same elements of the document as before and,
   inside these, has exactly the style that the matches give it; what is in front of the line
   keeps its style.
   */
  lemma LineInDocument(find: Finder, lang: Language, start: nat, length: nat, x: Scan, rounds: nat, next: nat,
                       hs: seq<Span>, os: seq<Tag>, t: nat)
    returns (hs': seq<Span>)
    requires Leftmost(find) && Known(find, lang) && StackOk(lang, x.stack) && start <= x.pos
    requires x.style == None && x.tags == Tags(hs) && Laid(hs, x.pos) && Sorted(os)
    requires Rounds(find, lang, start, length, x, rounds).scan.pos <= next
    ensures EndLine(Rounds(find, lang, start, length, x, rounds).scan, next).tags == Tags(hs')
    ensures x.pos <= t < Rounds(find, lang, start, length, x, rounds).scan.pos ==>
              Open(Upto(Merge(os, hs'), t), [])
              == Within(Open(Upto(os, t), []), Listed(LineColour(find, lang, start, length, x, rounds, t)))
    ensures t < x.pos ==> Open(Upto(Merge(os, hs'), t), []) == Within(Open(Upto(os, t), []), StyleAt(hs, t))
  {
    hs' := FitForMerging(find, lang, start, length, x, rounds, next, hs);
    MergeKeepsText(os, hs', t, []);
    assert Tags(hs) + [] == Tags(hs);
    assert Shape(x, hs, x.pos);
    RoundsGoOn(find, lang, start, length, x, rounds);
    LineSpans(find, lang, start, length, x, rounds, next, hs, hs', t);
  }
}
