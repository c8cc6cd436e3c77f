/**
 `sh_highlightString` of doc/sh_main.js: the text is scanned line by line, at each place for
 the pattern that matches first, and the matches found are cached.

 Regular expressions are abstract: `find(state, i, pos)` is what pattern i of a state finds
 in the line from `pos` on. Nodes stand for styles.
 */
module Highlighter {
  import opened Prelude
  import opened MergeTags

  /** Where it is, how long it is, and how long the subexpressions are. */
  datatype Match = Match(index: nat, length: nat, groups: seq<nat>)

  datatype Style = One(style: Option<Node>) | Subs(styles: seq<Option<Node>>)

  /** `next` is -1 to stay, -2 to leave a state, -3 to leave all, or the state to enter. */
  datatype Pattern = Pattern(style: Style, next: int, isState: bool)

  type Language = seq<seq<Pattern>>

  type Finder = (nat, nat, nat) -> Option<Match>

  /** What a match says depends only on where it is: from every place up to it the same is
      found, and if nothing is found then nothing is found later. */
  ghost predicate Leftmost(find: Finder) {
    && (forall s: nat, i: nat, p: nat :: find(s, i, p).Some? ==> find(s, i, p).value.index >= p)
    && (forall s: nat, i: nat, p: nat, q: nat :: p <= q && find(s, i, p) == None ==> find(s, i, q) == None)
    && (forall s: nat, i: nat, p: nat, q: nat ::
         p <= q && find(s, i, p).Some? && q <= find(s, i, p).value.index ==> find(s, i, q) == find(s, i, p))
  }

  datatype Best = Best(pattern: nat, found: Match)

  /** The first of n patterns that matches earliest, without a cache. */
  function BestOf(find: Finder, s: nat, n: nat, pos: nat): Option<Best> {
    if n == 0 then None
    else
      var best := BestOf(find, s, n - 1, pos);
      match find(s, n - 1, pos)
      case None => best
      case Some(m) => if best == None || m.index < best.value.found.index then Some(Best(n - 1, m)) else best
  }

  /** It is what it is called: nothing matches earlier, and no pattern before it as early. */
  lemma {:induction false} BestIsFirst(find: Finder, s: nat, n: nat, pos: nat)
    ensures BestOf(find, s, n, pos) == None <==> forall j :: 0 <= j < n ==> find(s, j, pos) == None
    ensures var b := BestOf(find, s, n, pos);
      b.Some? ==> b.value.pattern < n && find(s, b.value.pattern, pos) == Some(b.value.found)
    ensures var b := BestOf(find, s, n, pos);
      b.Some? ==> forall j :: 0 <= j < n && find(s, j, pos).Some? && j != b.value.pattern ==>
        b.value.found.index < find(s, j, pos).value.index
        || (b.value.found.index == find(s, j, pos).value.index && b.value.pattern < j)
  {
    if n > 0 {
      BestIsFirst(find, s, n - 1, pos);
    }
  }

  lemma BestIsFound(find: Finder, s: nat, n: nat, pos: nat)
    ensures var b := BestOf(find, s, n, pos);
      b.Some? ==> b.value.pattern < n && find(s, b.value.pattern, pos) == Some(b.value.found)
  {
    BestIsFirst(find, s, n, pos);
  }

  // ---------------------------------------------------------------- the cache

  /** What was found earlier in the line for one pattern can stand for a search from `pos`. */
  predicate Usable(find: Finder, s: nat, i: nat, pos: nat, c: Option<Match>) {
    match c
    case None => find(s, i, pos) == None
    case Some(m) => pos <= m.index ==> find(s, i, pos) == c
  }

  predicate RowOk(find: Finder, s: nat, pos: nat, row: seq<Option<Match>>) {
    forall i :: 0 <= i < |row| ==> Usable(find, s, i, pos, row[i])
  }

  type Cache = map<nat, seq<Option<Match>>>

  predicate CacheOk(find: Finder, pos: nat, cache: Cache) {
    forall s :: s in cache ==> RowOk(find, s, pos, cache[s])
  }

  /** Going on in the line keeps the cache usable. */
  lemma CacheGoesOn(find: Finder, p: nat, q: nat, cache: Cache)
    requires Leftmost(find) && p <= q && CacheOk(find, p, cache)
    ensures CacheOk(find, q, cache)
  {
    forall s | s in cache ensures RowOk(find, s, q, cache[s]) {
      forall i | 0 <= i < |cache[s]| ensures Usable(find, s, i, q, cache[s][i]) {
        assert Usable(find, s, i, p, cache[s][i]);
      }
    }
  }

  /** An early end: what matches right here cannot be beaten by a later pattern. */
  lemma {:induction false} NothingBeats(find: Finder, s: nat, i: nat, n: nat, pos: nat)
    requires Leftmost(find) && i <= n
    requires BestOf(find, s, i, pos).Some? && BestOf(find, s, i, pos).value.found.index == pos
    ensures BestOf(find, s, n, pos) == BestOf(find, s, i, pos)
    decreases n - i
  {
    if i < n {
      assert BestOf(find, s, i + 1, pos) == BestOf(find, s, i, pos);
      NothingBeats(find, s, i + 1, n, pos);
    }
  }

  /** The search through the patterns of one state, with the row of the cache. */
  method Select(find: Finder, s: nat, n: nat, pos: nat, row: seq<Option<Match>>)
    returns (best: Option<Best>, mc: seq<Option<Match>>)
    requires Leftmost(find) && RowOk(find, s, pos, row)
    ensures best == BestOf(find, s, n, pos) && RowOk(find, s, pos, mc)
  {
    best, mc := None, row;
    var i := 0;
    while i < n
      invariant 0 <= i <= n && i <= |mc| && RowOk(find, s, pos, mc)
      invariant best == BestOf(find, s, i, pos)
    {
      var found: Option<Match>;
      if i < |mc| && (mc[i] == None || pos <= mc[i].value.index) {
        found := mc[i];
        assert Usable(find, s, i, pos, mc[i]);
      } else {
        found := find(s, i, pos);
        mc := if i < |mc| then mc[i := found] else mc + [found];
      }
      if found.Some? && (best == None || found.value.index < best.value.found.index) {
        best := Some(Best(i, found.value));
        if found.value.index == pos {
          NothingBeats(find, s, i + 1, n, pos);
          return;
        }
      }
      i := i + 1;
    }
  }

  // ---------------------------------------------------------------- one line

  /** The variables of `sh_highlightString`. */
  datatype Scan = Scan(pos: nat, stack: seq<Pattern>, style: Option<Node>, tags: seq<Tag>)

  /** The style of an environment holds where no pattern gives one. */
  function Effective(stack: seq<Pattern>, style: Option<Node>): Option<Node> {
    if style.Some? || stack == [] then style
    else
      var p := stack[|stack| - 1];
      if !p.isState && p.style.One? then p.style.style else None
  }

  function EndTags(style: Option<Node>, pos: nat): seq<Tag> {
    if style.Some? then [EndAt(pos)] else []
  }

  function StartTags(style: Option<Node>, pos: nat): seq<Tag> {
    if style.Some? then [Tag(style, pos, true)] else []
  }

  /** `output` of that much text. */
  function Output(x: Scan, length: nat, style: Option<Node>): Scan {
    if length == 0 then x
    else
      var st := Effective(x.stack, style);
      var tags := if x.style == st then x.tags else x.tags + EndTags(x.style, x.pos) + StartTags(st, x.pos);
      Scan(x.pos + length, x.stack, st, tags)
  }

  function OutputGroups(x: Scan, groups: seq<nat>, styles: seq<Option<Node>>, k: nat): Scan
    requires k <= |styles| <= |groups|
  {
    if k == 0 then x else Output(OutputGroups(x, groups, styles, k - 1), groups[k - 1], styles[k - 1])
  }

  /** Patterns that exist and enter states that exist, and matches with all subexpressions. */
  ghost predicate Known(find: Finder, lang: Language) {
    && lang != []
    && (forall s: nat, i: nat :: PatternFits(lang, s, i))
    && (forall s: nat, i: nat, p: nat :: MatchFits(find, lang, s, i, p))
  }

  predicate PatternFits(lang: Language, s: nat, i: nat) {
    s < |lang| && i < |lang[s]| ==> PatternOk(lang, lang[s][i])
  }

  predicate MatchFits(find: Finder, lang: Language, s: nat, i: nat, p: nat) {
    s < |lang| && i < |lang[s]| && lang[s][i].style.Subs? && find(s, i, p).Some? ==>
      |find(s, i, p).value.groups| >= |lang[s][i].style.styles|
  }

  /** The best match, and what it needs to be taken. */
  lemma BestFits(find: Finder, lang: Language, s: nat, pos: nat)
    requires Known(find, lang) && s < |lang|
    ensures var b := BestOf(find, s, |lang[s]|, pos);
      b.Some? ==>
        && b.value.pattern < |lang[s]| && PatternOk(lang, lang[s][b.value.pattern])
        && (lang[s][b.value.pattern].style.Subs? ==>
              |b.value.found.groups| >= |lang[s][b.value.pattern].style.styles|)
  {
    BestIsFound(find, s, |lang[s]|, pos);
    var b := BestOf(find, s, |lang[s]|, pos);
    if b.Some? {
      assert PatternFits(lang, s, b.value.pattern) && MatchFits(find, lang, s, b.value.pattern, pos);
    }
  }

  predicate PatternOk(lang: Language, p: Pattern) {
    -3 <= p.next < |lang|
  }

  /** What is on the stack was entered. */
  predicate StackOk(lang: Language, stack: seq<Pattern>) {
    forall k :: 0 <= k < |stack| ==> 0 <= stack[k].next < |lang|
  }

  function StateOf(stack: seq<Pattern>): int {
    if stack == [] then 0 else stack[|stack| - 1].next
  }

  function NextStack(stack: seq<Pattern>, p: Pattern): seq<Pattern> {
    if p.next == -1 then stack
    else if p.next == -2 then (if stack == [] then [] else stack[..|stack| - 1])
    else if p.next == -3 then []
    else stack + [p]
  }

  /** The text up to the match, the match, and the state that comes then. */
  function Take(x: Scan, at: nat, found: Match, p: Pattern): Scan
    requires p.style.Subs? ==> |found.groups| >= |p.style.styles|
  {
    var x1 := if found.index > at then Output(x, found.index - at, None) else x;
    var x2 := match p.style
      case One(style) => Output(x1, found.length, style)
      case Subs(styles) => OutputGroups(x1, found.groups, styles, |styles|);
    x2.(stack := NextStack(x.stack, p))
  }

  datatype Line = Line(scan: Scan, ended: bool)

  lemma {:induction false} GroupsKeep(x: Scan, groups: seq<nat>, styles: seq<Option<Node>>, k: nat)
    requires k <= |styles| <= |groups|
    ensures OutputGroups(x, groups, styles, k).stack == x.stack && OutputGroups(x, groups, styles, k).pos >= x.pos
  {
    if k > 0 {
      GroupsKeep(x, groups, styles, k - 1);
    }
  }

  lemma TakeKeeps(lang: Language, x: Scan, at: nat, found: Match, p: Pattern)
    requires StackOk(lang, x.stack) && PatternOk(lang, p) && (p.style.Subs? ==> |found.groups| >= |p.style.styles|)
    ensures StackOk(lang, Take(x, at, found, p).stack) && Take(x, at, found, p).pos >= x.pos
  {
    var x1 := if found.index > at then Output(x, found.index - at, None) else x;
    if p.style.Subs? {
      GroupsKeep(x1, found.groups, p.style.styles, |p.style.styles|);
    }
  }

  /** The rest of the line, if nothing matches any more. */
  function Remainder(x: Scan, start: nat, length: nat): Scan
    requires start <= x.pos
  {
    if length > x.pos - start then Output(x, length - (x.pos - start), None) else x
  }

  /** One round of the loop over a line of that length which begins at `start`: it takes the
      best match, and ends the line if there is none. */
  ghost function OneRound(find: Finder, lang: Language, start: nat, length: nat, x: Scan, best: Option<Best>): (r: Line)
    requires Known(find, lang) && StackOk(lang, x.stack) && start <= x.pos
    requires best == BestOf(find, StateOf(x.stack), |lang[StateOf(x.stack)]|, x.pos - start)
    ensures StackOk(lang, r.scan.stack) && x.pos <= r.scan.pos
  {
    match best
    case None => Line(Remainder(x, start, length), true)
    case Some(b) =>
      BestFits(find, lang, StateOf(x.stack), x.pos - start);
      TakeKeeps(lang, x, x.pos - start, b.found, lang[StateOf(x.stack)][b.pattern]);
      Line(Take(x, x.pos - start, b.found, lang[StateOf(x.stack)][b.pattern]), false)
  }

  /** One round, with the uncached search. */
  ghost function NextLine(find: Finder, lang: Language, start: nat, length: nat, x: Scan): (r: Line)
    requires Known(find, lang) && StackOk(lang, x.stack) && start <= x.pos
    ensures StackOk(lang, r.scan.stack) && x.pos <= r.scan.pos
  {
    OneRound(find, lang, start, length, x, BestOf(find, StateOf(x.stack), |lang[StateOf(x.stack)]|, x.pos - start))
  }

  /** The rounds as steps. */
  ghost function Advance(find: Finder, lang: Language, start: nat, length: nat): Scan -> Line
    requires Known(find, lang)
  {
    (x: Scan) =>
      if StackOk(lang, x.stack) && start <= x.pos then NextLine(find, lang, start, length, x) else Line(x, true)
  }

  /** Up to n steps, none after one that ends the line. */
  ghost function Going(next: Scan -> Line, x: Scan, n: nat): Line
    decreases n
  {
    if n == 0 then Line(x, false)
    else
      var l := next(x);
      if l.ended then l else Going(next, l.scan, n - 1)
  }

  /** Some rounds, with the uncached search. */
  ghost function Rounds(find: Finder, lang: Language, start: nat, length: nat, x: Scan, rounds: nat): Line
    requires Known(find, lang) && StackOk(lang, x.stack) && start <= x.pos
  {
    Going(Advance(find, lang, start, length), x, rounds)
  }

  /** Where the loop is: what the cache holds can be used, and the rounds that are left lead
      to the whole. */
  ghost predicate Right(find: Finder, lang: Language, start: nat, length: nat, line: Line,
                        cache: Cache, n: nat, whole: Line)
    requires Known(find, lang)
  {
    && StackOk(lang, line.scan.stack) && start <= line.scan.pos && CacheOk(find, line.scan.pos - start, cache)
    && whole == if line.ended then line else Rounds(find, lang, start, length, line.scan, n)
  }

  lemma FirstRound(find: Finder, lang: Language, start: nat, length: nat, x: Scan, n: nat)
    requires Known(find, lang) && StackOk(lang, x.stack) && start <= x.pos
    ensures Right(find, lang, start, length, Line(x, false), map[], n, Rounds(find, lang, start, length, x, n))
  {}

  lemma LastRound(find: Finder, lang: Language, start: nat, length: nat, line: Line, cache: Cache, n: nat, whole: Line)
    requires Known(find, lang) && Right(find, lang, start, length, line, cache, n, whole) && (line.ended || n == 0)
    ensures whole == line
  {}

  /** What a round with the right match leads to. */
  lemma RoundLeads(find: Finder, lang: Language, start: nat, length: nat, before: Line, cache: Cache,
                   n: nat, whole: Line, best: Option<Best>, line: Line, after: Cache)
    requires Known(find, lang) && Right(find, lang, start, length, before, cache, n + 1, whole) && !before.ended
    requires var x := before.scan; best == BestOf(find, StateOf(x.stack), |lang[StateOf(x.stack)]|, x.pos - start)
    requires line == OneRound(find, lang, start, length, before.scan, best)
    requires Leftmost(find) && CacheOk(find, before.scan.pos - start, after)
    ensures Right(find, lang, start, length, line, after, n, whole)
  {
    CacheGoesOn(find, before.scan.pos - start, line.scan.pos - start, after);
  }

  /** One round, with the cache. */
  method Round(find: Finder, lang: Language, start: nat, length: nat, before: Line, cache: Cache,
               ghost n: nat, ghost whole: Line)
    returns (line: Line, after: Cache)
    requires Leftmost(find) && Known(find, lang) && Right(find, lang, start, length, before, cache, n + 1, whole)
    requires !before.ended
    ensures Right(find, lang, start, length, line, after, n, whole)
  {
    var x := before.scan;
    var best;
    best, after := CachedSelect(find, StateOf(x.stack), |lang[StateOf(x.stack)]|, x.pos - start, cache);
    line := TakeBest(find, lang, start, length, x, best);
    RoundLeads(find, lang, start, length, before, cache, n, whole, best, line, after);
  }

  /** The best match is taken, or the rest of the line. */
  method TakeBest(find: Finder, lang: Language, start: nat, length: nat, x: Scan, best: Option<Best>)
    returns (line: Line)
    requires Known(find, lang) && StackOk(lang, x.stack) && start <= x.pos
    requires best == BestOf(find, StateOf(x.stack), |lang[StateOf(x.stack)]|, x.pos - start)
    ensures line == OneRound(find, lang, start, length, x, best)
  {
    if best == None {
      line := Line(Remainder(x, start, length), true);
    } else {
      BestFits(find, lang, StateOf(x.stack), x.pos - start);
      line := Line(Take(x, x.pos - start, best.value.found, lang[StateOf(x.stack)][best.value.pattern]), false);
    }
  }

  /** The loop over one line, with its cache: the tags and states are those of the uncached
      search. It does not end by itself if empty matches go round, so rounds are counted. */
  method HighlightLine(find: Finder, lang: Language, start: nat, length: nat, before: Scan, rounds: nat)
    returns (line: Line)
    requires Leftmost(find) && Known(find, lang) && StackOk(lang, before.stack) && start <= before.pos
    ensures line == Rounds(find, lang, start, length, before, rounds)
  {
    FirstRound(find, lang, start, length, before, rounds);
    ghost var whole := Rounds(find, lang, start, length, before, rounds);
    line := LineLoop(find, lang, start, length, Line(before, false), rounds, whole);
  }

  method LineLoop(find: Finder, lang: Language, start: nat, length: nat, before: Line, rounds: nat, ghost whole: Line)
    returns (line: Line)
    requires Leftmost(find) && Known(find, lang) && Right(find, lang, start, length, before, map[], rounds, whole)
    ensures line == whole
  {
    var cache: Cache, n := map[], rounds;
    line := before;
    while n > 0 && !line.ended
      invariant Right(find, lang, start, length, line, cache, n, whole)
      decreases n
    {
      n := n - 1;
      line, cache := Round(find, lang, start, length, line, cache, n, whole);
    }
    LastRound(find, lang, start, length, line, cache, n, whole);
  }

  /** The search for one state, whose row of the cache is made when it is first needed. */
  method CachedSelect(find: Finder, s: nat, n: nat, pos: nat, cache: Cache) returns (best: Option<Best>, after: Cache)
    requires Leftmost(find) && CacheOk(find, pos, cache)
    ensures best == BestOf(find, s, n, pos) && CacheOk(find, pos, after)
  {
    var row := if s in cache then cache[s] else [];
    var mc;
    best, mc := Select(find, s, n, pos, row);
    after := cache[s := mc];
  }

  // ---------------------------------------------------------------- the tags that come out

  /** Spans one behind the other up to `end`, none of them empty. */
  predicate Laid(hs: seq<Span>, end: nat) {
    hs == [] ||
    var last := hs[|hs| - 1];
    last.start < last.end <= end && Laid(hs[..|hs| - 1], last.start)
  }

  /** The tags are those of spans, and of one that begins at p as long as there is a style. */
  predicate Shape(x: Scan, hs: seq<Span>, p: nat) {
    && x.tags == Tags(hs) + StartTags(x.style, p)
    && Laid(hs, if x.style.Some? then p else x.pos)
    && (x.style.Some? ==> p < x.pos)
  }

  lemma Further(hs: seq<Span>, a: nat, b: nat)
    requires Laid(hs, a) && a <= b
    ensures Laid(hs, b)
  {}

  lemma LaidSnoc(hs: seq<Span>, h: Span, end: nat)
    requires Laid(hs, h.start) && h.start < h.end <= end
    ensures Laid(hs + [h], end)
  {
    assert (hs + [h])[..|hs|] == hs;
  }

  lemma {:induction false} TagsSnoc(hs: seq<Span>, h: Span)
    ensures Tags(hs + [h]) == Tags(hs) + [StartOf(h), EndAt(h.end)]
  {
    if hs == [] {
      assert hs + [h] == [h] && [h][1..] == [];
    } else {
      assert (hs + [h])[1..] == hs[1..] + [h];
      TagsSnoc(hs[1..], h);
      Assoc([StartOf(hs[0]), EndAt(hs[0].end)], Tags(hs[1..]), [StartOf(h), EndAt(h.end)]);
    }
  }

  function Closed(x: Scan, hs: seq<Span>, p: nat): seq<Span> {
    match x.style case None => hs case Some(n) => hs + [Span(n, p, x.pos)]
  }

  /** Where a style ends, its span is complete. */
  lemma CloseSpan(x: Scan, hs: seq<Span>, p: nat)
    requires Shape(x, hs, p)
    ensures x.tags + EndTags(x.style, x.pos) == Tags(Closed(x, hs, p)) && Laid(Closed(x, hs, p), x.pos)
  {
    match x.style {
      case None =>
        assert x.tags + [] == Tags(hs) + [] == Tags(hs);
      case Some(n) =>
        var h := Span(n, p, x.pos);
        TagsSnoc(hs, h);
        LaidSnoc(hs, h, x.pos);
        assert Tags(hs) + [StartOf(h)] + [EndAt(h.end)] == Tags(hs) + [StartOf(h), EndAt(h.end)];
    }
  }

  lemma OutputShape(x: Scan, length: nat, style: Option<Node>, hs: seq<Span>, p: nat) returns (hs': seq<Span>, p': nat)
    requires Shape(x, hs, p)
    ensures Shape(Output(x, length, style), hs', p')
  {
    hs', p' := hs, p;
    if length > 0 {
      if x.style != Effective(x.stack, style) {
        CloseSpan(x, hs, p);
        hs', p' := Closed(x, hs, p), x.pos;
        Further(hs', x.pos, x.pos + length);
      } else if x.style == None {
        Further(hs, x.pos, x.pos + length);
      }
    }
  }

  lemma {:induction false} GroupsShape(x: Scan, groups: seq<nat>, styles: seq<Option<Node>>, k: nat,
                                       hs: seq<Span>, p: nat)
    returns (hs': seq<Span>, p': nat)
    requires k <= |styles| <= |groups| && Shape(x, hs, p)
    ensures Shape(OutputGroups(x, groups, styles, k), hs', p')
  {
    hs', p' := hs, p;
    if k > 0 {
      hs', p' := GroupsShape(x, groups, styles, k - 1, hs, p);
      hs', p' := OutputShape(OutputGroups(x, groups, styles, k - 1), groups[k - 1], styles[k - 1], hs', p');
    }
  }

  lemma TakeShape(x: Scan, at: nat, found: Match, pattern: Pattern, hs: seq<Span>, p: nat)
    returns (hs': seq<Span>, p': nat)
    requires Shape(x, hs, p) && (pattern.style.Subs? ==> |found.groups| >= |pattern.style.styles|)
    ensures Shape(Take(x, at, found, pattern), hs', p')
  {
    var x1 := x;
    hs', p' := hs, p;
    if found.index > at {
      x1 := Output(x, found.index - at, None);
      hs', p' := OutputShape(x, found.index - at, None, hs, p);
    }
    match pattern.style {
      case One(style) => hs', p' := OutputShape(x1, found.length, style, hs', p');
      case Subs(styles) => hs', p' := GroupsShape(x1, found.groups, styles, |styles|, hs', p');
    }
  }

  lemma RemainderShape(x: Scan, start: nat, length: nat, hs: seq<Span>, p: nat) returns (hs': seq<Span>, p': nat)
    requires Shape(x, hs, p) && start <= x.pos
    ensures Shape(Remainder(x, start, length), hs', p')
  {
    hs', p' := OutputShape(x, if length > x.pos - start then length - (x.pos - start) else 0, None, hs, p);
  }

  /** The tags are those of some spans. */
  ghost predicate Shaped(x: Scan) {
    exists hs, p :: Shape(x, hs, p)
  }

  lemma RemainderShaped(x: Scan, start: nat, length: nat)
    requires Shaped(x) && start <= x.pos
    ensures Shaped(Remainder(x, start, length))
  {
    var hs, p :| Shape(x, hs, p);
    var hs', p' := RemainderShape(x, start, length, hs, p);
  }

  lemma TakeShaped(x: Scan, at: nat, found: Match, pattern: Pattern)
    requires Shaped(x) && (pattern.style.Subs? ==> |found.groups| >= |pattern.style.styles|)
    ensures Shaped(Take(x, at, found, pattern))
  {
    var hs, p :| Shape(x, hs, p);
    var hs', p' := TakeShape(x, at, found, pattern, hs, p);
  }

  lemma OneRoundShaped(find: Finder, lang: Language, start: nat, length: nat, x: Scan, best: Option<Best>, l: Line)
    requires Known(find, lang) && StackOk(lang, x.stack) && start <= x.pos && Shaped(x)
    requires best == BestOf(find, StateOf(x.stack), |lang[StateOf(x.stack)]|, x.pos - start)
    requires l == OneRound(find, lang, start, length, x, best)
    ensures Shaped(l.scan)
  {
    match best
    case None => RemainderShaped(x, start, length);
    case Some(b) =>
      BestFits(find, lang, StateOf(x.stack), x.pos - start);
      TakeShaped(x, x.pos - start, b.found, lang[StateOf(x.stack)][b.pattern]);
  }

  /** Every step stays among these. */
  ghost predicate Kept(next: Scan -> Line, among: iset<Scan>) {
    forall x :: x in among ==> next(x).scan in among
  }

  /** Then any number of steps does. */
  lemma {:induction false} GoingKept(next: Scan -> Line, x: Scan, n: nat, among: iset<Scan>)
    requires Kept(next, among) && x in among
    ensures Going(next, x, n).scan in among
    decreases n
  {
    if n > 0 && !next(x).ended {
      GoingKept(next, next(x).scan, n - 1, among);
    }
  }

  lemma StepShaped(find: Finder, lang: Language, start: nat, length: nat, x: Scan)
    requires Known(find, lang) && Shaped(x)
    ensures Shaped(Advance(find, lang, start, length)(x).scan)
  {
    if StackOk(lang, x.stack) && start <= x.pos {
      var best := BestOf(find, StateOf(x.stack), |lang[StateOf(x.stack)]|, x.pos - start);
      OneRoundShaped(find, lang, start, length, x, best, NextLine(find, lang, start, length, x));
    }
  }

  lemma RoundsShaped(find: Finder, lang: Language, start: nat, length: nat, x: Scan, rounds: nat)
    requires Known(find, lang) && StackOk(lang, x.stack) && start <= x.pos && Shaped(x)
    ensures Shaped(Rounds(find, lang, start, length, x, rounds).scan)
  {
    var among := iset y | Shaped(y);
    forall y | y in among ensures Advance(find, lang, start, length)(y).scan in among {
      StepShaped(find, lang, start, length, y);
    }
    GoingKept(Advance(find, lang, start, length), x, rounds, among);
  }

  /** The end of a line. */
  function EndLine(x: Scan, startOfNextLine: nat): Scan {
    Scan(startOfNextLine, x.stack, None, x.tags + EndTags(x.style, x.pos))
  }

  lemma {:induction false} LaidApart(hs: seq<Span>, end: nat)
    requires Laid(hs, end)
    ensures Apart(hs) && (forall k :: 0 <= k < |hs| ==> hs[k].start < hs[k].end <= end)
  {
    if hs != [] {
      LaidApart(hs[..|hs| - 1], hs[|hs| - 1].start);
    }
  }

  lemma {:induction false} SpansOfTags(hs: seq<Span>)
    ensures Paired(Tags(hs)) && Spans(Tags(hs)) == hs
  {
    if hs != [] {
      SpansOfTags(hs[1..]);
      var rest := Tags(hs[1..]);
      assert Tags(hs)[2..] == rest;
      assert forall k :: 2 <= k < |Tags(hs)| ==> Tags(hs)[k] == rest[k - 2];
      assert [hs[0]] + hs[1..] == hs;
    }
  }

  lemma LineCloses(l: Scan, next: nat) returns (hs: seq<Span>)
    requires Shaped(l) && l.pos <= next
    ensures EndLine(l, next).tags == Tags(hs) && Laid(hs, next)
  {
    var open, p :| Shape(l, open, p);
    CloseSpan(l, open, p);
    hs := Closed(l, open, p);
    Further(hs, l.pos, next);
  }

  /**
   What a highlighted line adds keeps the tags what `sh_mergeTags` asks for: pairs that do not
   overlap, none of them empty. `hs` are the spans of the lines before.
   */
  lemma FitForMerging(find: Finder, lang: Language, start: nat, length: nat, x: Scan,
                      rounds: nat, next: nat, hs: seq<Span>)
    returns (hs': seq<Span>)
    requires Known(find, lang) && StackOk(lang, x.stack) && start <= x.pos
    requires x.style == None && x.tags == Tags(hs) && Laid(hs, x.pos)
    requires Rounds(find, lang, start, length, x, rounds).scan.pos <= next
    ensures var y := EndLine(Rounds(find, lang, start, length, x, rounds).scan, next);
      && y.style == None && y.tags == Tags(hs') && Laid(hs', y.pos)
      && Paired(y.tags) && Spans(y.tags) == hs' && Apart(hs')
  {
    assert Tags(hs) + [] == Tags(hs);
    assert Shape(x, hs, x.pos);
    RoundsShaped(find, lang, start, length, x, rounds);
    hs' := LineCloses(Rounds(find, lang, start, length, x, rounds).scan, next);
    LaidApart(hs', next);
    SpansOfTags(hs');
  }
}
