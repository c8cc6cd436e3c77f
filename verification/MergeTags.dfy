/**
 `sh_mergeTags` of doc/sh_main.js. A tag without a node is an end tag; a clone of a node is
 represented by the same value.
 */
module MergeTags {
  import opened Prelude

  type Node = nat

  /** `highlight`: the tag stems from the highlighting, not from the original document. */
  datatype Tag = Tag(node: Option<Node>, pos: nat, highlight: bool)

  /** A highlighted stretch of the text: a start tag and the end tag behind it. */
  datatype Span = Span(node: Node, start: nat, end: nat)

  function StartOf(h: Span): Tag {
    Tag(Some(h.node), h.start, true)
  }

  function EndAt(pos: nat): Tag {
    Tag(None, pos, true)
  }

  function Tags(hs: seq<Span>): seq<Tag> {
    if hs == [] then [] else [StartOf(hs[0]), EndAt(hs[0].end)] + Tags(hs[1..])
  }

  /** The original tags and the spans in one list: a span that an original tag falls into is
      cut in two there. */
  function Merge(os: seq<Tag>, hs: seq<Span>): seq<Tag>
    decreases |os| + |hs|, if os != [] && hs != [] && os[0].pos > hs[0].start then 1 else 0
  {
    if os == [] then Tags(hs)
    else if hs == [] then os
    else if os[0].pos <= hs[0].start then [os[0]] + Merge(os[1..], hs)
    else if hs[0].end <= os[0].pos then [StartOf(hs[0]), EndAt(hs[0].end)] + Merge(os, hs[1..])
    else [StartOf(hs[0]), EndAt(os[0].pos)] + Merge(os, [hs[0].(start := os[0].pos)] + hs[1..])
  }

  // ---------------------------------------------------------------- the loop

  /** Start and end tags by turns, from an even place on. */
  predicate Paired(tags: seq<Tag>) {
    && |tags| % 2 == 0
    && (forall k :: 0 <= k < |tags| ==> tags[k].highlight && (tags[k].node.Some? <==> k % 2 == 0))
  }

  function Spans(tags: seq<Tag>): (hs: seq<Span>)
    requires Paired(tags)
    decreases |tags|
  {
    if tags == [] then [] else [Span(tags[0].node.value, tags[0].pos, tags[1].pos)] + Spans(tags[2..])
  }

  lemma {:induction false} TagsOfSpans(tags: seq<Tag>)
    requires Paired(tags)
    ensures Tags(Spans(tags)) == tags
    decreases |tags|
  {
    if tags != [] {
      TagsOfSpans(tags[2..]);
      assert Spans(tags)[1..] == Spans(tags[2..]);
      assert tags == [tags[0], tags[1]] + tags[2..];
    }
  }

  /** The result so far, and what merging the rest gives, make up the whole. */
  ghost predicate Toward(result: seq<Tag>, os: seq<Tag>, tags: seq<Tag>, whole: seq<Tag>) {
    Paired(tags) && result + Merge(os, Spans(tags)) == whole
  }

  lemma TakeOriginal(result: seq<Tag>, os: seq<Tag>, tags: seq<Tag>, whole: seq<Tag>)
    requires Toward(result, os, tags, whole) && os != [] && tags != [] && os[0].pos <= tags[0].pos
    ensures Toward(result + [os[0]], os[1..], tags, whole)
  {
    Assoc(result, [os[0]], Merge(os[1..], Spans(tags)));
  }

  lemma TakeSpan(result: seq<Tag>, os: seq<Tag>, tags: seq<Tag>, whole: seq<Tag>)
    requires Toward(result, os, tags, whole) && os != [] && tags != [] && tags[1].pos <= os[0].pos
    requires os[0].pos > tags[0].pos
    ensures Toward(result + [tags[0]] + [tags[1]], os, tags[2..], whole)
  {
    var rest := Merge(os, Spans(tags[2..]));
    assert Spans(tags)[1..] == Spans(tags[2..]);
    assert result + ([tags[0], tags[1]] + rest) == result + [tags[0]] + [tags[1]] + rest;
  }

  lemma CutSpan(result: seq<Tag>, os: seq<Tag>, tags: seq<Tag>, whole: seq<Tag>)
    requires Toward(result, os, tags, whole) && os != [] && tags != [] && tags[0].pos < os[0].pos < tags[1].pos
    ensures Toward(result + [tags[0]] + [EndAt(os[0].pos)], os, tags[0 := Tag(tags[0].node, os[0].pos, true)], whole)
  {
    var tags' := tags[0 := Tag(tags[0].node, os[0].pos, true)];
    assert tags'[2..] == tags[2..] && Spans(tags)[1..] == Spans(tags[2..]);
    assert Spans(tags') == [Spans(tags)[0].(start := os[0].pos)] + Spans(tags)[1..];
    var rest := Merge(os, Spans(tags'));
    assert result + ([tags[0], EndAt(os[0].pos)] + rest) == result + [tags[0]] + [EndAt(os[0].pos)] + rest;
  }

  /** The loop of `sh_mergeTags`, which changes the array of highlighting tags when it cuts a
      span. */
  method MergeLoop(originalTags: seq<Tag>, highlightTags: array<Tag>)
    returns (result: seq<Tag>, originalIndex: nat, highlightIndex: nat)
    requires Paired(highlightTags[..])
    modifies highlightTags
    ensures originalIndex <= |originalTags| && highlightIndex <= highlightTags.Length
    ensures originalIndex == |originalTags| || highlightIndex == highlightTags.Length
    ensures Toward(result, originalTags[originalIndex..], highlightTags[highlightIndex..],
                   Merge(originalTags, Spans(old(highlightTags[..]))))
  {
    ghost var whole := Merge(originalTags, Spans(highlightTags[..]));
    result, originalIndex, highlightIndex := [], 0, 0;
    assert [] + whole == whole;
    while originalIndex < |originalTags| && highlightIndex < highlightTags.Length
      invariant originalIndex <= |originalTags| && highlightIndex <= highlightTags.Length
      invariant Toward(result, originalTags[originalIndex..], highlightTags[highlightIndex..], whole)
      decreases |originalTags| - originalIndex + highlightTags.Length - highlightIndex,
                if originalIndex < |originalTags| && highlightIndex < highlightTags.Length
                   && originalTags[originalIndex].pos > highlightTags[highlightIndex].pos then 1 else 0
    {
      var originalTag := originalTags[originalIndex];
      var highlightTag := highlightTags[highlightIndex];
      ghost var os, tags := originalTags[originalIndex..], highlightTags[highlightIndex..];
      if originalTag.pos <= highlightTag.pos {
        TakeOriginal(result, os, tags, whole);
        result := result + [originalTag];
        originalIndex := originalIndex + 1;
      } else {
        assert tags[1] == highlightTags[highlightIndex + 1];
        if highlightTags[highlightIndex + 1].pos <= originalTag.pos {
          TakeSpan(result, os, tags, whole);
          result := result + [highlightTag];
          highlightIndex := highlightIndex + 1;
          result := result + [highlightTags[highlightIndex]];
          highlightIndex := highlightIndex + 1;
        } else {
          CutSpan(result, os, tags, whole);
          result := result + [highlightTag];
          result := result + [EndAt(originalTag.pos)];
          highlightTags[highlightIndex] := Tag(highlightTag.node, originalTag.pos, true);
          assert highlightTags[highlightIndex..] == tags[0 := Tag(tags[0].node, os[0].pos, true)];
        }
      }
    }
  }

  /** When one of the lists is used up the other is what remains. */
  lemma OnlyOneLeft(result: seq<Tag>, os: seq<Tag>, tags: seq<Tag>, whole: seq<Tag>)
    requires Toward(result, os, tags, whole) && (os == [] || tags == [])
    ensures result + os + tags == whole
  {
    TagsOfSpans(tags);
  }

  /** `sh_mergeTags` */
  method MergeTagLists(originalTags: seq<Tag>, highlightTags: array<Tag>) returns (result: seq<Tag>)
    requires Paired(highlightTags[..])
    modifies highlightTags
    ensures result == Merge(originalTags, Spans(old(highlightTags[..])))
  {
    TagsOfSpans(highlightTags[..]);
    if |originalTags| == 0 {
      return highlightTags[..];
    }
    if highlightTags.Length == 0 {
      return originalTags;
    }
    ghost var whole := Merge(originalTags, Spans(highlightTags[..]));
    var originalIndex, highlightIndex;
    result, originalIndex, highlightIndex := MergeLoop(originalTags, highlightTags);
    OnlyOneLeft(result, originalTags[originalIndex..], highlightTags[highlightIndex..], whole);
    assert highlightTags[..][highlightIndex..] == highlightTags[highlightIndex..];
    result := CopyRest(result, originalTags, originalIndex);
    result := CopyRest(result, highlightTags[..], highlightIndex);
  }

  /** The two loops at the end. */
  method CopyRest(before: seq<Tag>, tags: seq<Tag>, from: nat) returns (result: seq<Tag>)
    requires from <= |tags|
    ensures result == before + tags[from..]
  {
    result := before;
    var index := from;
    while index < |tags|
      invariant from <= index <= |tags| && result + tags[index..] == before + tags[from..]
    {
      assert tags[index..] == [tags[index]] + tags[index + 1..];
      result := result + [tags[index]];
      index := index + 1;
    }
  }

  // ---------------------------------------------------------------- what the merged list means

  predicate Sorted(tags: seq<Tag>) {
    forall i, j :: 0 <= i < j < |tags| ==> tags[i].pos <= tags[j].pos
  }

  /** Spans one behind the other, without overlap. */
  predicate Apart(hs: seq<Span>) {
    && (forall i :: 0 <= i < |hs| ==> hs[i].start <= hs[i].end)
    && (forall i, j :: 0 <= i < j < |hs| ==> hs[i].end <= hs[j].start)
  }

  /** The list without the highlighting. */
  function Originals(tags: seq<Tag>): seq<Tag> {
    if tags == [] then [] else (if tags[0].highlight then [] else [tags[0]]) + Originals(tags[1..])
  }

  /** The tags that come before the text at t. */
  function Upto(tags: seq<Tag>, t: nat): seq<Tag> {
    if tags == [] then [] else (if tags[0].pos <= t then [tags[0]] else []) + Upto(tags[1..], t)
  }

  /** The elements that are open after the tags, the innermost last; None if an end tag has
      nothing to end. */
  function Open(tags: seq<Tag>, stack: seq<Node>): Option<seq<Node>>
    decreases |tags|
  {
    if tags == [] then Some(stack)
    else
      match tags[0].node
      case Some(n) => Open(tags[1..], stack + [n])
      case None => if stack == [] then None else Open(tags[1..], stack[..|stack| - 1])
  }

  /** The highlighting of the text at t. */
  function StyleAt(hs: seq<Span>, t: nat): seq<Node> {
    if hs == [] then [] else if hs[0].start <= t < hs[0].end then [hs[0].node] else StyleAt(hs[1..], t)
  }

  /** Nothing comes before p. */
  predicate From(tags: seq<Tag>, p: nat) {
    forall k :: 0 <= k < |tags| ==> tags[k].pos >= p
  }

  lemma {:induction false} TagsFrom(hs: seq<Span>, p: nat)
    requires Apart(hs) && (hs != [] ==> p <= hs[0].start)
    ensures From(Tags(hs), p)
  {
    if hs != [] {
      TagsFrom(hs[1..], hs[0].end);
    }
  }

  lemma {:induction false} MergeFrom(os: seq<Tag>, hs: seq<Span>, p: nat)
    requires Sorted(os) && Apart(hs) && (os != [] ==> p <= os[0].pos) && (hs != [] ==> p <= hs[0].start)
    ensures From(Merge(os, hs), p)
    decreases |os| + |hs|, if os != [] && hs != [] && os[0].pos > hs[0].start then 1 else 0
  {
    if os == [] {
      TagsFrom(hs, p);
    } else if hs == [] {
    } else if os[0].pos <= hs[0].start {
      MergeFrom(os[1..], hs, os[0].pos);
    } else if hs[0].end <= os[0].pos {
      MergeFrom(os, hs[1..], hs[0].end);
    } else {
      MergeFrom(os, [hs[0].(start := os[0].pos)] + hs[1..], os[0].pos);
    }
  }

  lemma SortedInFront(x: Tag, tags: seq<Tag>)
    requires Sorted(tags) && From(tags, x.pos)
    ensures Sorted([x] + tags)
  {}

  lemma SpanInFront(h: Span, tags: seq<Tag>)
    requires Sorted(tags) && From(tags, h.end) && h.start <= h.end
    ensures Sorted([StartOf(h), EndAt(h.end)] + tags)
  {
    SortedInFront(EndAt(h.end), tags);
    SortedInFront(StartOf(h), [EndAt(h.end)] + tags);
    assert [StartOf(h)] + ([EndAt(h.end)] + tags) == [StartOf(h), EndAt(h.end)] + tags;
  }

  lemma {:induction false} TagsSorted(hs: seq<Span>)
    requires Apart(hs)
    ensures Sorted(Tags(hs))
  {
    if hs != [] {
      TagsSorted(hs[1..]);
      TagsFrom(hs[1..], hs[0].end);
      SpanInFront(hs[0], Tags(hs[1..]));
    }
  }

  lemma CutApart(hs: seq<Span>, p: nat)
    requires Apart(hs) && hs != [] && hs[0].start <= p <= hs[0].end
    ensures Apart([hs[0].(start := p)] + hs[1..])
  {}

  /** The merged list is sorted. */
  lemma {:induction false} MergeSorted(os: seq<Tag>, hs: seq<Span>)
    requires Sorted(os) && Apart(hs)
    ensures Sorted(Merge(os, hs))
    decreases |os| + |hs|, if os != [] && hs != [] && os[0].pos > hs[0].start then 1 else 0
  {
    if os == [] {
      TagsSorted(hs);
    } else if hs == [] {
    } else if os[0].pos <= hs[0].start {
      MergeSorted(os[1..], hs);
      MergeFrom(os[1..], hs, os[0].pos);
      SortedInFront(os[0], Merge(os[1..], hs));
    } else if hs[0].end <= os[0].pos {
      MergeSorted(os, hs[1..]);
      MergeFrom(os, hs[1..], hs[0].end);
      SpanInFront(hs[0], Merge(os, hs[1..]));
    } else {
      var p := os[0].pos;
      var hs' := [hs[0].(start := p)] + hs[1..];
      CutApart(hs, p);
      MergeSorted(os, hs');
      MergeFrom(os, hs', p);
      SpanInFront(hs[0].(end := p), Merge(os, hs'));
    }
  }

  lemma SpanGone(h: Span, end: nat, tags: seq<Tag>)
    ensures Originals([StartOf(h), EndAt(end)] + tags) == Originals(tags)
  {
    var s := [StartOf(h), EndAt(end)] + tags;
    assert s[1..] == [EndAt(end)] + tags && s[1..][1..] == tags;
  }

  lemma {:induction false} TagsGone(hs: seq<Span>)
    ensures Originals(Tags(hs)) == []
  {
    if hs != [] {
      TagsGone(hs[1..]);
      SpanGone(hs[0], hs[0].end, Tags(hs[1..]));
    }
  }

  predicate NoHighlight(os: seq<Tag>) {
    forall k :: 0 <= k < |os| ==> !os[k].highlight
  }

  lemma {:induction false} OnlyOriginals(os: seq<Tag>)
    requires NoHighlight(os)
    ensures Originals(os) == os
  {
    if os != [] {
      OnlyOriginals(os[1..]);
    }
  }

  /** The original tags are all there, in their order, and unchanged. */
  lemma {:induction false} MergeKeepsOriginals(os: seq<Tag>, hs: seq<Span>)
    requires NoHighlight(os)
    ensures Originals(Merge(os, hs)) == os
    decreases |os| + |hs|, if os != [] && hs != [] && os[0].pos > hs[0].start then 1 else 0
  {
    if os == [] {
      TagsGone(hs);
    } else if hs == [] {
      OnlyOriginals(os);
    } else if os[0].pos <= hs[0].start {
      MergeKeepsOriginals(os[1..], hs);
      assert ([os[0]] + Merge(os[1..], hs))[1..] == Merge(os[1..], hs);
    } else if hs[0].end <= os[0].pos {
      MergeKeepsOriginals(os, hs[1..]);
      SpanGone(hs[0], hs[0].end, Merge(os, hs[1..]));
    } else {
      var hs' := [hs[0].(start := os[0].pos)] + hs[1..];
      MergeKeepsOriginals(os, hs');
      SpanGone(hs[0], os[0].pos, Merge(os, hs'));
    }
  }

  // ---------------------------------------------------------------- what is open where

  lemma {:induction false} UptoNone(tags: seq<Tag>, p: nat, t: nat)
    requires From(tags, p) && t < p
    ensures Upto(tags, t) == []
  {
    if tags != [] {
      UptoNone(tags[1..], p, t);
    }
  }

  lemma {:induction false} StyleNone(hs: seq<Span>, t: nat)
    requires forall i :: 0 <= i < |hs| ==> t < hs[i].start
    ensures StyleAt(hs, t) == []
  {
    if hs != [] {
      StyleNone(hs[1..], t);
    }
  }

  lemma UptoCons(x: Tag, tags: seq<Tag>, t: nat)
    ensures Upto([x] + tags, t) == (if x.pos <= t then [x] else []) + Upto(tags, t)
  {
    assert ([x] + tags)[1..] == tags;
  }

  lemma UptoSpan(h: Span, tags: seq<Tag>, t: nat)
    ensures Upto([StartOf(h), EndAt(h.end)] + tags, t)
         == (if h.start <= t then [StartOf(h)] else []) + ((if h.end <= t then [EndAt(h.end)] else []) + Upto(tags, t))
  {
    UptoCons(EndAt(h.end), tags, t);
    UptoCons(StartOf(h), [EndAt(h.end)] + tags, t);
    assert [StartOf(h)] + ([EndAt(h.end)] + tags) == [StartOf(h), EndAt(h.end)] + tags;
  }

  /** A whole span opens nothing. */
  lemma OpenSpan(h: Span, tags: seq<Tag>, stack: seq<Node>)
    ensures Open([StartOf(h)] + ([EndAt(h.end)] + tags), stack) == Open(tags, stack)
  {
    var s := [StartOf(h)] + ([EndAt(h.end)] + tags);
    assert s[1..] == [EndAt(h.end)] + tags && s[1..][1..] == tags;
    assert (stack + [h.node])[..|stack + [h.node]| - 1] == stack;
  }

  lemma OpenStart(h: Span, stack: seq<Node>)
    ensures Open([StartOf(h)], stack) == Some(stack + [h.node])
  {
    assert [StartOf(h)][1..] == [];
  }

  function Within(stack: Option<seq<Node>>, inner: seq<Node>): Option<seq<Node>> {
    match stack case None => None case Some(s) => Some(s + inner)
  }

  /** The text at t lies before, in, or behind the first span. */
  lemma SpanThen(h: Span, tags: seq<Tag>, t: nat, stack: seq<Node>)
    requires From(tags, h.end) && h.start <= h.end
    ensures var all := Upto([StartOf(h), EndAt(h.end)] + tags, t);
      && (t < h.start ==> all == [])
      && (h.start <= t < h.end ==> Open(all, stack) == Some(stack + [h.node]))
      && (h.end <= t ==> Open(all, stack) == Open(Upto(tags, t), stack))
  {
    UptoSpan(h, tags, t);
    var rest := Upto(tags, t);
    if t < h.end {
      UptoNone(tags, h.end, t);
      assert [] + ([] + rest) == [] && [StartOf(h)] + ([] + rest) == [StartOf(h)];
      OpenStart(h, stack);
    } else {
      OpenSpan(h, rest, stack);
    }
  }

  lemma OriginalsLater(os: seq<Tag>, t: nat)
    requires Sorted(os) && (os != [] ==> t < os[0].pos)
    ensures Upto(os, t) == []
  {
    if os != [] {
      UptoNone(os, os[0].pos, t);
    }
  }

  lemma {:induction false} TagsOpen(hs: seq<Span>, t: nat, stack: seq<Node>)
    requires Apart(hs)
    ensures Open(Upto(Tags(hs), t), stack) == Some(stack + StyleAt(hs, t))
  {
    if hs == [] {
      assert stack + [] == stack;
    } else {
      TagsOpen(hs[1..], t, stack);
      TagsFrom(hs[1..], hs[0].end);
      SpanThen(hs[0], Tags(hs[1..]), t, stack);
      if t < hs[0].start {
        StyleNone(hs, t);
        assert stack + [] == stack;
      }
    }
  }

  /**
   At every place of the text the same original elements are open as before, and inside them
   exactly the highlighting of that place.
   */
  lemma {:induction false} MergeKeepsText(os: seq<Tag>, hs: seq<Span>, t: nat, stack: seq<Node>)
    requires Sorted(os) && Apart(hs)
    ensures Open(Upto(Merge(os, hs), t), stack) == Within(Open(Upto(os, t), stack), StyleAt(hs, t))
    decreases |os| + |hs|, if os != [] && hs != [] && os[0].pos > hs[0].start then 1 else 0, 1
  {
    if os == [] {
      TagsOpen(hs, t, stack);
    } else if hs == [] {
      WithinNothing(Open(Upto(os, t), stack));
    } else if os[0].pos <= hs[0].start {
      MergeFirst(os, hs, t, stack);
    } else if hs[0].end <= os[0].pos {
      MergeKeepsText(os, hs[1..], t, stack);
      MergeFrom(os, hs[1..], hs[0].end);
      SpanThen(hs[0], Merge(os, hs[1..]), t, stack);
      BeforeEnd(os, hs, hs[0].end, t, stack);
    } else {
      var p := os[0].pos;
      var hs' := [hs[0].(start := p)] + hs[1..];
      CutApart(hs, p);
      MergeKeepsText(os, hs', t, stack);
      MergeFrom(os, hs', p);
      SpanThen(hs[0].(end := p), Merge(os, hs'), t, stack);
      BeforeEnd(os, hs, p, t, stack);
      if t >= p {
        StyleCut(hs, p, t);
      }
    }
  }

  lemma WithinNothing(stack: Option<seq<Node>>)
    ensures Within(stack, []) == stack
  {
    if stack.Some? {
      assert stack.value + [] == stack.value;
    }
  }

  /** Before the first original tag only the first span matters. */
  lemma BeforeEnd(os: seq<Tag>, hs: seq<Span>, p: nat, t: nat, stack: seq<Node>)
    requires Sorted(os) && Apart(hs) && os != [] && hs != [] && hs[0].start <= p <= hs[0].end && p <= os[0].pos
    ensures t < p ==> Open(Upto(os, t), stack) == Some(stack)
    ensures t < hs[0].start ==> StyleAt(hs, t) == [] && Some(stack + []) == Some(stack)
    ensures hs[0].start <= t < p ==> StyleAt(hs, t) == [hs[0].node]
  {
    if t < p {
      OriginalsLater(os, t);
    }
    if t < hs[0].start {
      StyleNone(hs, t);
      assert stack + [] == stack;
    }
  }

  lemma StyleCut(hs: seq<Span>, p: nat, t: nat)
    requires hs != [] && hs[0].start <= p <= t
    ensures StyleAt([hs[0].(start := p)] + hs[1..], t) == StyleAt(hs, t)
  {
    assert ([hs[0].(start := p)] + hs[1..])[1..] == hs[1..];
  }

  lemma MergeFirst(os: seq<Tag>, hs: seq<Span>, t: nat, stack: seq<Node>)
    requires Sorted(os) && Apart(hs) && os != [] && hs != [] && os[0].pos <= hs[0].start
    ensures Open(Upto(Merge(os, hs), t), stack) == Within(Open(Upto(os, t), stack), StyleAt(hs, t))
    decreases |os| + |hs|, 0, 0
  {
    var rest := Merge(os[1..], hs);
    UptoCons(os[0], rest, t);
    UptoCons(os[0], os[1..], t);
    assert [os[0]] + os[1..] == os;
    MergeFrom(os[1..], hs, os[0].pos);
    if t < os[0].pos {
      UptoNone(rest, os[0].pos, t);
      OriginalsLater(os, t);
      StyleNone(hs, t);
      assert stack + [] == stack;
    } else {
      OpenCons(os[0], Upto(rest, t), stack);
      OpenCons(os[0], Upto(os[1..], t), stack);
      match os[0].node {
        case Some(n) => MergeKeepsText(os[1..], hs, t, stack + [n]);
        case None => if stack != [] { MergeKeepsText(os[1..], hs, t, stack[..|stack| - 1]); }
      }
    }
  }

  lemma OpenCons(x: Tag, tags: seq<Tag>, stack: seq<Node>)
    ensures x.node.Some? ==> Open([x] + tags, stack) == Open(tags, stack + [x.node.value])
    ensures x.node == None && stack != [] ==> Open([x] + tags, stack) == Open(tags, stack[..|stack| - 1])
    ensures x.node == None && stack == [] ==> Open([x] + tags, stack) == None
  {
    assert ([x] + tags)[1..] == tags;
  }

  /** The merged tags are balanced if and only if the original ones are. */
  lemma {:induction false} MergeBalanced(os: seq<Tag>, hs: seq<Span>, stack: seq<Node>)
    ensures Open(Merge(os, hs), stack) == Open(os, stack)
    decreases |os| + |hs|, if os != [] && hs != [] && os[0].pos > hs[0].start then 1 else 0
  {
    if os == [] {
      AllClosed(hs, stack);
    } else if hs == [] {
    } else if os[0].pos <= hs[0].start {
      OpenCons(os[0], Merge(os[1..], hs), stack);
      match os[0].node {
        case Some(n) => MergeBalanced(os[1..], hs, stack + [n]);
        case None => if stack != [] { MergeBalanced(os[1..], hs, stack[..|stack| - 1]); }
      }
    } else if hs[0].end <= os[0].pos {
      MergeBalanced(os, hs[1..], stack);
      PairOpensNothing(hs[0], hs[0].end, Merge(os, hs[1..]), stack);
    } else {
      var hs' := [hs[0].(start := os[0].pos)] + hs[1..];
      MergeBalanced(os, hs', stack);
      PairOpensNothing(hs[0], os[0].pos, Merge(os, hs'), stack);
    }
  }

  lemma PairOpensNothing(h: Span, end: nat, tags: seq<Tag>, stack: seq<Node>)
    ensures Open([StartOf(h), EndAt(end)] + tags, stack) == Open(tags, stack)
  {
    OpenSpan(h.(end := end), tags, stack);
    assert [StartOf(h), EndAt(end)] + tags == [StartOf(h)] + ([EndAt(end)] + tags);
  }

  lemma {:induction false} AllClosed(hs: seq<Span>, stack: seq<Node>)
    ensures Open(Tags(hs), stack) == Some(stack)
  {
    if hs != [] {
      AllClosed(hs[1..], stack);
      PairOpensNothing(hs[0], hs[0].end, Tags(hs[1..]), stack);
    }
  }
}
