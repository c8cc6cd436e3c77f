/** `stringify` and `parse` of lib/querystring.js, with the separators & and =. */
module QueryString {
  import opened Prelude
  import opened Utf8
  import opened UriComponent

  const AMPERSAND: Scalar := 38
  const EQUALS: Scalar := 61
  const PLUS: Scalar := 43

  /** What a key has: a string, or an array of strings. */
  datatype Value = One(text: Text) | Many(texts: seq<Text>)

  datatype Entry = Entry(key: Text, value: Value)

  type Object = map<Text, Value>

  /** "__proto__": a string assigned to it is not stored. */
  const PROTO: Text := [95, 95, 112, 114, 111, 116, 111, 95, 95]

  // ---------------------------------------------------------------- stringify

  function Join(items: seq<Text>): Text {
    if items == [] then []
    else if |items| == 1 then items[0]
    else items[0] + [AMPERSAND] + Join(items[1..])
  }

  function Item(key: Text, v: Text): Text {
    Escape(key) + [EQUALS] + Escape(v)
  }

  function ItemsOf(key: Text, vs: seq<Text>): seq<Text> {
    seq(|vs|, i requires 0 <= i < |vs| => Item(key, vs[i]))
  }

  /** The outer callback of `map`. */
  function EntryText(e: Entry): Text {
    match e.value
    case One(v) => Item(e.key, v)
    case Many(vs) => Join(ItemsOf(e.key, vs))
  }

  function EntryTexts(es: seq<Entry>): seq<Text> {
    seq(|es|, i requires 0 <= i < |es| => EntryText(es[i]))
  }

  /** `stringify` of an object whose keys come in this order. */
  function Stringify(es: seq<Entry>): Text {
    Join(EntryTexts(es))
  }

  // ---------------------------------------------------------------- parse

  /** `split` at one character. */
  function Split(s: Text, sep: Scalar): (r: seq<Text>)
    ensures r != []
  {
    if s == [] then [[]]
    else if s[0] == sep then [[]] + Split(s[1..], sep)
    else
      var rest := Split(s[1..], sep);
      [[s[0]] + rest[0]] + rest[1..]
  }

  function ReplacePlus(s: Text): Text {
    if s == [] then [] else (if s[0] == PLUS then [PERCENT, 50, 48] else [s[0]]) + ReplacePlus(s[1..])
  }

  function IndexOf(s: Text, c: Scalar): (r: int)
    ensures -1 <= r < |s|
    ensures r >= 0 ==> s[r] == c && c !in s[..r]
    ensures r < 0 ==> c !in s
  {
    if s == [] then -1
    else if s[0] == c then 0
    else
      var r := IndexOf(s[1..], c);
      if r < 0 then -1 else r + 1
  }

  datatype Pair = Pair(key: Text, value: Text)

  /** The two sides of the first =. */
  function Sides(x: Text): Pair {
    var idx := IndexOf(x, EQUALS);
    if idx >= 0 then Pair(x[..idx], x[idx + 1..]) else Pair(x, [])
  }

  /** Both are decoded, or if one cannot be, both are unescaped. */
  function Decoded(p: Pair): Pair {
    match (DecodeComponent(p.key), DecodeComponent(p.value))
    case (Some(k), Some(v)) => Pair(k, v)
    case _ => Pair(Unescape(p.key, true), Unescape(p.value, true))
  }

  function ParsePair(piece: Text): Pair {
    Decoded(Sides(ReplacePlus(piece)))
  }

  /** `obj[k] = v`, and what comes before it. */
  function Add(obj: Object, p: Pair): Object {
    if p.key == PROTO then obj
    else if p.key !in obj then obj[p.key := One(p.value)]
    else
      match obj[p.key]
      case One(first) => obj[p.key := Many([first, p.value])]
      case Many(vs) => obj[p.key := Many(vs + [p.value])]
  }

  function AddAll(obj: Object, pieces: seq<Text>): Object {
    if pieces == [] then obj else Add(AddAll(obj, pieces[..|pieces| - 1]), ParsePair(pieces[|pieces| - 1]))
  }

  function Limited(pieces: seq<Text>, maxKeys: int): seq<Text> {
    if maxKeys > 0 && |pieces| > maxKeys then pieces[..maxKeys] else pieces
  }

  function ParsedObject(qs: Text, maxKeys: int): Object {
    if qs == [] then map[] else AddAll(map[], Limited(Split(qs, AMPERSAND), maxKeys))
  }

  /** `parse` */
  method Parse(qs: Text, maxKeys: int) returns (obj: Object)
    ensures obj == ParsedObject(qs, maxKeys)
  {
    obj := map[];
    if |qs| == 0 {
      return;
    }
    var pieces := Split(qs, AMPERSAND);
    var len := |pieces|;
    if maxKeys > 0 && len > maxKeys {
      len := maxKeys;
    }
    for i := 0 to len
      invariant obj == AddAll(map[], pieces[..i])
    {
      assert pieces[..i + 1][..i] == pieces[..i];
      obj := StorePair(obj, ParsePair(pieces[i]));
    }
    assert len == |pieces| ==> pieces[..len] == pieces;
  }

  method StorePair(obj: Object, p: Pair) returns (r: Object)
    ensures r == Add(obj, p)
  {
    r := obj;
    if p.key == PROTO {
      return;
    }
    if p.key !in obj {
      r := obj[p.key := One(p.value)];
    } else if obj[p.key].Many? {
      r := obj[p.key := Many(obj[p.key].texts + [p.value])];
    } else {
      r := obj[p.key := Many([obj[p.key].text, p.value])];
    }
  }

  // ---------------------------------------------------------------- one item there and back

  lemma {:induction false} NoPlus(s: Text)
    requires PLUS !in s
    ensures ReplacePlus(s) == s
  {
    if s != [] {
      NoPlus(s[1..]);
      assert [s[0]] + s[1..] == s;
    }
  }

  lemma CleanHasNo(s: Text)
    requires Clean(s)
    ensures PLUS !in s && EQUALS !in s && AMPERSAND !in s
  {}

  lemma {:induction false} IndexOfFirst(a: Text, c: Scalar, b: Text)
    requires c !in a
    ensures IndexOf(a + [c] + b, c) == |a|
  {
    if a != [] {
      assert (a + [c] + b)[1..] == a[1..] + [c] + b;
      IndexOfFirst(a[1..], c, b);
    }
  }

  lemma ItemParts(key: Text, v: Text)
    ensures PLUS !in Item(key, v) && AMPERSAND !in Item(key, v) && Item(key, v) != []
    ensures Sides(Item(key, v)) == Pair(Escape(key), Escape(v))
  {
    EscapeClean(key);
    EscapeClean(v);
    CleanHasNo(Escape(key));
    CleanHasNo(Escape(v));
    IndexOfFirst(Escape(key), EQUALS, Escape(v));
  }

  lemma ItemRoundTrip(key: Text, v: Text)
    ensures ParsePair(Item(key, v)) == Pair(key, v)
  {
    ItemParts(key, v);
    NoPlus(Item(key, v));
    EscapeRoundTrip(key);
    EscapeRoundTrip(v);
  }

  lemma {:induction false} ReplaceAppend(a: Text, b: Text)
    ensures ReplacePlus(a + b) == ReplacePlus(a) + ReplacePlus(b)
  {
    if a == [] {
      assert a + b == b;
    } else {
      assert (a + b)[1..] == a[1..] + b;
      ReplaceAppend(a[1..], b);
      Assoc(if a[0] == PLUS then [PERCENT, 50, 48] else [a[0]], ReplacePlus(a[1..]), ReplacePlus(b));
    }
  }

  /** An item without an equals sign is a key; its value is empty. */
  lemma BareKey(key: Text)
    ensures ParsePair(Escape(key)) == Pair(key, [])
  {
    EscapeClean(key);
    CleanHasNo(Escape(key));
    NoPlus(Escape(key));
    EscapeRoundTrip(key);
  }

  lemma SidesOf(a: Text, w: Text)
    requires EQUALS !in a && PLUS !in a
    ensures Sides(ReplacePlus(a + ([EQUALS] + w))) == Pair(a, ReplacePlus(w))
  {
    ReplaceAppend(a, [EQUALS] + w);
    assert ([EQUALS] + w)[1..] == w;
    NoPlus(a);
    var x := a + ([EQUALS] + ReplacePlus(w));
    assert x == a + [EQUALS] + ReplacePlus(w);
    IndexOfFirst(a, EQUALS, ReplacePlus(w));
    assert x[..|a|] == a && x[|a| + 1..] == ReplacePlus(w);
  }

  /** The key ends at the first equals sign; others belong to the value. */
  lemma KeyUpToEquals(key: Text, w: Text)
    requires DecodeComponent(ReplacePlus(w)).Some?
    ensures ParsePair(Escape(key) + ([EQUALS] + w)) == Pair(key, DecodeComponent(ReplacePlus(w)).value)
  {
    EscapeClean(key);
    CleanHasNo(Escape(key));
    SidesOf(Escape(key), w);
    EscapeRoundTrip(key);
  }

  // ---------------------------------------------------------------- joining and splitting

  lemma {:induction false} SplitOne(s: Text, sep: Scalar)
    requires sep !in s
    ensures Split(s, sep) == [s]
  {
    if s != [] {
      SplitOne(s[1..], sep);
      assert [s[0]] + s[1..] == s;
    }
  }

  lemma {:induction false} SplitAppend(a: Text, b: Text, sep: Scalar)
    requires sep !in a
    ensures Split(a + [sep] + b, sep) == [a] + Split(b, sep)
  {
    var s := a + [sep] + b;
    if a == [] {
      assert s[1..] == b;
    } else {
      assert s[1..] == a[1..] + [sep] + b;
      SplitAppend(a[1..], b, sep);
      assert [a[0]] + a[1..] == a;
    }
  }

  predicate Separate(items: seq<Text>) {
    forall k :: 0 <= k < |items| ==> AMPERSAND !in items[k]
  }

  lemma {:induction false} SplitJoin(items: seq<Text>)
    requires items != [] && Separate(items)
    ensures Split(Join(items), AMPERSAND) == items
  {
    if |items| == 1 {
      SplitOne(items[0], AMPERSAND);
    } else {
      SplitJoin(items[1..]);
      SplitAppend(items[0], Join(items[1..]), AMPERSAND);
    }
  }

  /** The items of one key. */
  function Own(e: Entry): seq<Text> {
    match e.value case One(v) => [Item(e.key, v)] case Many(vs) => ItemsOf(e.key, vs)
  }

  /** All items of an object, entry by entry. */
  function Items(es: seq<Entry>): seq<Text> {
    if es == [] then [] else Items(es[..|es| - 1]) + Own(es[|es| - 1])
  }

  lemma {:induction false} JoinAppend(a: seq<Text>, b: seq<Text>)
    requires a != [] && b != []
    ensures Join(a + b) == Join(a) + [AMPERSAND] + Join(b)
  {
    if |a| == 1 {
      assert (a + b)[1..] == b;
    } else {
      assert (a + b)[1..] == a[1..] + b;
      JoinAppend(a[1..], b);
    }
  }

  /** Distinct keys, and arrays of at least two strings: of a shorter one the text does not say
      that it was an array. */
  predicate WellFormed(es: seq<Entry>) {
    && (forall i, j :: 0 <= i < j < |es| ==> es[i].key != es[j].key)
    && (forall i :: 0 <= i < |es| && es[i].value.Many? ==> |es[i].value.texts| >= 2)
  }

  lemma OwnText(e: Entry)
    requires e.value.Many? ==> |e.value.texts| >= 2
    ensures Own(e) != [] && EntryText(e) == Join(Own(e)) && Separate(Own(e)) && EntryText(e) != []
  {
    match e.value {
      case One(v) => ItemParts(e.key, v);
      case Many(vs) =>
        forall i | 0 <= i < |vs| ensures AMPERSAND !in Item(e.key, vs[i]) {
          ItemParts(e.key, vs[i]);
        }
        ItemParts(e.key, vs[0]);
    }
  }

  /** One more entry, in the text and in the items. */
  lemma StringifyMore(front: seq<Entry>, e: Entry)
    requires e.value.Many? ==> |e.value.texts| >= 2
    requires front != [] ==> Stringify(front) == Join(Items(front)) && Items(front) != [] && Separate(Items(front))
    ensures Stringify(front + [e]) == Join(Items(front) + Own(e)) && Stringify(front + [e]) != []
    ensures Separate(Items(front) + Own(e)) && Items(front) + Own(e) != []
  {
    OwnText(e);
    assert EntryTexts(front + [e]) == EntryTexts(front) + [EntryText(e)];
    if front == [] {
      assert [] + Own(e) == Own(e) && [] + [EntryText(e)] == [EntryText(e)];
    } else {
      JoinAppend(EntryTexts(front), [EntryText(e)]);
      JoinAppend(Items(front), Own(e));
      SeparateAppend(Items(front), Own(e));
    }
  }

  lemma StringifySnoc(es: seq<Entry>, front: seq<Entry>, e: Entry)
    requires es != [] && front == es[..|es| - 1] && e == es[|es| - 1]
    ensures Stringify(es) == Stringify(front + [e]) && Items(es) == Items(front) + Own(e)
  {
    assert es == front + [e];
  }

  /** The text is that of all items, wherever they come from. */
  lemma {:induction false} StringifyItems(es: seq<Entry>)
    requires WellFormed(es) && es != []
    ensures Stringify(es) == Join(Items(es)) && Items(es) != [] && Separate(Items(es)) && Stringify(es) != []
  {
    var front, e := es[..|es| - 1], es[|es| - 1];
    if front != [] {
      StringifyItems(front);
    }
    StringifyMore(front, e);
    StringifySnoc(es, front, e);
  }

  lemma SeparateAppend(a: seq<Text>, b: seq<Text>)
    requires Separate(a) && Separate(b)
    ensures Separate(a + b)
  {}

  lemma {:induction false} AddAllAppend(obj: Object, a: seq<Text>, b: seq<Text>)
    ensures AddAll(obj, a + b) == AddAll(AddAll(obj, a), b)
  {
    if b == [] {
      assert a + b == a;
    } else {
      assert (a + b)[..|a + b| - 1] == a + b[..|b| - 1];
      AddAllAppend(obj, a, b[..|b| - 1]);
    }
  }

  function Stored(vs: seq<Text>): Value
    requires vs != []
  {
    if |vs| == 1 then One(vs[0]) else Many(vs)
  }

  lemma AddItem(obj: Object, key: Text, front: seq<Text>, v: Text)
    ensures AddAll(obj, ItemsOf(key, front + [v])) == Add(AddAll(obj, ItemsOf(key, front)), Pair(key, v))
  {
    var items := ItemsOf(key, front + [v]);
    ItemRoundTrip(key, v);
    assert items == ItemsOf(key, front) + [Item(key, v)];
    assert items[..|items| - 1] == ItemsOf(key, front);
  }

  lemma AddStored(obj: Object, key: Text, front: seq<Text>, v: Text)
    requires front != [] && key != PROTO
    ensures Add(obj[key := Stored(front)], Pair(key, v)) == obj[key := Stored(front + [v])]
  {
    assert |front| == 1 ==> [front[0], v] == front + [v];
  }

  /** The items of one key, which was not there, become its value; those of PROTO nothing. */
  lemma {:induction false} AddOwn(obj: Object, key: Text, vs: seq<Text>)
    requires vs != [] && key !in obj
    ensures AddAll(obj, ItemsOf(key, vs)) == if key == PROTO then obj else obj[key := Stored(vs)]
  {
    var front, v := vs[..|vs| - 1], vs[|vs| - 1];
    assert front + [v] == vs;
    AddItem(obj, key, front, v);
    if front == [] {
      assert AddAll(obj, ItemsOf(key, front)) == obj;
    } else {
      AddOwn(obj, key, front);
      if key != PROTO {
        AddStored(obj, key, front, v);
      }
    }
  }

  /** The object that is read back: without PROTO. */
  function ToObject(es: seq<Entry>): Object {
    if es == [] then map[]
    else
      var e := es[|es| - 1];
      if e.key == PROTO then ToObject(es[..|es| - 1]) else ToObject(es[..|es| - 1])[e.key := e.value]
  }

  lemma {:induction false} KeysOf(es: seq<Entry>, key: Text)
    requires forall i :: 0 <= i < |es| ==> es[i].key != key
    ensures key !in ToObject(es)
  {
    if es != [] {
      KeysOf(es[..|es| - 1], key);
    }
  }

  lemma {:induction false} AddItems(es: seq<Entry>)
    requires WellFormed(es)
    ensures AddAll(map[], Items(es)) == ToObject(es)
  {
    if es != [] {
      var front, e := es[..|es| - 1], es[|es| - 1];
      AddItems(front);
      AddAllAppend(map[], Items(front), Own(e));
      KeysOf(front, e.key);
      match e.value {
        case One(v) =>
          assert ItemsOf(e.key, [v]) == [Item(e.key, v)];
          AddOwn(ToObject(front), e.key, [v]);
        case Many(vs) => AddOwn(ToObject(front), e.key, vs);
      }
    }
  }

  /**
   `parse(stringify(m))` for an object m whose keys come in any order, if there are not more
   items than `maxKeys`: everything comes back, except what PROTO had.
   */
  lemma ParseStringify(es: seq<Entry>, maxKeys: int)
    requires WellFormed(es) && (maxKeys <= 0 || |Items(es)| <= maxKeys)
    ensures ParsedObject(Stringify(es), maxKeys) == ToObject(es)
  {
    if es == [] {
      assert EntryTexts(es) == [];
    } else {
      StringifyItems(es);
      SplitJoin(Items(es));
      AddItems(es);
    }
  }

  /** The object itself. */
  function Contents(es: seq<Entry>): Object {
    if es == [] then map[] else Contents(es[..|es| - 1])[es[|es| - 1].key := es[|es| - 1].value]
  }

  lemma {:induction false} ContentsKeys(es: seq<Entry>)
    ensures PROTO !in ToObject(es)
    ensures PROTO in Contents(es) <==> exists i :: 0 <= i < |es| && es[i].key == PROTO
    ensures (forall i :: 0 <= i < |es| ==> es[i].key != PROTO) ==> Contents(es) == ToObject(es)
  {
    if es != [] {
      ContentsKeys(es[..|es| - 1]);
      assert es[|es| - 1].key == PROTO ==> exists i :: 0 <= i < |es| && es[i].key == PROTO;
    }
  }

  /** The object comes back exactly if PROTO is not one of its keys. */
  lemma RoundTripIff(es: seq<Entry>, maxKeys: int)
    requires WellFormed(es) && (maxKeys <= 0 || |Items(es)| <= maxKeys)
    ensures ParsedObject(Stringify(es), maxKeys) == Contents(es) <==> forall i :: 0 <= i < |es| ==> es[i].key != PROTO
  {
    ParseStringify(es, maxKeys);
    ContentsKeys(es);
  }

  // ---------------------------------------------------------------- spaces written as plus

  /** The first text is the second one with some of its escaped spaces written as a plus. */
  predicate PlusForSpace(t: Text, s: Text)
    decreases |s|
  {
    if s == [] then t == []
    else
      t != [] &&
      ((t[0] == s[0] && PlusForSpace(t[1..], s[1..]))
       || (t[0] == PLUS && |s| >= 3 && s[..3] == [PERCENT, 50, 48] && PlusForSpace(t[1..], s[3..])))
  }

  lemma PlusEscape(s: Text)
    requires |s| >= 3 && s[..3] == [PERCENT, 50, 48]
    ensures ReplacePlus(s) == [PERCENT, 50, 48] + ReplacePlus(s[3..])
  {
    assert s[0] == s[..3][0] && s[1] == s[..3][1] && s[2] == s[..3][2];
    assert s[1..][1..] == s[2..] && s[2..][1..] == s[3..];
    assert ReplacePlus(s[2..]) == [s[2]] + ReplacePlus(s[3..]);
    assert ReplacePlus(s[1..]) == [s[1]] + ReplacePlus(s[2..]);
  }

  /** Replacing every plus makes both the same. */
  lemma {:induction false} PlusIsSpace(t: Text, s: Text)
    requires PlusForSpace(t, s)
    ensures ReplacePlus(t) == ReplacePlus(s)
    decreases |s|
  {
    if s != [] {
      if t[0] == s[0] && PlusForSpace(t[1..], s[1..]) {
        PlusIsSpace(t[1..], s[1..]);
      } else {
        PlusIsSpace(t[1..], s[3..]);
        PlusEscape(s);
      }
    }
  }

  /** So a plus in an item means a space, in the key and in the value. */
  lemma PlusItem(t: Text, key: Text, v: Text)
    requires PlusForSpace(t, Item(key, v))
    ensures ParsePair(t) == Pair(key, v)
  {
    PlusIsSpace(t, Item(key, v));
    ItemRoundTrip(key, v);
  }

  predicate AllPlusForSpace(ts: seq<Text>, ss: seq<Text>) {
    |ts| == |ss| && forall i :: 0 <= i < |ts| ==> PlusForSpace(ts[i], ss[i])
  }

  /** The separator is not touched. */
  lemma {:induction false} PlusSplit(t: Text, s: Text)
    requires PlusForSpace(t, s)
    ensures AllPlusForSpace(Split(t, AMPERSAND), Split(s, AMPERSAND))
    decreases |s|
  {
    if s != [] {
      if t[0] == s[0] && PlusForSpace(t[1..], s[1..]) {
        PlusSplit(t[1..], s[1..]);
        SplitFirst(t, s);
      } else {
        PlusSplit(t[1..], s[3..]);
        SplitSpace(t, s);
      }
    }
  }

  lemma SameFirst(c: Scalar, t: Text, s: Text)
    requires PlusForSpace(t, s)
    ensures PlusForSpace([c] + t, [c] + s)
  {
    assert ([c] + t)[1..] == t && ([c] + s)[1..] == s;
  }

  lemma SplitFirst(t: Text, s: Text)
    requires t != [] && s != [] && t[0] == s[0]
    requires AllPlusForSpace(Split(t[1..], AMPERSAND), Split(s[1..], AMPERSAND))
    ensures AllPlusForSpace(Split(t, AMPERSAND), Split(s, AMPERSAND))
  {
    if t[0] != AMPERSAND {
      SameFirst(t[0], Split(t[1..], AMPERSAND)[0], Split(s[1..], AMPERSAND)[0]);
    }
  }

  lemma SplitBehind(c: Scalar, s: Text)
    requires c != AMPERSAND
    ensures var rest := Split(s, AMPERSAND); Split([c] + s, AMPERSAND) == [[c] + rest[0]] + rest[1..]
  {
    assert ([c] + s)[1..] == s;
  }

  lemma SplitThree(s: Text)
    requires |s| >= 3 && s[..3] == [PERCENT, 50, 48]
    ensures var rest := Split(s[3..], AMPERSAND);
      Split(s, AMPERSAND) == [[PERCENT, 50, 48] + rest[0]] + rest[1..]
  {
    var u := s[3..];
    var first := Split(u, AMPERSAND)[0];
    SplitBehind(48, u);
    SplitBehind(50, [48] + u);
    SplitBehind(PERCENT, [50] + ([48] + u));
    assert s == s[..3] + u && [PERCENT] + ([50] + ([48] + u)) == [PERCENT, 50, 48] + u;
    assert [PERCENT] + ([50] + ([48] + first)) == [PERCENT, 50, 48] + first;
  }

  lemma SplitSpace(t: Text, s: Text)
    requires t != [] && t[0] == PLUS && |s| >= 3 && s[..3] == [PERCENT, 50, 48]
    requires AllPlusForSpace(Split(t[1..], AMPERSAND), Split(s[3..], AMPERSAND))
    ensures AllPlusForSpace(Split(t, AMPERSAND), Split(s, AMPERSAND))
  {
    SplitThree(s);
    var a, b := Split(t[1..], AMPERSAND), Split(s[3..], AMPERSAND);
    assert ([PLUS] + a[0])[1..] == a[0];
    assert ([PERCENT, 50, 48] + b[0])[..3] == [PERCENT, 50, 48] && ([PERCENT, 50, 48] + b[0])[3..] == b[0];
    assert PlusForSpace([PLUS] + a[0], [PERCENT, 50, 48] + b[0]);
  }

  lemma {:induction false} PlusPieces(obj: Object, ts: seq<Text>, ss: seq<Text>)
    requires AllPlusForSpace(ts, ss)
    ensures AddAll(obj, ts) == AddAll(obj, ss)
  {
    if ts != [] {
      PlusPieces(obj, ts[..|ts| - 1], ss[..|ss| - 1]);
      PlusIsSpace(ts[|ts| - 1], ss[|ss| - 1]);
    }
  }

  lemma PlusLimited(ts: seq<Text>, ss: seq<Text>, maxKeys: int)
    requires AllPlusForSpace(ts, ss)
    ensures AllPlusForSpace(Limited(ts, maxKeys), Limited(ss, maxKeys))
  {}

  /** In any text at all, well formed or not, a plus is parsed as an escaped space. */
  lemma PlusText(t: Text, s: Text, maxKeys: int)
    requires PlusForSpace(t, s)
    ensures ParsedObject(t, maxKeys) == ParsedObject(s, maxKeys)
  {
    PlusSplit(t, s);
    PlusLimited(Split(t, AMPERSAND), Split(s, AMPERSAND), maxKeys);
    if s != [] {
      PlusPieces(map[], Limited(Split(t, AMPERSAND), maxKeys), Limited(Split(s, AMPERSAND), maxKeys));
    }
  }

  // ---------------------------------------------------------------- where a plus comes from

  /** An escaped plus, "%2B", at this place. */
  predicate EscapedPlus(s: Text, i: int) {
    0 <= i && i + 2 < |s| && s[i] == PERCENT && s[i + 1] == 50 && (s[i + 2] == 66 || s[i + 2] == 98)
  }

  ghost predicate NoEscapedPlus(s: Text) {
    forall i :: !EscapedPlus(s, i)
  }

  lemma PlusTail(s: Text, n: nat)
    requires n <= |s| && NoEscapedPlus(s)
    ensures NoEscapedPlus(s[n..]) && NoEscapedPlus(s[..n])
  {
    forall i ensures !EscapedPlus(s[n..], i) {
      assert !EscapedPlus(s, n + i);
    }
    forall i ensures !EscapedPlus(s[..n], i) {
      assert !EscapedPlus(s, i);
    }
  }

  lemma EscapeOfPlus(s: Text)
    requires DecodeEscape(s) == Some(PLUS)
    ensures EscapedPlus(s, 0)
  {
    assert BytesAt(s, 1) == Some(EncodeChar(PLUS)) && EncodeChar(PLUS) == [PLUS];
    assert ByteAt(s) == Some(43);
  }

  lemma {:induction false} DecodedPlus(s: Text)
    requires PLUS !in s && NoEscapedPlus(s) && DecodeComponent(s).Some?
    ensures PLUS !in DecodeComponent(s).value
    decreases |s|
  {
    if s != [] {
      if s[0] != PERCENT {
        PlusTail(s, 1);
        DecodedPlus(s[1..]);
      } else {
        var c := DecodeEscape(s).value;
        PlusTail(s, 3 * Size(c));
        DecodedPlus(s[3 * Size(c)..]);
        if c == PLUS {
          EscapeOfPlus(s);
        }
      }
    }
  }

  lemma {:induction false} ReplacedPlus(s: Text)
    requires NoEscapedPlus(s)
    ensures PLUS !in ReplacePlus(s) && NoEscapedPlus(ReplacePlus(s))
  {
    if s != [] {
      PlusTail(s, 1);
      ReplacedPlus(s[1..]);
      ReplacedFront(s);
    }
  }

  lemma Starts(s: Text)
    ensures s != [] && s[0] != PLUS ==> ReplacePlus(s) != [] && ReplacePlus(s)[0] == s[0]
    ensures s != [] && s[0] == PLUS ==> ReplacePlus(s) != [] && ReplacePlus(s)[0] == PERCENT
  {}

  lemma ReplacedHead(s: Text)
    requires s != [] && s[0] != PLUS && !EscapedPlus(s, 0)
    ensures !EscapedPlus(ReplacePlus(s), 0)
  {
    Starts(s[1..]);
    if |s| >= 2 {
      assert s[1..][1..] == s[2..];
      Starts(s[2..]);
    }
  }

  lemma ReplacedFront(s: Text)
    requires s != [] && NoEscapedPlus(s) && NoEscapedPlus(ReplacePlus(s[1..]))
    ensures NoEscapedPlus(ReplacePlus(s))
  {
    var r, rest := ReplacePlus(s), ReplacePlus(s[1..]);
    forall i ensures !EscapedPlus(r, i) {
      assert !EscapedPlus(s, 0);
      if s[0] == PLUS {
        assert r == [PERCENT, 50, 48] + rest && !EscapedPlus(rest, i - 3);
      } else if i == 0 {
        ReplacedHead(s);
      } else {
        assert r == [s[0]] + rest && !EscapedPlus(rest, i - 1);
      }
    }
  }

  lemma SidesPlus(x: Text)
    requires PLUS !in x && NoEscapedPlus(x)
    ensures PLUS !in Sides(x).key && NoEscapedPlus(Sides(x).key)
    ensures PLUS !in Sides(x).value && NoEscapedPlus(Sides(x).value)
  {
    var idx := IndexOf(x, EQUALS);
    if idx >= 0 {
      PlusTail(x, idx);
      PlusTail(x, idx + 1);
    }
  }

  predicate Decodable(p: Pair) {
    DecodeComponent(p.key).Some? && DecodeComponent(p.value).Some?
  }

  /** A plus in what is decoded comes from an escaped one, never from a plus in the text. */
  lemma PlusIsEscaped(piece: Text)
    requires NoEscapedPlus(piece) && Decodable(Sides(ReplacePlus(piece)))
    ensures PLUS !in ParsePair(piece).key && PLUS !in ParsePair(piece).value
  {
    var p := Sides(ReplacePlus(piece));
    ReplacedPlus(piece);
    SidesPlus(ReplacePlus(piece));
    DecodedPlus(p.key);
    DecodedPlus(p.value);
  }

  // ---------------------------------------------------------------- text that cannot be decoded

  /** Where both sides are ASCII each is decoded on its own, and only one that cannot be decoded is unescaped. */
  lemma EachOnItsOwn(p: Pair)
    requires Ascii(p.key) && Ascii(p.value) && PLUS !in p.key && PLUS !in p.value
    ensures Decoded(p) == Pair(Alone(p.key), Alone(p.value))
  {
    AloneIsUnescaped(p.key);
    AloneIsUnescaped(p.value);
  }

  function Alone(s: Text): Text {
    match DecodeComponent(s)
    case Some(t) => t
    case None => Unescape(s, true)
  }

  lemma {:induction false} NoPlusNoSpace(s: seq<Unit>)
    requires PLUS !in s
    ensures UnescapeBytes(s, true) == UnescapeBytes(s, false)
    decreases |s|
  {
    if s == [] {
    } else if s[0] != PERCENT {
      NoPlusNoSpace(s[1..]);
    } else if |s| > 1 && HexValue(s[1]) == None {
      NoPlusNoSpace(s[2..]);
    } else if |s| > 2 {
      NoPlusNoSpace(s[3..]);
    }
  }

  lemma AloneIsUnescaped(s: Text)
    requires Ascii(s) && PLUS !in s
    ensures Alone(s) == Unescape(s, true)
  {
    AsciiUnits(s);
    NoPlusNoSpace(s);
    if DecodeComponent(s).Some? {
      UnescapeAgrees(s);
    }
  }

  /** Otherwise a value that cannot be decoded spoils its key: in "\u00FC=%" it becomes U+FFFD. */
  lemma ValueSpoilsKey()
    ensures DecodeComponent([0xFC]) == Some([0xFC])
    ensures ParsePair([0xFC, EQUALS, PERCENT]) == Pair([REPLACEMENT], [PERCENT])
  {
    SplitsThere();
    DecodesAlone();
    Spoiled();
  }

  lemma SplitsThere()
    ensures Sides(ReplacePlus([0xFC, EQUALS, PERCENT])) == Pair([0xFC], [PERCENT])
  {
    var k: Text, v: Text := [0xFC], [PERCENT];
    var piece: Text := [0xFC, EQUALS, PERCENT];
    assert v[1..] == [] && piece[1..] == [EQUALS, PERCENT] && piece[1..][1..] == v;
    assert ReplacePlus(v) == v + [] == v;
    assert ReplacePlus(piece[1..]) == [EQUALS] + v == piece[1..];
    assert ReplacePlus(piece) == k + piece[1..] == piece;
    assert IndexOf(piece[1..], EQUALS) == 0 && piece[..1] == k && piece[2..] == v;
  }

  lemma DecodesAlone()
    ensures DecodeComponent([0xFC]) == Some([0xFC])
  {
    var k: Text := [0xFC];
    assert k[1..] == [];
    assert DecodeComponent(k) == After(k, DecodeComponent(k[1..])) && k + [] == k;
  }

  lemma Spoiled()
    ensures Unescape([0xFC], true) == [REPLACEMENT] && Unescape([PERCENT], true) == [PERCENT]
    ensures DecodeComponent([PERCENT]) == None
  {
    var k: Text, v: Text := [0xFC], [PERCENT];
    assert k[1..] == [] && v[1..] == [];
    assert ToUnits(k) == [0xFC] + ToUnits(k[1..]) && ToUnits(v) == [PERCENT] + ToUnits(v[1..]);
    var u: seq<Unit> := [0xFC];
    assert u[1..] == [] && UnescapeBytes(u, true) == [0xFC] + UnescapeBytes(u[1..], true);
    var b: seq<Byte> := [0xFC];
    assert b[1..] == [] && DecodeChar(b) == None && Decode(b) == [REPLACEMENT] + Decode(b[1..]);
    var c: seq<Byte> := [PERCENT];
    assert c == EncodeChar(PERCENT) && c + [] == c;
    DecodeStep(PERCENT, []);
  }

  // ---------------------------------------------------------------- the limit

  lemma AddOne(obj: Object, p: Pair)
    ensures |Add(obj, p)| <= |obj| + 1
  {
    if p.key != PROTO {
      assert Add(obj, p).Keys == obj.Keys + {p.key};
    }
  }

  lemma {:induction false} AddedKeys(pieces: seq<Text>)
    ensures |AddAll(map[], pieces)| <= |pieces|
  {
    if pieces != [] {
      AddedKeys(pieces[..|pieces| - 1]);
      AddOne(AddAll(map[], pieces[..|pieces| - 1]), ParsePair(pieces[|pieces| - 1]));
    }
  }

  /** Never more keys than the limit; and of an object with more items exactly the first ones are read. */
  lemma KeyLimit(qs: Text, es: seq<Entry>, maxKeys: nat)
    requires maxKeys > 0
    ensures |ParsedObject(qs, maxKeys)| <= maxKeys
    ensures WellFormed(es) && maxKeys < |Items(es)| ==>
              ParsedObject(Stringify(es), maxKeys) == AddAll(map[], Items(es)[..maxKeys])
  {
    AddedKeys(Limited(Split(qs, AMPERSAND), maxKeys));
    if WellFormed(es) && maxKeys < |Items(es)| {
      StringifyItems(es);
      SplitJoin(Items(es));
    }
  }
}
