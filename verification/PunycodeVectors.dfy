/**
 Known names in Punycode, in both directions. They fix digits, thresholds and bias, which encoder
 and decoder share, so that a round trip alone says nothing about them.
 */
module PunycodeVectors {
  import opened Prelude
  import opened Punycode
  import opened PunycodeRoundTrip

  // ---------------------------------------------------------------- one scan at a time

  function IsBelow(cps: seq<int>, n: int, i: nat, b: nat): nat
    requires b <= |cps|
  {
    if i < b && cps[i] < n then 1 else 0
  }

  /** How many of the code points from `a` up to `b` are below `n`. */
  function Below(cps: seq<int>, n: int, a: nat, b: nat): nat
    requires a <= b <= |cps|
    decreases b - a
  {
    if a == b then 0 else IsBelow(cps, n, a, b) + Below(cps, n, a + 1, b)
  }

  function FourBelow(cps: seq<int>, n: int, a: nat, b: nat): nat
    requires b <= |cps|
  {
    IsBelow(cps, n, a, b) + IsBelow(cps, n, a + 1, b) + IsBelow(cps, n, a + 2, b) + IsBelow(cps, n, a + 3, b)
  }

  function BelowFrom(cps: seq<int>, n: int, a: nat, b: nat): nat
    requires b <= |cps|
  {
    if a <= b then Below(cps, n, a, b) else 0
  }

  lemma BelowOne(cps: seq<int>, n: int, a: nat, b: nat)
    requires b <= |cps|
    ensures BelowFrom(cps, n, a, b) == IsBelow(cps, n, a, b) + BelowFrom(cps, n, a + 1, b)
  {}

  lemma BelowFour(cps: seq<int>, n: int, a: nat, b: nat)
    requires b <= |cps|
    ensures BelowFrom(cps, n, a, b) == FourBelow(cps, n, a, b) + BelowFrom(cps, n, a + 4, b)
  {
    BelowOne(cps, n, a, b);
    BelowOne(cps, n, a + 1, b);
    BelowOne(cps, n, a + 2, b);
    BelowOne(cps, n, a + 3, b);
  }

  /** The number is found eight at a time. */
  lemma BelowEight(cps: seq<int>, n: int, a: nat, b: nat)
    requires a <= b <= |cps| && b <= a + 8
    ensures Below(cps, n, a, b) == FourBelow(cps, n, a, b) + FourBelow(cps, n, a + 4, b)
  {
    BelowFour(cps, n, a, b);
    BelowFour(cps, n, a + 4, b);
    assert BelowFrom(cps, n, a + 8, b) == 0;
  }

  lemma {:induction false} PassOver(cps: seq<int>, basic: nat, j: nat, end: nat, st: Encoder)
    requires ScanOk(cps, j, st) && j <= end <= |cps| && forall p :: j <= p < end ==> cps[p] != st.n
    requires st.delta + Below(cps, st.n, j, end) <= MAX_INT
    ensures var st' := st.(delta := st.delta + Below(cps, st.n, j, end));
      ScanOk(cps, end, st') && EncodePass(cps, basic, j, st) == EncodePass(cps, basic, end, st')
    decreases end - j
  {
    if j < end {
      ScanStep(cps, j, basic, st);
      PassOver(cps, basic, j + 1, end, if cps[j] < st.n then st.(delta := st.delta + 1) else st);
    }
  }

  /** What the scan emits at a place. */
  lemma EmitHere(cps: seq<int>, basic: nat, j: nat, st: Encoder, out: seq<Unit>, digits: seq<Unit>)
    requires ScanOk(cps, j, st) && j < |cps| && cps[j] == st.n && digits == VliDigits(st.delta, BASE, st.bias)
    ensures ScanOk(cps, j + 1, AfterEmit(st, basic))
    ensures Emit(out, EncodePass(cps, basic, j, st))
         == Emit(out + digits, EncodePass(cps, basic, j + 1, AfterEmit(st, basic)))
  {
    ScanStep(cps, j, basic, st);
    EmitEmit(out, digits, EncodePass(cps, basic, j + 1, AfterEmit(st, basic)));
  }

  /** The next code point is the one that stands behind no unhandled smaller one. */
  lemma NextIs(cps: seq<int>, n: int, m: int, p: nat)
    requires Unicode(cps) && p < |cps| && cps[p] == m && n <= m <= 0x10_FFFF
    requires forall i :: 0 <= i < |cps| && i != p ==> cps[i] < n || cps[i] > m
    requires |Handled(cps, n, 0, |cps|)| < |cps|
    ensures Smallest(cps, n, |cps|) == m
  {
    SmallestFacts(cps, n, |cps|);
    SomethingLeft(cps, n, |cps|);
  }

  lemma RoundStarts(cps: seq<int>, basic: nat, st: Encoder, m: int, p: nat, q: int)
    requires RoundOk(cps, st) && st.handled < |cps| && p < |cps| && cps[p] == m && st.n <= m
    requires forall i :: 0 <= i < |cps| && i != p ==> cps[i] < st.n || cps[i] > m
    requires q == st.delta + (m - st.n) * (st.handled + 1) && q <= MAX_INT
    ensures var s0 := Encoder(m, q, st.bias, st.handled, st.handled + 1);
      ScanOk(cps, 0, s0) && EncodeRound(cps, basic, st) == EncodePass(cps, basic, 0, s0)
  {
    NextScan(cps, st);
    NextIs(cps, st.n, m, p);
    GuardMeaning(m - st.n, st.handled + 1, MAX_INT - st.delta);
  }

  lemma ScanEnds(cps: seq<int>, basic: nat, st: Encoder, p: nat, after: nat)
    requires p < |cps| && ScanOk(cps, p + 1, st) && st.delta == 0 && after <= MAX_INT
    requires forall i :: p < i < |cps| ==> cps[i] != st.n
    requires after == Below(cps, st.n, p + 1, |cps|)
    ensures var st' := st.(n := st.n + 1, delta := after + 1);
      RoundOk(cps, st') && EncodePass(cps, basic, p + 1, st) == EncodeRound(cps, basic, st')
  {
    PassOver(cps, basic, p + 1, |cps|, st);
    ScanDone(cps, st.(delta := after));
  }

  /** A whole scan that meets its code point once. */
  lemma Scan(cps: seq<int>, basic: nat, st: Encoder, p: nat, before: nat, after: nat, digits: seq<Unit>, bias: int,
             out: seq<Unit>)
    requires ScanOk(cps, 0, st) && st.plusOne > 0 && p < |cps| && cps[p] == st.n
    requires forall i :: 0 <= i < |cps| && i != p ==> cps[i] != st.n
    requires before == Below(cps, st.n, 0, p) && after == Below(cps, st.n, p + 1, |cps|)
    requires st.delta + before <= MAX_INT && after <= MAX_INT
    requires digits == VliDigits(st.delta + before, BASE, st.bias)
    requires bias == Adapted(st.delta + before, st.plusOne, st.handled == basic)
    ensures var st' := Encoder(st.n + 1, after + 1, bias, st.handled + 1, st.plusOne);
      && RoundOk(cps, st')
      && Emit(out, EncodePass(cps, basic, 0, st)) == Emit(out + digits, EncodeRound(cps, basic, st'))
  {
    PassOver(cps, basic, 0, p, st);
    var s1 := st.(delta := st.delta + before);
    EmitHere(cps, basic, p, s1, out, digits);
    ScanEnds(cps, basic, AfterEmit(s1, basic), p, after);
  }

  /** What is emitted when `m`, which stands only at `p`, is the next code point. */
  lemma Round(cps: seq<int>, basic: nat, st: Encoder, m: int, p: nat, gap: nat, points: nat, before: nat, after: nat,
              number: nat, digits: seq<Unit>, first: bool, bias: int, out: seq<Unit>)
    returns (st': Encoder, out': seq<Unit>)
    requires RoundOk(cps, st) && st.handled < |cps| && p < |cps| && cps[p] == m && st.n <= m
    requires forall i :: 0 <= i < |cps| && i != p ==> cps[i] < st.n || cps[i] > m
    requires m == st.n + gap && points == st.handled + 1 && first == (st.handled == basic)
    requires number == st.delta + gap * points + before && number <= MAX_INT && after <= MAX_INT
    requires p <= 8 && before == FourBelow(cps, m, 0, p) + FourBelow(cps, m, 4, p)
    requires |cps| <= p + 9 && after == FourBelow(cps, m, p + 1, |cps|) + FourBelow(cps, m, p + 5, |cps|)
    requires digits == VliDigits(number, BASE, st.bias)
    requires bias == Adapted(number, points, first)
    ensures RoundOk(cps, st')
    ensures st'.n == m + 1 && st'.delta == after + 1 && st'.bias == bias && st'.handled == st.handled + 1
    ensures Emit(out, EncodeRound(cps, basic, st)) == Emit(out', EncodeRound(cps, basic, st')) && out' == out + digits
  {
    var q := st.delta + gap * points;
    GapPositive(gap, points);
    BelowEight(cps, m, 0, p);
    BelowEight(cps, m, p + 1, |cps|);
    assert (m - st.n) * (st.handled + 1) == gap * points;
    RoundStarts(cps, basic, st, m, p, q);
    Scan(cps, basic, Encoder(m, q, st.bias, st.handled, st.handled + 1), p, before, after, digits, bias, out);
    st', out' := Encoder(m + 1, after + 1, bias, st.handled + 1, st.handled + 1), out + digits;
  }

  // ---------------------------------------------------------------- numbers

  lemma LastDigit(q: nat, k: int, bias: int)
    requires q < Threshold(k, bias)
    ensures VliDigits(q, k, bias) == [DigitToBasic(q)]
  {}

  lemma Quotient(x: int, q: nat, r: int, m: int)
    requires 0 <= r < m && x == r + q * m
    ensures x / m == q && x % m == r
  {
    if x / m < q {
      Scale(x / m + 1, q, m);
    } else if x / m > q {
      Scale(q + 1, x / m, m);
    }
  }

  /** A digit in front of the others. */
  lemma MoreDigits(q: nat, k: int, bias: int, r: int, next: nat, rest: seq<Unit>)
    requires var m := BASE - Threshold(k, bias); 0 <= r < m && q == BASE - m + r + next * m
    requires rest == VliDigits(next, k + BASE, bias)
    ensures VliDigits(q, k, bias) == [DigitToBasic(Threshold(k, bias) + r)] + rest
  {
    var t := Threshold(k, bias);
    Quotient(q - t, next, r, BASE - t);
  }

  lemma Small32(x: int)
    requires 0 <= x <= MAX_INT
    ensures ToInt32(x) == x
  {}

  /** The bias behind a number, from half of it and the share of the points in that. */
  lemma BiasFrom(delta: nat, points: nat, half: nat, share: nat, sum: nat)
    requires delta <= MAX_INT && points > 0 && half == delta / 2 && share == half / points && sum == half + share
    ensures Adapted(delta, points, false) == AdaptScale(sum, 0)
  {
    Small32(delta);
  }

  // ---------------------------------------------------------------- the names

  /** The basic code points come first, and a delimiter if there are any. */
  lemma Begin(cps: seq<int>, basics: seq<Unit>) returns (st: Encoder, out: seq<Unit>)
    requires Unicode(cps) && Basics(cps, |cps|) == basics
    ensures RoundOk(cps, st)
    ensures st.n == INITIAL_N && st.delta == 0 && st.bias == INITIAL_BIAS && st.handled == |basics|
    ensures out == (if basics == [] then [] else basics + [DELIMITER])
    ensures EncodePoints(cps) == Emit(out, EncodeRound(cps, |basics|, st))
  {
    st, out := FirstState(|basics|), if basics == [] then [] else basics + [DELIMITER];
  }

  /** Units that are no surrogates. */
  lemma {:induction false} PlainPoints(text: seq<Unit>)
    requires forall i :: 0 <= i < |text| ==> !IsSurrogate(text[i])
    ensures CodePoints(text) == text && NoLowPair(text)
  {
    if text != [] {
      PlainPoints(text[1..]);
      assert [text[0]] + text[1..] == text;
    }
  }

  lemma PairPoints(text: seq<Unit>)
    requires |text| == 2 && IsSurrogate(text[0]) && !IsLowSurrogate(text[0]) && IsLowSurrogate(text[1])
    ensures CodePoints(text) == [Combine(text[0], text[1])] && NoLowPair(text)
  {
    assert text[2..] == [];
  }

  lemma {:induction false} NoBasics(cps: seq<int>, m: nat)
    requires m <= |cps| && Unicode(cps) && forall i :: 0 <= i < m ==> cps[i] >= 0x80
    ensures Basics(cps, m) == []
  {
    if m > 0 {
      NoBasics(cps, m - 1);
    }
  }

  lemma End(cps: seq<int>, basic: nat, st: Encoder, out: seq<Unit>)
    requires RoundOk(cps, st) && st.handled >= |cps|
    ensures Emit(out, EncodeRound(cps, basic, st)) == Ok(out)
  {
    assert out + [] == out;
  }

  predicate IsChinese(cps: seq<int>) {
    cps == [0x4E2D, 0x6587]
  }

  lemma ChineseBias1()
    ensures Adapted(19885, 1, true) == 21
  {}

  lemma Chinese1(cps: seq<int>, st: Encoder, out: seq<Unit>) returns (st': Encoder, out': seq<Unit>)
    requires IsChinese(cps) && RoundOk(cps, st)
    requires st.n == 0x80 && st.delta == 0 && st.bias == 72 && st.handled == 0
    ensures RoundOk(cps, st')
    ensures st'.n == 0x4E2E && st'.delta == 1 && st'.bias == 21 && st'.handled == 1
    ensures out' == out + [102, 105, 113]
    ensures Emit(out, EncodeRound(cps, 0, st)) == Emit(out', EncodeRound(cps, 0, st'))
  {
    LastDigit(16, 108, 72);
    MoreDigits(568, 72, 72, 7, 16, [113]);
    MoreDigits(19885, 36, 72, 4, 568, [105, 113]);
    ChineseBias1();
    st', out' := Round(cps, 0, st, 0x4E2D, 0, 19885, 1, 0, 0, 19885, [102, 105, 113], true, 21, out);
  }

  lemma ChineseBias2()
    ensures Adapted(11956, 2, false) == 67
  {
    assert AdaptScale(8967, 0) == 67;
    BiasFrom(11956, 2, 5978, 2989, 8967);
  }

  lemma Chinese2(cps: seq<int>, st: Encoder, out: seq<Unit>) returns (st': Encoder, out': seq<Unit>)
    requires IsChinese(cps) && RoundOk(cps, st)
    requires st.n == 0x4E2E && st.delta == 1 && st.bias == 21 && st.handled == 1
    ensures RoundOk(cps, st')
    ensures st'.n == 0x6588 && st'.delta == 1 && st'.bias == 67 && st'.handled == 2
    ensures out' == out + [50, 50, 56, 99]
    ensures Emit(out, EncodeRound(cps, 0, st)) == Emit(out', EncodeRound(cps, 0, st'))
  {
    LastDigit(2, 144, 21);
    MoreDigits(54, 108, 21, 8, 2, [99]);
    MoreDigits(568, 72, 21, 2, 54, [56, 99]);
    MoreDigits(11956, 36, 21, 13, 568, [50, 56, 99]);
    ChineseBias2();
    st', out' := Round(cps, 0, st, 0x6587, 1, 5977, 2, 1, 0, 11956, [50, 50, 56, 99], false, 67, out);
  }

  lemma ChineseEncoded(cps: seq<int>)
    requires IsChinese(cps)
    ensures Unicode(cps) && EncodePoints(cps) == Ok([102, 105, 113, 50, 50, 56, 99])
  {
    NoBasics(cps, |cps|);
    var st, out := Begin(cps, []);
    st, out := Chinese1(cps, st, out);
    st, out := Chinese2(cps, st, out);
    assert out == [102, 105, 113, 50, 50, 56, 99];
    End(cps, 0, st, out);
  }

  /** Two Chinese characters, `fiq228c`. */
  lemma Chinese()
    ensures var text, code: seq<Unit> := [0x4E2D, 0x6587], [102, 105, 113, 50, 50, 56, 99];
      EncodeText(text) == Ok(code) && DecodeText(code) == Ok(text)
  {
    var text: seq<Unit> := [0x4E2D, 0x6587];
    PlainPoints(text);
    ChineseEncoded(CodePoints(text));
    TextRoundTrip(text);
  }
  predicate IsJapanese(cps: seq<int>) {
    cps == [0x65E5, 0x672C, 0x8A9E]
  }

  lemma JapaneseBias1()
    ensures Adapted(25957, 1, true) == 23
  {}

  lemma Japanese1(cps: seq<int>, st: Encoder, out: seq<Unit>) returns (st': Encoder, out': seq<Unit>)
    requires IsJapanese(cps) && RoundOk(cps, st)
    requires st.n == 0x80 && st.delta == 0 && st.bias == 72 && st.handled == 0
    ensures RoundOk(cps, st')
    ensures st'.n == 0x65E6 && st'.delta == 1 && st'.bias == 23 && st'.handled == 1
    ensures out' == out + [119, 103, 118]
    ensures Emit(out, EncodeRound(cps, 0, st)) == Emit(out', EncodeRound(cps, 0, st'))
  {
    LastDigit(21, 108, 72);
    MoreDigits(741, 72, 72, 5, 21, [118]);
    MoreDigits(25957, 36, 72, 21, 741, [103, 118]);
    JapaneseBias1();
    st', out' := Round(cps, 0, st, 0x65E5, 0, 25957, 1, 0, 0, 25957, [119, 103, 118], true, 23, out);
  }

  lemma JapaneseBias2()
    ensures Adapted(654, 2, false) == 45
  {
    assert AdaptScale(490, 0) == 45;
    BiasFrom(654, 2, 327, 163, 490);
  }

  lemma Japanese2(cps: seq<int>, st: Encoder, out: seq<Unit>) returns (st': Encoder, out': seq<Unit>)
    requires IsJapanese(cps) && RoundOk(cps, st)
    requires st.n == 0x65E6 && st.delta == 1 && st.bias == 23 && st.handled == 1
    ensures RoundOk(cps, st')
    ensures st'.n == 0x672D && st'.delta == 1 && st'.bias == 45 && st'.handled == 2
    ensures out' == out + [55, 49, 97]
    ensures Emit(out, EncodeRound(cps, 0, st)) == Emit(out', EncodeRound(cps, 0, st'))
  {
    LastDigit(0, 108, 23);
    MoreDigits(27, 72, 23, 1, 0, [97]);
    MoreDigits(654, 36, 23, 20, 27, [49, 97]);
    JapaneseBias2();
    st', out' := Round(cps, 0, st, 0x672C, 1, 326, 2, 1, 0, 654, [55, 49, 97], false, 45, out);
  }

  lemma JapaneseBias3()
    ensures Adapted(27222, 3, false) == 81
  {
    assert AdaptScale(18148, 0) == 81;
    BiasFrom(27222, 3, 13611, 4537, 18148);
  }

  lemma Japanese3(cps: seq<int>, st: Encoder, out: seq<Unit>) returns (st': Encoder, out': seq<Unit>)
    requires IsJapanese(cps) && RoundOk(cps, st)
    requires st.n == 0x672D && st.delta == 1 && st.bias == 45 && st.handled == 2
    ensures RoundOk(cps, st')
    ensures st'.n == 0x8A9F && st'.delta == 1 && st'.bias == 81 && st'.handled == 3
    ensures out' == out + [49, 49, 57, 101]
    ensures Emit(out, EncodeRound(cps, 0, st)) == Emit(out', EncodeRound(cps, 0, st'))
  {
    LastDigit(4, 144, 45);
    MoreDigits(75, 108, 45, 9, 4, [101]);
    MoreDigits(777, 72, 45, 1, 75, [57, 101]);
    MoreDigits(27222, 36, 45, 26, 777, [49, 57, 101]);
    JapaneseBias3();
    st', out' := Round(cps, 0, st, 0x8A9E, 2, 9073, 3, 2, 0, 27222, [49, 49, 57, 101], false, 81, out);
  }

  lemma JapaneseEncoded(cps: seq<int>)
    requires IsJapanese(cps)
    ensures Unicode(cps) && EncodePoints(cps) == Ok([119, 103, 118, 55, 49, 97, 49, 49, 57, 101])
  {
    NoBasics(cps, |cps|);
    var st, out := Begin(cps, []);
    st, out := Japanese1(cps, st, out);
    st, out := Japanese2(cps, st, out);
    st, out := Japanese3(cps, st, out);
    assert out == [119, 103, 118, 55, 49, 97, 49, 49, 57, 101];
    End(cps, 0, st, out);
  }

  /** Three Japanese ones, `wgv71a119e`. */
  lemma Japanese()
    ensures var text, code: seq<Unit> := [0x65E5, 0x672C, 0x8A9E], [119, 103, 118, 55, 49, 97, 49, 49, 57, 101];
      EncodeText(text) == Ok(code) && DecodeText(code) == Ok(text)
  {
    var text: seq<Unit> := [0x65E5, 0x672C, 0x8A9E];
    PlainPoints(text);
    JapaneseEncoded(CodePoints(text));
    TextRoundTrip(text);
  }
  predicate IsBuecher(cps: seq<int>) {
    cps == [66, 0xFC, 99, 104, 101, 114]
  }

  lemma BuecherBias1()
    ensures Adapted(745, 6, true) == 0
  {}

  lemma Buecher1(cps: seq<int>, st: Encoder, out: seq<Unit>) returns (st': Encoder, out': seq<Unit>)
    requires IsBuecher(cps) && RoundOk(cps, st)
    requires st.n == 0x80 && st.delta == 0 && st.bias == 72 && st.handled == 5
    ensures RoundOk(cps, st')
    ensures st'.n == 0xFD && st'.delta == 5 && st'.bias == 0 && st'.handled == 6
    ensures out' == out + [107, 118, 97]
    ensures Emit(out, EncodeRound(cps, 5, st)) == Emit(out', EncodeRound(cps, 5, st'))
  {
    LastDigit(0, 108, 72);
    MoreDigits(21, 72, 72, 20, 0, [97]);
    MoreDigits(745, 36, 72, 9, 21, [118, 97]);
    BuecherBias1();
    st', out' := Round(cps, 5, st, 0xFC, 1, 124, 6, 1, 4, 745, [107, 118, 97], true, 0, out);
  }

  lemma BuecherEncoded(cps: seq<int>)
    requires IsBuecher(cps)
    ensures Unicode(cps) && EncodePoints(cps) == Ok([66, 99, 104, 101, 114, 45, 107, 118, 97])
  {
    assert Basics(cps, 1) == [66];
    assert Basics(cps, 2) == [66];
    assert Basics(cps, 3) == [66, 99];
    assert Basics(cps, 4) == [66, 99, 104];
    assert Basics(cps, 5) == [66, 99, 104, 101];
    assert Basics(cps, 6) == [66, 99, 104, 101, 114];
    var st, out := Begin(cps, [66, 99, 104, 101, 114]);
    st, out := Buecher1(cps, st, out);
    assert out == [66, 99, 104, 101, 114, 45, 107, 118, 97];
    End(cps, 5, st, out);
  }

  /** One letter among basic ones, `Bcher-kva`. */
  lemma Buecher()
    ensures var text, code: seq<Unit> := [66, 0xFC, 99, 104, 101, 114], [66, 99, 104, 101, 114, 45, 107, 118, 97];
      EncodeText(text) == Ok(code) && DecodeText(code) == Ok(text)
  {
    var text: seq<Unit> := [66, 0xFC, 99, 104, 101, 114];
    PlainPoints(text);
    BuecherEncoded(CodePoints(text));
    TextRoundTrip(text);
  }
  predicate IsSupplementary(cps: seq<int>) {
    cps == [0x1F4A9]
  }

  lemma SupplementaryBias1()
    ensures Adapted(128041, 1, true) == 32
  {}

  lemma Supplementary1(cps: seq<int>, st: Encoder, out: seq<Unit>) returns (st': Encoder, out': seq<Unit>)
    requires IsSupplementary(cps) && RoundOk(cps, st)
    requires st.n == 0x80 && st.delta == 0 && st.bias == 72 && st.handled == 0
    ensures RoundOk(cps, st')
    ensures st'.n == 0x1F4AA && st'.delta == 1 && st'.bias == 32 && st'.handled == 1
    ensures out' == out + [108, 115, 56, 104]
    ensures Emit(out, EncodeRound(cps, 0, st)) == Emit(out', EncodeRound(cps, 0, st'))
  {
    LastDigit(7, 144, 72);
    MoreDigits(104, 108, 72, 8, 7, [104]);
    MoreDigits(3658, 72, 72, 17, 104, [56, 104]);
    MoreDigits(128041, 36, 72, 10, 3658, [115, 56, 104]);
    SupplementaryBias1();
    st', out' := Round(cps, 0, st, 0x1F4A9, 0, 128041, 1, 0, 0, 128041, [108, 115, 56, 104], true, 32, out);
  }

  lemma SupplementaryEncoded(cps: seq<int>)
    requires IsSupplementary(cps)
    ensures Unicode(cps) && EncodePoints(cps) == Ok([108, 115, 56, 104])
  {
    NoBasics(cps, |cps|);
    var st, out := Begin(cps, []);
    st, out := Supplementary1(cps, st, out);
    assert out == [108, 115, 56, 104];
    End(cps, 0, st, out);
  }

  /** A character above U+FFFF, `ls8h`. */
  lemma Supplementary()
    ensures var text, code: seq<Unit> := [0xD83D, 0xDCA9], [108, 115, 56, 104];
      EncodeText(text) == Ok(code) && DecodeText(code) == Ok(text)
  {
    var text: seq<Unit> := [0xD83D, 0xDCA9];
    PairPoints(text);
    SupplementaryEncoded(CodePoints(text));
    TextRoundTrip(text);
  }
}
