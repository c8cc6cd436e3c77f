/**
 Decoding what `encode` wrote gives back the text that was encoded.

 The heart is a simulation: after every variable-length integer, the decoder holds
 exactly the code points the encoder has handled so far, with the same bias, and the
 encoder's `delta` is the distance between the decoder's <n, i> and the encoder's place.
 */
module PunycodeRoundTrip {
  import opened Prelude
  import opened Punycode

  /** Any text of at most this many code points passes both directions without overflow. */
  const SAFE_LENGTH := 1650

  // ---------------------------------------------------------------- UCS-2

  /** The scan of `ucs2decode` never takes a low surrogate as the first half of a pair. */
  predicate NoLowPair(s: seq<Unit>) {
    if s == [] then true
    else if IsSurrogate(s[0]) && 1 < |s| then
      !(IsLowSurrogate(s[0]) && IsLowSurrogate(s[1])) && NoLowPair(s[2..])
    else NoLowPair(s[1..])
  }

  lemma TextOfOne(x: int)
    ensures Text([x]) == Units(x)
  {
    assert [x][1..] == [];
  }

  lemma TextOfTwo(x: int, y: int)
    ensures Text([x, y]) == Units(x) + Units(y)
  {
    assert [x, y][1..] == [y];
    TextOfOne(y);
  }

  /** A combined pair is written back as its two halves exactly when the first is not low. */
  lemma CombineUnits(a: Unit, b: Unit)
    requires IsSurrogate(a) && IsLowSurrogate(b)
    ensures |Units(Combine(a, b))| == 2
    ensures Units(Combine(a, b)) == [a, b] <==> !IsLowSurrogate(a)
  {
    var v := Combine(a, b) - 0x1_0000;
    assert v / 0x400 == a % 0x400 && v % 0x400 == b % 0x400;
    assert Units(Combine(a, b))[1] == b;
  }

  /** One step of the scan: its code points are written with as many units as it took. */
  lemma TextOfStep(s: seq<Unit>)
    requires s != []
    ensures var n := StepSize(s);
      var head := Text(StepPoints(s));
      && |head| == n
      && (head == s[..n] <==> !(n == 2 && IsLowSurrogate(s[0]) && IsLowSurrogate(s[1])))
  {
    if IsSurrogate(s[0]) && 1 < |s| {
      if IsLowSurrogate(s[1]) {
        TextOfOne(Combine(s[0], s[1]));
        CombineUnits(s[0], s[1]);
        assert s[..2] == [s[0], s[1]];
      } else {
        TextOfTwo(s[0], s[1]);
      }
    } else {
      TextOfOne(s[0]);
    }
  }

  lemma {:induction false} TextLength(s: seq<Unit>)
    ensures |Text(CodePoints(s))| == |s|
    ensures Text(CodePoints(s)) == s <==> NoLowPair(s)
  {
    if s != [] {
      var n, head := StepSize(s), StepPoints(s);
      TextLength(s[n..]);
      TextAppend(head, CodePoints(s[n..]));
      TextOfStep(s);
      SplitEqual(Text(head), Text(CodePoints(s[n..])), s, n);
    }
  }

  lemma SplitEqual(a: seq<Unit>, b: seq<Unit>, s: seq<Unit>, n: nat)
    requires |a| == n <= |s|
    ensures a + b == s <==> a == s[..n] && b == s[n..]
  {
    if a + b == s {
      assert a == (a + b)[..n] && b == (a + b)[n..];
    }
  }

  /** Converting to code points and back returns the text if and only if the scan meets no
      low surrogate followed by another. */
  lemma Ucs2RoundTrip(s: seq<Unit>)
    ensures Text(CodePoints(s)) == s <==> NoLowPair(s)
  {
    TextLength(s);
  }

  /** The shortest text that does not survive: two low surrogates come back as a pair. */
  lemma Ucs2LosesLowPair()
    ensures Text(CodePoints([0xDC00, 0xDC00])) == [0xD800, 0xDC00]
  {
    var s: seq<Unit> := [0xDC00, 0xDC00];
    assert StepPoints(s) == [Combine(s[0], s[1])];
    assert CodePoints(s[2..]) == [];
    TextOfOne(Combine(s[0], s[1]));
  }

  // ---------------------------------------------------------------- digits

  lemma DigitInverse(d: int)
    requires 0 <= d < BASE
    ensures BasicToDigit(DigitToBasic(d)) == d
    ensures 'a' as int <= DigitToBasic(d) <= 'z' as int || '0' as int <= DigitToBasic(d) <= '9' as int
  {}

  /** The digits and letters, and everything past the letters. */
  predicate DigitCharacter(c: int) {
    48 <= c < 58 || 65 <= c < 91 || 97 <= c < 123
  }

  /** The documentation of `basicToDigit` promises `base` for every code point that stands
      for no digit. That holds only from the end of the lower-case letters on: the gaps
      below '0', between '9' and 'A' and between 'Z' and 'a' yield other numbers. */
  lemma BasicToDigitAsDocumented(c: int)
    ensures (if DigitCharacter(c) then 0 <= BasicToDigit(c) < BASE else BasicToDigit(c) == BASE)
       <==> DigitCharacter(c) || c >= 123
  {}

  // ---------------------------------------------------------------- variable-length integers

  /** No weight the decoder forms while reading `q` exceeds `MAX_INT`. */
  predicate WeightFits(q: nat, w: int, k: int, bias: int)
    decreases q
  {
    var t := Threshold(k, bias);
    if q < t then true
    else
      VliStep(q, t);
      w * (BASE - t) <= MAX_INT && WeightFits((q - t) / (BASE - t), w * (BASE - t), k + BASE, bias)
  }

  lemma Regroup(q: int, d: int, q': int, m: int, w: int)
    requires q == d + q' * m
    ensures q * w == d * w + q' * (w * m)
  {}

  lemma WeightGuard(w: int, m: int)
    requires w > 0 && m > 0
    ensures w > MAX_INT / m <==> w * m > MAX_INT
  {
    GuardMeaning(w, m, MAX_INT);
  }

  /** The code is self-delimiting: the decoder reads `q` back from the front of any text,
      and reports overflow exactly when the sum or one of its weights is too large. */
  lemma {:induction false} ReadBack(q: nat, i: int, w: int, k: int, bias: int, rest: seq<Unit>)
    requires w > 0
    ensures ReadVli(VliDigits(q, k, bias) + rest, i, w, k, bias)
         == if i + q * w <= MAX_INT && WeightFits(q, w, k, bias) then Ok(Vli(i + q * w, rest)) else Err(Overflow)
    decreases q
  {
    var t := Threshold(k, bias);
    var s := VliDigits(q, k, bias) + rest;
    if q < t {
      DigitInverse(q);
      GuardMeaning(q, w, MAX_INT - i);
      assert s[1..] == rest;
    } else {
      VliStep(q, t);
      var m := BASE - t;
      var d, q' := t + (q - t) % m, (q - t) / m;
      DigitInverse(d);
      GuardMeaning(d, w, MAX_INT - i);
      Regroup(q, d, q', m, w);
      WeightPositive(w, m);
      WeightGuard(w, m);
      assert s[1..] == VliDigits(q', k + BASE, bias) + rest;
      assert q' * (w * m) >= 0 by { Scale(0, q', w * m); }
      if w * m <= MAX_INT {
        ReadBack(q', i + d * w, w * m, k + BASE, bias, rest);
      }
    }
  }

  function Power35(j: nat): int {
    if j == 0 then 1 else 35 * Power35(j - 1)
  }

  lemma {:induction false} Power35Grows(i: nat, j: nat)
    requires i <= j
    ensures 0 < Power35(i) <= Power35(j)
  {
    if i < j {
      Power35Grows(i, j - 1);
    } else if i > 0 {
      Power35Grows(i - 1, j - 1);
    }
  }

  lemma Power35At6()
    ensures Power35(6) == 1838265625
  {
    assert Power35(2) == 1225;
    assert Power35(4) == 1500625;
  }

  lemma Shrinks(q: int, t: int, m: int, w: int)
    requires q >= t >= 1 && m > 0 && w > 0
    ensures 0 <= (q - t) / m * (w * m) <= q * w
  {
    var d := (q - t) / m;
    assert 0 <= d * m <= q;
    Scale(0, d * m, w);
    Scale(d * m, q, w);
    assert d * m * w == d * (w * m);
  }

  /** After `j` digits the weight is 35^j as long as all thresholds were 1. */
  predicate WeightIs(w: int, j: nat, bias: int) {
    j == 0 || j * BASE <= bias ==> w == Power35(j)
  }

  lemma NextWeightIs(w: int, j: nat, bias: int)
    requires w > 0 && WeightIs(w, j, bias)
    ensures WeightIs(w * (BASE - Threshold((j + 1) * BASE, bias)), j + 1, bias)
  {}

  /** A threshold of 26 means the value outgrows the weight; a smaller one, that the weight
      is a power of 35. */
  lemma NextWeightFits(q: nat, w: int, j: nat, bias: int)
    requires w > 0 && WeightIs(w, j, bias)
    requires q * w < Power35(6)
    requires q >= Threshold((j + 1) * BASE, bias)
    ensures w * (BASE - Threshold((j + 1) * BASE, bias)) <= MAX_INT
  {
    var t := Threshold((j + 1) * BASE, bias);
    Power35At6();
    Scale(t, q, w);
    if t == T_MAX {
      assert w * (BASE - t) <= t * w;
    } else {
      assert w == Power35(j);
      SmallPower(j, q);
      Power35Grows(j + 1, 6);
      Scale(BASE - t, 35, w);
    }
  }

  lemma SmallPower(j: nat, q: nat)
    requires q >= 1 && q * Power35(j) < Power35(6)
    ensures j < 6
  {
    if j >= 6 {
      Power35Grows(6, j);
      Scale(1, q, Power35(j));
    }
  }

  /** Every weight fits for values below 35^6. */
  lemma {:induction false} SmallValuesFit(q: nat, w: int, j: nat, bias: int)
    requires w > 0 && WeightIs(w, j, bias)
    requires q * w < Power35(6)
    ensures WeightFits(q, w, (j + 1) * BASE, bias)
    decreases q
  {
    var k := (j + 1) * BASE;
    var t := Threshold(k, bias);
    if q >= t {
      var m := BASE - t;
      VliStep(q, t);
      NextWeightFits(q, w, j, bias);
      NextWeightIs(w, j, bias);
      Shrinks(q, t, m, w);
      WeightPositive(w, m);
      SmallValuesFit((q - t) / m, w * m, j + 1, bias);
      assert k + BASE == (j + 2) * BASE;
    }
  }

  // ---------------------------------------------------------------- the simulation

  /** How the decoder relates to the encoder when the scan for `st.n` is at position `j`. */
  ghost predicate InStep(cps: seq<int>, basic: nat, j: nat, st: Encoder, dec: Decoder) {
    && EncoderOk(cps, j, st)
    && dec.output == Handled(cps, st.n, j, |cps|)
    && dec.bias == st.bias
    && 0x80 <= dec.n && 0 <= dec.i
    && (dec.i == 0 <==> st.handled == basic)
    && basic <= st.handled
    && st.delta == (st.n - dec.n) * (st.handled + 1) + |Handled(cps, st.n, j, j)| - dec.i
  }

  /** `rest`, what the encoder still emits, brings the decoder to the whole input. */
  predicate Delivers(cps: seq<int>, rest: Result<seq<Unit>, Error>, dec: Decoder) {
    match rest
    case Err(e) => e == Overflow && |cps| > SAFE_LENGTH
    case Ok(s) =>
      || DecodeTail(s, dec) == Ok(cps)
      || (DecodeTail(s, dec) == Err(Overflow) && |cps| > SAFE_LENGTH)
  }

  lemma ZeroFactor(a: int, m: int)
    requires -m < a * m < m
    ensures a == 0
  {
    if a >= 1 {
      Scale(1, a, m);
    } else if a <= -1 {
      Scale(a, -1, m);
    }
  }

  lemma DivideExactly(gap: int, m: int, c: int)
    requires m > 0 && 0 <= c < m
    ensures (gap * m + c) / m == gap && (gap * m + c) % m == c
  {
    var v := gap * m + c;
    assert v == v / m * m + v % m;
    assert (v / m - gap) * m == c - v % m;
    ZeroFactor(v / m - gap, m);
  }

  /** The decoder's index plus the encoder's `delta` stays small for texts of safe length. */
  lemma SafeDelta(cps: seq<int>, basic: nat, j: nat, st: Encoder, dec: Decoder)
    requires InStep(cps, basic, j, st, dec) && j < |cps|
    requires dec.n <= st.n <= 0x10_FFFF
    requires st.handled < |cps| <= SAFE_LENGTH
    ensures dec.i + st.delta < Power35(6)
  {
    Power35At6();
    Scale(st.n - dec.n, 0x10_FFFF - 0x80, st.handled + 1);
    Scale(st.handled + 1, SAFE_LENGTH, 0x10_FFFF - 0x80);
  }

  lemma DecoderBehind(n: int, d: int, handled: nat, c: nat, i: int, delta: int)
    requires delta == (n - d) * (handled + 1) + c - i
    requires delta >= 0 && i >= 0 && c <= handled
    ensures d <= n
  {
    if d > n {
      Scale(n - d, -1, handled + 1);
    }
  }

  lemma HandledPrefix(cps: seq<int>, n: int, j: nat)
    requires j <= |cps|
    ensures |Handled(cps, n, j, j)| <= |Handled(cps, n, j, |cps|)|
  {
    if j < |cps| {
      HandledStep(cps, n, j, |cps|);
    }
  }

  lemma CountStep(cps: seq<int>, n: int, j: nat)
    requires j < |cps|
    ensures |Handled(cps, n, j + 1, j + 1)| == |Handled(cps, n, j, j)| + (if cps[j] <= n then 1 else 0)
  {
    HandledSame(cps, n, j + 1, n, j, j);
  }

  /** An unhandled position leaves fewer handled code points than there are. */
  lemma {:induction false} NotAllHandled(cps: seq<int>, n: int, j: nat, m: nat)
    requires j < m <= |cps| && cps[j] >= n
    ensures |Handled(cps, n, j, m)| < m
  {
    if j < m - 1 {
      NotAllHandled(cps, n, j, m - 1);
    }
  }

  lemma {:induction false} FewerSmaller(cps: seq<int>, n: int, j: nat, m: nat)
    requires j <= m <= |cps|
    ensures |Handled(cps, n, 0, j)| <= |Handled(cps, n, 0, m)|
  {
    if j < m {
      FewerSmaller(cps, n, j, m - 1);
    }
  }

  lemma SameBias(delta: int, a: int, b: int, first: bool)
    requires 0 <= delta <= MAX_INT && delta < a <= b
    ensures Adapted(delta, a, first) == Adapted(delta, b, first)
  {
    var d := if first then delta / DAMP else ToInt32(delta) / 2;
    SmallQuotient(d, a);
    SmallQuotient(d, b);
  }

  /** The count the encoder adapts the bias with was taken before the scan. At the first
      occurrence of n it is the current one; at a later one `delta` only counts smaller code
      points, of which there are fewer than either count, so the bias is the same. */
  lemma StaleCountIsEnough(cps: seq<int>, j: nat, st: Encoder, first: bool)
    requires ScanOk(cps, j, st)
    ensures Adapted(st.delta, st.plusOne, first) == Adapted(st.delta, st.handled + 1, first)
  {
    if st.plusOne != st.handled + 1 {
      FewerSmaller(cps, st.n, j, |cps|);
      SameBias(st.delta, st.plusOne, st.handled + 1, first);
    }
  }

  /** What the decoder makes of an integer that takes it `gap` rounds further, to place `c`. */
  lemma PlacedAt(dec: Decoder, delta: int, gap: int, c: nat)
    requires 0 <= gap <= MAX_INT - dec.n && c <= |dec.output|
    requires dec.i + delta == gap * (|dec.output| + 1) + c
    ensures var bias := Adapted(delta, |dec.output| + 1, dec.i == 0);
      Placed(dec, dec.i + delta) == Ok(Decoder(c + 1, dec.n + gap, bias, Splice(dec.output, c, dec.n + gap)))
  {
    GapPositive(gap, |dec.output| + 1);
    DivideExactly(gap, |dec.output| + 1, c);
  }

  /** The place is the one behind the handled code points to the left of the occurrence. */
  lemma EmitPlaced(cps: seq<int>, basic: nat, j: nat, st: Encoder, dec: Decoder)
    requires InStep(cps, basic, j, st, dec) && st.n <= 0x10_FFFF
    ensures var c := |Handled(cps, st.n, j, j)|;
      && c <= |dec.output| && dec.n <= st.n
      && dec.i + st.delta == (st.n - dec.n) * (|dec.output| + 1) + c
  {
    HandledPrefix(cps, st.n, j);
    DecoderBehind(st.n, dec.n, st.handled, |Handled(cps, st.n, j, j)|, dec.i, st.delta);
  }

  lemma InsertedOutput(cps: seq<int>, j: nat, st: Encoder, output: seq<int>)
    requires EncoderOk(cps, j, st) && j < |cps| && cps[j] == st.n && output == Handled(cps, st.n, j, |cps|)
    ensures var c := |Handled(cps, st.n, j, j)|;
      && c <= |output| && Splice(output, c, st.n) == Handled(cps, st.n, j + 1, |cps|)
      && |Handled(cps, st.n, j + 1, j + 1)| == c + 1
      && |Handled(cps, st.n, j + 1, |cps|)| == st.handled + 1
  {
    HandledStep(cps, st.n, j, |cps|);
    CountStep(cps, st.n, j);
  }

  lemma NoGap(n: int, w: int)
    ensures (n - n) * w == 0
  {}

  /** The encoder with the next code point handled, and the decoder with it inserted. */
  lemma InsertedInStep(cps: seq<int>, basic: nat, j: nat, st: Encoder, output: seq<int>, bias: int)
    requires EncoderOk(cps, j, st) && j < |cps| && cps[j] == st.n && output == Handled(cps, st.n, j, |cps|)
    requires basic <= st.handled && 0x80 <= st.n && st.plusOne > 0
    requires bias == Adapted(st.delta, st.plusOne, st.handled == basic) && |Handled(cps, st.n, j, j)| <= |output|
    ensures var c := |Handled(cps, st.n, j, j)|;
      InStep(cps, basic, j + 1, AfterEmit(st, basic), Decoder(c + 1, st.n, bias, Splice(output, c, st.n)))
  {
    InsertedOutput(cps, j, st, output);
    NoGap(st.n, st.handled + 2);
  }

  /** One emitted integer moves the decoder to where the encoder is. */
  lemma PlacedInStep(cps: seq<int>, basic: nat, j: nat, st: Encoder, dec: Decoder)
    requires InStep(cps, basic, j, st, dec) && ScanOk(cps, j, st)
    requires j < |cps| && cps[j] == st.n
    ensures var r := Placed(dec, dec.i + st.delta);
      r.Ok? && InStep(cps, basic, j + 1, AfterEmit(st, basic), r.value)
  {
    EmitPlaced(cps, basic, j, st, dec);
    PlacedAt(dec, st.delta, st.n - dec.n, |Handled(cps, st.n, j, j)|);
    StaleCountIsEnough(cps, j, st, st.handled == basic);
    InsertedInStep(cps, basic, j, st, dec.output, Placed(dec, dec.i + st.delta).value.bias);
  }

  lemma DecoderNotAhead(cps: seq<int>, basic: nat, j: nat, st: Encoder, dec: Decoder)
    requires InStep(cps, basic, j, st, dec)
    ensures dec.n <= st.n
  {
    HandledPrefix(cps, st.n, j);
    DecoderBehind(st.n, dec.n, st.handled, |Handled(cps, st.n, j, j)|, dec.i, st.delta);
  }

  lemma SafeRead(cps: seq<int>, basic: nat, j: nat, st: Encoder, dec: Decoder)
    requires InStep(cps, basic, j, st, dec)
    requires j < |cps| <= SAFE_LENGTH && cps[j] == st.n <= 0x10_FFFF
    ensures dec.i + st.delta <= MAX_INT && WeightFits(st.delta, 1, BASE, st.bias)
  {
    NotAllHandled(cps, st.n, j, |cps|);
    DecoderNotAhead(cps, basic, j, st, dec);
    SafeDelta(cps, basic, j, st, dec);
    Power35At6();
    SmallValuesFit(st.delta, 1, 0, st.bias);
  }

  /** What follows one emitted integer. */
  lemma DeliversEmitted(cps: seq<int>, basic: nat, j: nat, st: Encoder, dec: Decoder, rest: Result<seq<Unit>, Error>)
    requires InStep(cps, basic, j, st, dec)
    requires j < |cps| && cps[j] == st.n <= 0x10_FFFF
    requires Placed(dec, dec.i + st.delta).Ok?
    requires Delivers(cps, rest, Placed(dec, dec.i + st.delta).value)
    ensures Delivers(cps, Emit(VliDigits(st.delta, BASE, st.bias), rest), dec)
  {
    match rest
    case Err(_) =>
    case Ok(s) =>
      ReadBack(st.delta, dec.i, 1, BASE, st.bias, s);
      if |cps| <= SAFE_LENGTH {
        SafeRead(cps, basic, j, st, dec);
      }
      assert VliDigits(st.delta, BASE, st.bias) + s != [];
  }

  lemma ScanStartOk(cps: seq<int>, st: Encoder)
    requires EncoderOk(cps, 0, st) && st.handled < |cps|
    ensures var m := Smallest(cps, st.n, |cps|);
      && st.n <= m <= 0x10_FFFF && EncoderOk(cps, 0, ScanStart(st, m))
      && Handled(cps, m, 0, |cps|) == Handled(cps, st.n, 0, |cps|)
  {
    SomethingLeft(cps, st.n, |cps|);
    NextValueHandlesNothingNew(cps, st.n);
    GapPositive(Smallest(cps, st.n, |cps|) - st.n, st.handled + 1);
  }

  lemma AddGaps(m: int, n: int, d: int, w: int)
    ensures (m - n) * w + (n - d) * w == (m - d) * w
  {}

  lemma ScanStartInStep(cps: seq<int>, basic: nat, st: Encoder, dec: Decoder)
    requires InStep(cps, basic, 0, st, dec) && st.handled < |cps| && dec.n <= st.n
    ensures InStep(cps, basic, 0, ScanStart(st, Smallest(cps, st.n, |cps|)), dec)
  {
    ScanStartOk(cps, st);
    AddGaps(Smallest(cps, st.n, |cps|), st.n, dec.n, st.handled + 1);
  }

  /** The guard in front of a scan reports nothing for texts of safe length. */
  lemma SafeStart(cps: seq<int>, basic: nat, st: Encoder, dec: Decoder)
    requires InStep(cps, basic, 0, st, dec) && st.handled < |cps| <= SAFE_LENGTH && dec.n <= st.n
    ensures Smallest(cps, st.n, |cps|) - st.n <= (MAX_INT - st.delta) / (st.handled + 1)
  {
    var m := Smallest(cps, st.n, |cps|);
    ScanStartOk(cps, st);
    ScanStartInStep(cps, basic, st, dec);
    SafeDelta(cps, basic, 0, ScanStart(st, m), dec);
    Power35At6();
    GuardMeaning(m - st.n, st.handled + 1, MAX_INT - st.delta);
  }

  lemma {:induction false} SimulateRound(cps: seq<int>, basic: nat, st: Encoder, dec: Decoder)
    requires InStep(cps, basic, 0, st, dec) && RoundOk(cps, st) && dec.n <= st.n
    ensures Delivers(cps, EncodeRound(cps, basic, st), dec)
    decreases 0x11_0000 - st.n, 2, 0
  {
    if st.handled < |cps| {
      var m := Smallest(cps, st.n, |cps|);
      NextScan(cps, st);
      if |cps| <= SAFE_LENGTH {
        SafeStart(cps, basic, st, dec);
      }
      if m - st.n <= (MAX_INT - st.delta) / (st.handled + 1) {
        ScanStartInStep(cps, basic, st, dec);
        SimulatePass(cps, basic, 0, ScanStart(st, m), dec);
      }
    } else {
      assert dec.output == cps[..|cps|] == cps;
    }
  }

  lemma SkipInStep(cps: seq<int>, basic: nat, j: nat, st: Encoder, dec: Decoder)
    requires InStep(cps, basic, j, st, dec) && j < |cps| && cps[j] != st.n
    ensures InStep(cps, basic, j + 1, if cps[j] < st.n then st.(delta := st.delta + 1) else st, dec)
  {
    HandledCount(cps, st.n, j);
    HandledStep(cps, st.n, j, |cps|);
    CountStep(cps, st.n, j);
  }

  lemma WrapInStep(cps: seq<int>, basic: nat, st: Encoder, dec: Decoder)
    requires InStep(cps, basic, |cps|, st, dec)
    ensures InStep(cps, basic, 0, st.(n := st.n + 1, delta := st.delta + 1), dec)
  {
    PassDone(cps, st.n);
    var h := st.handled;
    assert (st.n + 1 - dec.n) * (h + 1) == (st.n - dec.n) * (h + 1) + h + 1;
  }

  lemma {:induction false} SimulatePass(cps: seq<int>, basic: nat, j: nat, st: Encoder, dec: Decoder)
    requires InStep(cps, basic, j, st, dec) && ScanOk(cps, j, st) && dec.n <= st.n
    ensures Delivers(cps, EncodePass(cps, basic, j, st), dec)
    decreases 0x11_0000 - st.n, 1, |cps| - j
  {
    if j == |cps| {
      ScanDone(cps, st);
      WrapInStep(cps, basic, st, dec);
      SimulateRound(cps, basic, st.(n := st.n + 1, delta := st.delta + 1), dec);
    } else {
      ScanStep(cps, j, basic, st);
      if cps[j] == st.n {
        SimulateEmit(cps, basic, j, st, dec);
      } else {
        SkipInStep(cps, basic, j, st, dec);
        if cps[j] > st.n {
          SimulatePass(cps, basic, j + 1, st, dec);
        } else {
          if |cps| <= SAFE_LENGTH {
            Bounded(cps, basic, j, st, dec);
          }
          if st.delta + 1 <= MAX_INT {
            SimulatePass(cps, basic, j + 1, st.(delta := st.delta + 1), dec);
          }
        }
      }
    }
  }

  lemma {:induction false} SimulateEmit(cps: seq<int>, basic: nat, j: nat, st: Encoder, dec: Decoder)
    requires InStep(cps, basic, j, st, dec) && ScanOk(cps, j, st) && dec.n <= st.n
    requires j < |cps| && cps[j] == st.n && ScanOk(cps, j + 1, AfterEmit(st, basic))
    ensures Delivers(cps, EncodePass(cps, basic, j, st), dec)
    decreases 0x11_0000 - st.n, 1, |cps| - j, 0
  {
    PlacedInStep(cps, basic, j, st, dec);
    var dec' := Placed(dec, dec.i + st.delta).value;
    DecoderNotAhead(cps, basic, j + 1, AfterEmit(st, basic), dec');
    SimulatePass(cps, basic, j + 1, AfterEmit(st, basic), dec');
    DeliversEmitted(cps, basic, j, st, dec, EncodePass(cps, basic, j + 1, AfterEmit(st, basic)));
  }

  lemma Bounded(cps: seq<int>, basic: nat, j: nat, st: Encoder, dec: Decoder)
    requires InStep(cps, basic, j, st, dec)
    requires dec.n <= st.n <= 0x10_FFFF && |cps| <= SAFE_LENGTH
    ensures st.delta + 1 <= MAX_INT
  {
    HandledPrefix(cps, st.n, j);
    Scale(st.n - dec.n, 0x10_FFFF, st.handled + 1);
    Scale(st.handled + 1, SAFE_LENGTH + 1, 0x10_FFFF);
  }

  // ---------------------------------------------------------------- the theorems

  lemma {:induction false} DigitsHaveNoDelimiter(q: nat, k: int, bias: int)
    ensures DELIMITER !in VliDigits(q, k, bias)
    decreases q
  {
    var t := Threshold(k, bias);
    if q < t {
      DigitInverse(q);
    } else {
      VliStep(q, t);
      DigitInverse(t + (q - t) % (BASE - t));
      DigitsHaveNoDelimiter((q - t) / (BASE - t), k + BASE, bias);
    }
  }

  ghost predicate NoDelimiter(r: Result<seq<Unit>, Error>) {
    r.Ok? ==> DELIMITER !in r.value
  }

  lemma {:induction false} RoundHasNoDelimiter(cps: seq<int>, basic: nat, st: Encoder)
    requires RoundOk(cps, st)
    ensures NoDelimiter(EncodeRound(cps, basic, st))
    decreases 0x11_0000 - st.n, 2, 0
  {
    if st.handled < |cps| {
      NextScan(cps, st);
      var m := Smallest(cps, st.n, |cps|);
      if m - st.n <= (MAX_INT - st.delta) / (st.handled + 1) {
        PassHasNoDelimiter(cps, basic, 0, ScanStart(st, m));
      }
    }
  }

  lemma {:induction false} PassHasNoDelimiter(cps: seq<int>, basic: nat, j: nat, st: Encoder)
    requires ScanOk(cps, j, st)
    ensures NoDelimiter(EncodePass(cps, basic, j, st))
    decreases 0x11_0000 - st.n, 1, |cps| - j
  {
    if j == |cps| {
      ScanDone(cps, st);
      RoundHasNoDelimiter(cps, basic, st.(n := st.n + 1, delta := st.delta + 1));
    } else {
      ScanStep(cps, j, basic, st);
      if cps[j] == st.n {
        DigitsHaveNoDelimiter(st.delta, BASE, st.bias);
        PassHasNoDelimiter(cps, basic, j + 1, AfterEmit(st, basic));
      } else if cps[j] > st.n {
        PassHasNoDelimiter(cps, basic, j + 1, st);
      } else if st.delta + 1 <= MAX_INT {
        PassHasNoDelimiter(cps, basic, j + 1, st.(delta := st.delta + 1));
      }
    }
  }

  lemma FoundFrom(s: seq<Unit>, from: nat, p: nat)
    requires from <= |s| && p < |s|
    ensures from <= p ==> s[p] in s[from..]
  {
    if from <= p {
      assert s[from..][p - from] == s[p];
    }
  }

  lemma LastIndexUnique(s: seq<Unit>, x: Unit, p: nat)
    requires p < |s| && s[p] == x && x !in s[p + 1..]
    ensures LastIndexOf(s, x) == p
  {
    var r := LastIndexOf(s, x);
    forall q | p < q < |s|
      ensures s[q] != x
    {
      assert s[q] == s[p + 1..][q - p - 1];
    }
    FoundFrom(s, r + 1, p);
  }

  /** For every sequence of code points, decoding the encoder's output gives the sequence
      back, unless one side reports overflow; and neither does up to `SAFE_LENGTH`. */
  lemma RoundTrip(cps: seq<int>)
    requires Unicode(cps)
    ensures match EncodePoints(cps)
      case Err(e) => e == Overflow && |cps| > SAFE_LENGTH
      case Ok(s) =>
        || DecodePoints(s) == Ok(cps)
        || (DecodePoints(s) == Err(Overflow) && |cps| > SAFE_LENGTH)
  {
    var basics := Basics(cps, |cps|);
    var st := FirstState(|basics|);
    var dec := Decoder(0, INITIAL_N, INITIAL_BIAS, basics);
    SimulateRound(cps, |basics|, st, dec);
    RoundHasNoDelimiter(cps, |basics|, st);
    match EncodeRound(cps, |basics|, st)
    case Err(_) =>
    case Ok(tail) =>
      if basics == [] {
        var s: seq<Unit> := basics + tail;
        assert s == tail;
        assert LastIndexOf(s, DELIMITER) == -1;
        assert s[..0] == basics && s[0..] == tail;
      } else {
        var s: seq<Unit> := basics + [DELIMITER] + tail;
        assert s[|basics| + 1..] == tail;
        LastIndexUnique(s, DELIMITER, |basics|);
        assert s[..|basics|] == basics;
      }
  }

  /** The round trip on texts: exact for every text whose surrogates are not two lows in
      a row, for as long as no overflow is reported. */
  lemma TextRoundTrip(text: seq<Unit>)
    ensures match EncodeText(text)
      case Err(e) => e == Overflow && |CodePoints(text)| > SAFE_LENGTH
      case Ok(s) =>
        match DecodeText(s)
        case Err(e) => e == Overflow && |CodePoints(text)| > SAFE_LENGTH
        case Ok(text') => |text'| == |text| && (text' == text <==> NoLowPair(text))
  {
    CodePointsAreUnicode(text);
    RoundTrip(CodePoints(text));
    TextLength(text);
  }

  /** The methods themselves: encoding and then decoding. */
  method EncodeThenDecode(text: seq<Unit>) returns (same: bool)
    requires NoLowPair(text) && |CodePoints(text)| <= SAFE_LENGTH
    ensures same
  {
    TextRoundTrip(text);
    var encoded := Encode(text);
    var decoded := Decode(encoded.value);
    same := decoded == Ok(text);
  }
}
