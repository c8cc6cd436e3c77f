/**
 The Bootstring codec of lib/punycode.js: UCS-2 conversion, bias adaptation, the
 generalized variable-length integers, and the `decode` and `encode` loops.

 A JavaScript string is a sequence of 16-bit code units. Numbers are JavaScript
 doubles holding integers, so they are unbounded here; the only operations that
 cut to 32 bits (`>>` in `adapt`) or 16 bits (`fromCharCode`) do so explicitly.
 Functions specify; the methods are the source's loops, proved equal to them.
 */
module Punycode {
  import opened Prelude

  const MAX_INT := 0x7FFF_FFFF
  const BASE := 36
  const T_MIN := 1
  const T_MAX := 26
  const SKEW := 38
  const DAMP := 700
  const INITIAL_BIAS := 72
  const INITIAL_N := 0x80
  const DELIMITER: Unit := 0x2D

  /** The bias after a division by zero in `adapt`. A bias is only ever compared with
      positive multiples of `BASE`, so any value far below zero stands for -Infinity. */
  const MINUS_INFINITY := -0x1_0000_0000

  type Unit = x: int | 0 <= x < 0x1_0000

  datatype Error = Overflow | NotBasic | InvalidInput

  // ---------------------------------------------------------------- UCS-2

  /** `(unit & 0xF800) == 0xD800`: any surrogate, high or low. */
  predicate IsSurrogate(unit: Unit) {
    0xD800 <= unit <= 0xDFFF
  }

  /** `(unit & 0xFC00) == 0xDC00` */
  predicate IsLowSurrogate(unit: Unit) {
    0xDC00 <= unit <= 0xDFFF
  }

  function Combine(value: Unit, extra: Unit): int {
    value % 0x400 * 0x400 + extra % 0x400 + 0x1_0000
  }

  /** How many units one step of the scan takes. */
  function StepSize(s: seq<Unit>): (n: nat)
    requires s != []
    ensures n <= |s|
  {
    if IsSurrogate(s[0]) && 1 < |s| then 2 else 1
  }

  /** The code points one step of the scan yields. */
  function StepPoints(s: seq<Unit>): seq<int>
    requires s != []
  {
    if StepSize(s) == 1 then [s[0]]
    else if IsLowSurrogate(s[1]) then [Combine(s[0], s[1])]
    else [s[0], s[1]]
  }

  function CodePoints(s: seq<Unit>): seq<int> {
    if s == [] then [] else StepPoints(s) + CodePoints(s[StepSize(s)..])
  }

  lemma CodePointsFrom(s: seq<Unit>, from: nat, before: seq<int>)
    requires from < |s|
    ensures var rest := s[from..];
            before + CodePoints(rest) == before + StepPoints(rest) + CodePoints(s[from + StepSize(rest)..])
  {
    var rest := s[from..];
    assert rest[StepSize(rest)..] == s[from + StepSize(rest)..];
    assert before + (StepPoints(rest) + CodePoints(rest[StepSize(rest)..]))
        == before + StepPoints(rest) + CodePoints(rest[StepSize(rest)..]);
  }

  method Ucs2Decode(s: seq<Unit>) returns (output: seq<int>)
    ensures output == CodePoints(s)
  {
    output := [];
    var counter := 0;
    while counter < |s|
      invariant counter <= |s|
      invariant output + CodePoints(s[counter..]) == CodePoints(s)
    {
      CodePointsFrom(s, counter, output);
      var value := s[counter];
      counter := counter + 1;
      if IsSurrogate(value) && counter < |s| {
        var extra := s[counter];
        counter := counter + 1;
        if IsLowSurrogate(extra) {
          output := output + [Combine(value, extra)];
        } else {
          output := output + [value, extra];
        }
      } else {
        output := output + [value];
      }
    }
  }

  /** The text of one code point. `fromCharCode` keeps the low 16 bits. */
  function Units(value: int): seq<Unit> {
    if value > 0xFFFF then
      var v := value - 0x1_0000;
      [0xD800 + v / 0x400 % 0x400, 0xDC00 + v % 0x400]
    else [value % 0x1_0000]
  }

  function Text(codePoints: seq<int>): seq<Unit> {
    if codePoints == [] then [] else Units(codePoints[0]) + Text(codePoints[1..])
  }

  lemma {:induction false} TextAppend(xs: seq<int>, ys: seq<int>)
    ensures Text(xs + ys) == Text(xs) + Text(ys)
  {
    if xs == [] {
      assert xs + ys == ys;
    } else {
      assert (xs + ys)[1..] == xs[1..] + ys;
      TextAppend(xs[1..], ys);
    }
  }

  /** `map` walks the array from its last element to its first; `join` concatenates. */
  method Ucs2Encode(codePoints: seq<int>) returns (s: seq<Unit>)
    ensures s == Text(codePoints)
  {
    s := [];
    var length := |codePoints|;
    while length > 0
      invariant 0 <= length <= |codePoints|
      invariant s == Text(codePoints[length..])
    {
      length := length - 1;
      s := Units(codePoints[length]) + s;
      assert codePoints[length..][1..] == codePoints[length + 1..];
    }
    assert codePoints[0..] == codePoints;
  }

  // ---------------------------------------------------------------- digits and bias

  function BasicToDigit(codePoint: int): int {
    if codePoint - 48 < 10 then codePoint - 22
    else if codePoint - 65 < 26 then codePoint - 65
    else if codePoint - 97 < 26 then codePoint - 97
    else BASE
  }

  /** `digitToBasic(digit, 0)` */
  function DigitToBasic(digit: int): int {
    digit + 22 + (if digit < 26 then 75 else 0)
  }

  function Threshold(k: int, bias: int): (t: int)
    ensures T_MIN <= t <= T_MAX
  {
    if k <= bias then T_MIN else if k >= bias + T_MAX then T_MAX else k - bias
  }

  function Distance(x: int, y: int): nat {
    if x < y then y - x else x - y
  }

  /** Of all thresholds allowed it is the nearest to `k - bias`. */
  lemma ThresholdIsNearest(k: int, bias: int, t: int)
    requires T_MIN <= t <= T_MAX
    ensures Distance(Threshold(k, bias), k - bias) <= Distance(t, k - bias)
  {}

  /** `x | 0`: the signed 32-bit integer congruent to `x`. */
  function ToInt32(x: int): int {
    (x + 0x8000_0000) % 0x1_0000_0000 - 0x8000_0000
  }

  function AdaptScale(delta: int, k: int): int
    decreases if delta < 0 then 0 else delta
  {
    if delta > 455 then AdaptScale(delta / 35, k + BASE)
    else if delta + SKEW > 0 then k + 36 * delta / (delta + SKEW)
    else if delta + SKEW < 0 then k + (-36 * delta) / (-(delta + SKEW))
    else MINUS_INFINITY
  }

  function Adapted(delta: int, numPoints: int, firstTime: bool): int
    requires numPoints > 0
  {
    var d := if firstTime then delta / DAMP else ToInt32(delta) / 2;
    AdaptScale(d + d / numPoints, 0)
  }

  method Adapt(delta: int, numPoints: int, firstTime: bool) returns (bias: int)
    requires numPoints > 0
    ensures bias == Adapted(delta, numPoints, firstTime)
  {
    var k := 0;
    var d := if firstTime then delta / DAMP else ToInt32(delta) / 2;
    d := d + d / numPoints;
    while d > 455
      invariant AdaptScale(d, k) == Adapted(delta, numPoints, firstTime)
      decreases d
    {
      d := d / 35;
      k := k + BASE;
    }
    if d + SKEW > 0 {
      bias := k + 36 * d / (d + SKEW);
    } else if d + SKEW < 0 {
      bias := k + (-36 * d) / (-(d + SKEW));
    } else {
      bias := MINUS_INFINITY;
    }
  }

  /** It is the one signed 32-bit integer that differs from `x` by a multiple of 2^32. */
  lemma ToInt32Meaning(x: int, y: int)
    requires -0x8000_0000 <= y < 0x8000_0000
    ensures ToInt32(x) == y <==> (x - y) % 0x1_0000_0000 == 0
  {}

  /** Up to 2^31 - 1 the halving of `adapt` is that of the standard; from there on it is not. */
  lemma HalvingWraps(delta: int, numPoints: int)
    requires 0 <= delta && numPoints > 0
    ensures delta <= MAX_INT ==> Adapted(delta, numPoints, false) == AdaptScale(delta / 2 + delta / 2 / numPoints, 0)
    ensures Adapted(0x8000_0000, 1, false) == 36 && AdaptScale(0x8000_0000 / 2 + 0x8000_0000 / 2 / 1, 0) > 36
  {
    ToInt32Meaning(delta, if delta <= MAX_INT then delta else 0);
    var d := 0x8000_0000;
    assert ToInt32(d) == -0x8000_0000;
    assert AdaptScale(d, 0) == AdaptScale(d / 35, BASE);
    Above(d / 35, BASE);
  }

  lemma {:induction false} Above(delta: nat, k: int)
    requires delta > 455
    ensures AdaptScale(delta, k) > k
    decreases delta
  {
    if delta / 35 > 455 {
      Above(delta / 35, k + BASE);
    }
  }

  // ---------------------------------------------------------------- decode

  datatype Vli = Vli(i: int, rest: seq<Unit>)

  /** Reads one variable-length integer at the front of `s`, adding it into `i`. */
  function ReadVli(s: seq<Unit>, i: int, w: int, k: int, bias: int): (r: Result<Vli, Error>)
    requires w > 0
    ensures r.Ok? ==> |r.value.rest| < |s|
    decreases |s|
  {
    if s == [] then Err(InvalidInput)
    else
      var digit := BasicToDigit(s[0]);
      if digit >= BASE || digit > (MAX_INT - i) / w then Err(Overflow)
      else
        var i' := i + digit * w;
        var t := Threshold(k, bias);
        if digit < t then Ok(Vli(i', s[1..]))
        else if w > MAX_INT / (BASE - t) then Err(Overflow)
        else ReadVli(s[1..], i', w * (BASE - t), k + BASE, bias)
  }

  /** JavaScript's `%`: the result takes the sign of the dividend. */
  function JsRemainder(x: int, m: int): (r: int)
    requires m > 0
    ensures -m < r < m
  {
    if x >= 0 then x % m else -((-x) % m)
  }

  /** What is taken off is a multiple of the divisor, and what is left is not on the other side of 0. */
  lemma RemainderSign(x: int, m: int) returns (q: int)
    requires m > 0
    ensures x == m * q + JsRemainder(x, m)
    ensures if x >= 0 then JsRemainder(x, m) >= 0 else JsRemainder(x, m) <= 0
  {
    if x >= 0 {
      q := x / m;
    } else {
      q := -(-x / m);
      assert -x == m * (-x / m) + (-x) % m;
      Negated(m, -x / m);
    }
  }

  lemma Negated(m: int, q: int)
    ensures m * -q == -(m * q)
  {}

  /** `output.splice(at, 0, x)`: a negative position counts from the end. */
  function Splice(output: seq<int>, at: int, x: int): (r: seq<int>)
    requires at <= |output|
    ensures |r| == |output| + 1
  {
    var p := if at >= 0 then at else if |output| + at >= 0 then |output| + at else 0;
    output[..p] + [x] + output[p..]
  }

  datatype Decoder = Decoder(i: int, n: int, bias: int, output: seq<int>)

  /** The end of one round of the decoding loop: `i` is the value just read on top of `st.i`. */
  function Placed(st: Decoder, i: int): Result<Decoder, Error> {
    var out := |st.output| + 1;
    if i / out > MAX_INT - st.n then Err(Overflow)
    else
      var n := st.n + i / out;
      var at := JsRemainder(i, out);
      Ok(Decoder(at + 1, n, Adapted(i - st.i, out, st.i == 0), Splice(st.output, at, n)))
  }

  function DecodeTail(s: seq<Unit>, st: Decoder): Result<seq<int>, Error>
    decreases |s|
  {
    if s == [] then Ok(st.output)
    else
      match ReadVli(s, st.i, 1, BASE, st.bias)
      case Err(e) => Err(e)
      case Ok(Vli(i, rest)) =>
        match Placed(st, i)
        case Err(e) => Err(e)
        case Ok(st') => DecodeTail(rest, st')
  }

  function LastIndexOf(s: seq<Unit>, x: Unit): (r: int)
    ensures -1 <= r < |s|
    ensures r >= 0 ==> s[r] == x
    ensures x !in s[r + 1..]
  {
    if s == [] then -1
    else if s[|s| - 1] == x then |s| - 1
    else LastIndexOf(s[..|s| - 1], x)
  }

  predicate AllBasic(s: seq<Unit>) {
    forall j :: 0 <= j < |s| ==> s[j] < 0x80
  }

  /** How many code points stand before the last delimiter, or 0. */
  function BasicCount(input: seq<Unit>): (basic: nat)
    ensures basic == 0 || (basic < |input| && input[basic] == DELIMITER)
  {
    var last := LastIndexOf(input, DELIMITER);
    if last < 0 then 0 else last
  }

  function TailStart(basic: nat): nat {
    if basic > 0 then basic + 1 else 0
  }

  function DecodePoints(input: seq<Unit>): Result<seq<int>, Error> {
    var basic := BasicCount(input);
    if !AllBasic(input[..basic]) then Err(NotBasic)
    else DecodeTail(input[TailStart(basic)..], Decoder(0, INITIAL_N, INITIAL_BIAS, input[..basic]))
  }

  function DecodeText(input: seq<Unit>): Result<seq<Unit>, Error> {
    match DecodePoints(input)
    case Err(e) => Err(e)
    case Ok(output) => Ok(Text(output))
  }

  /** The inner loop of `decode`: one variable-length integer, from position `start`. */
  method DecodeVli(input: seq<Unit>, start: nat, oldi: int, bias: int) returns (r: Result<(int, nat), Error>)
    requires start <= |input|
    ensures r.Err? ==> ReadVli(input[start..], oldi, 1, BASE, bias) == Err(r.error)
    ensures r.Ok? ==> start < r.value.1 <= |input|
    ensures r.Ok? ==> ReadVli(input[start..], oldi, 1, BASE, bias) == Ok(Vli(r.value.0, input[r.value.1..]))
  {
    var i, w, k, index := oldi, 1, BASE, start;
    while true
      invariant w > 0
      invariant start <= index <= |input|
      invariant ReadVli(input[index..], i, w, k, bias) == ReadVli(input[start..], oldi, 1, BASE, bias)
      decreases |input| - index
    {
      if index >= |input| {
        return Err(InvalidInput);
      }
      var digit := BasicToDigit(input[index]);
      assert input[index..][1..] == input[index + 1..];
      index := index + 1;
      if digit >= BASE || digit > (MAX_INT - i) / w {
        return Err(Overflow);
      }
      i := i + digit * w;
      var t := Threshold(k, bias);
      if digit < t {
        return Ok((i, index));
      }
      var baseMinusT := BASE - t;
      if w > MAX_INT / baseMinusT {
        return Err(Overflow);
      }
      WeightPositive(w, baseMinusT);
      w := w * baseMinusT;
      k := k + BASE;
    }
  }

  /** The copying loop of `decode`; `None` when it meets a code unit that is not basic. */
  method CopyBasic(input: seq<Unit>, basic: nat) returns (output: Option<seq<Unit>>)
    requires basic <= |input|
    ensures output == if AllBasic(input[..basic]) then Some(input[..basic]) else None
  {
    var copied: seq<Unit> := [];
    var j := 0;
    while j < basic
      invariant 0 <= j <= basic
      invariant AllBasic(input[..j])
      invariant copied == input[..j]
    {
      if input[j] >= 0x80 {
        assert input[..basic][j] >= 0x80;
        return None;
      }
      copied := copied + [input[j]];
      j := j + 1;
    }
    return Some(copied);
  }

  /** The last part of a round of `decode`: new bias, overflow check, insertion. */
  method Place(st: Decoder, value: int) returns (r: Result<Decoder, Error>)
    ensures r == Placed(st, value)
  {
    var i, n, output := value, st.n, st.output;
    var out := |output| + 1;
    var bias := Adapt(i - st.i, out, st.i == 0);
    if i / out > MAX_INT - n {
      return Err(Overflow);
    }
    n := n + i / out;
    i := JsRemainder(i, out);
    output := Splice(output, i, n);
    i := i + 1;
    r := Ok(Decoder(i, n, bias, output));
  }

  /** The main loop of `decode`. */
  method DecodeRounds(input: seq<Unit>, start: nat, initial: Decoder) returns (r: Result<seq<int>, Error>)
    requires start <= |input|
    ensures r == DecodeTail(input[start..], initial)
  {
    var st, index := initial, start;
    while index < |input|
      invariant start <= index <= |input|
      invariant DecodeTail(input[index..], st) == DecodeTail(input[start..], initial)
    {
      var vli := DecodeVli(input, index, st.i, st.bias);
      if vli.Err? {
        return Err(vli.error);
      }
      index := vli.value.1;
      var placed := Place(st, vli.value.0);
      if placed.Err? {
        return Err(placed.error);
      }
      st := placed.value;
    }
    return Ok(st.output);
  }

  method Decode(input: seq<Unit>) returns (r: Result<seq<Unit>, Error>)
    ensures r == DecodeText(input)
  {
    var basic := BasicCount(input);
    var copied := CopyBasic(input, basic);
    if copied.None? {
      return Err(NotBasic);
    }
    var output := DecodeRounds(input, TailStart(basic), Decoder(0, INITIAL_N, INITIAL_BIAS, copied.value));
    match output
    case Err(e) => r := Err(e);
    case Ok(codePoints) =>
      var text := Ucs2Encode(codePoints);
      r := Ok(text);
  }

  lemma WeightPositive(w: int, m: int)
    requires w > 0 && m > 0
    ensures w * m > 0
  {}

  // ---------------------------------------------------------------- encode

  /** Is position `p` handled once the scan for value `n` has reached position `j`? */
  predicate IsHandled(cps: seq<int>, n: int, j: int, p: int)
    requires 0 <= p < |cps|
  {
    cps[p] < n || (cps[p] == n && p < j)
  }

  /** The handled ones among the first `m` code points, in input order. */
  function Handled(cps: seq<int>, n: int, j: int, m: nat): (r: seq<int>)
    requires m <= |cps|
    ensures |r| <= m
    ensures |r| == m ==> r == cps[..m]
  {
    if m == 0 then []
    else Handled(cps, n, j, m - 1) + if IsHandled(cps, n, j, m - 1) then [cps[m - 1]] else []
  }

  /** The smallest of the first `m` code points that is at least `n`, or `MAX_INT`. */
  function Smallest(cps: seq<int>, n: int, m: nat): int
    requires m <= |cps|
  {
    if m == 0 then MAX_INT
    else
      var best := Smallest(cps, n, m - 1);
      if n <= cps[m - 1] < best then cps[m - 1] else best
  }

  predicate Unicode(cps: seq<int>) {
    forall p :: 0 <= p < |cps| ==> 0 <= cps[p] <= 0x10_FFFF
  }

  lemma {:induction false} CodePointsAreUnicode(s: seq<Unit>)
    ensures Unicode(CodePoints(s))
  {
    if s != [] {
      CodePointsAreUnicode(s[StepSize(s)..]);
    }
  }

  lemma {:induction false} SmallestFacts(cps: seq<int>, n: int, m: nat)
    requires m <= |cps| && Unicode(cps)
    ensures n <= MAX_INT ==> n <= Smallest(cps, n, m)
    ensures forall p :: 0 <= p < m && cps[p] >= n ==> Smallest(cps, n, m) <= cps[p]
    ensures Smallest(cps, n, m) != MAX_INT ==> exists p :: 0 <= p < m && cps[p] == Smallest(cps, n, m)
  {
    if m > 0 {
      SmallestFacts(cps, n, m - 1);
    }
  }

  lemma {:induction false} HandledSame(cps: seq<int>, n: int, j: int, n': int, j': int, m: nat)
    requires m <= |cps|
    requires forall p :: 0 <= p < m ==> IsHandled(cps, n, j, p) == IsHandled(cps, n', j', p)
    ensures Handled(cps, n, j, m) == Handled(cps, n', j', m)
  {
    if m > 0 {
      assert IsHandled(cps, n, j, m - 1) == IsHandled(cps, n', j', m - 1);
      HandledSame(cps, n, j, n', j', m - 1);
    }
  }

  /** While something is unhandled, the next value is a real code point. */
  lemma {:induction false} SomethingLeft(cps: seq<int>, n: int, m: nat)
    requires m <= |cps| && Unicode(cps)
    requires |Handled(cps, n, 0, m)| < m
    ensures n <= Smallest(cps, n, m) <= 0x10_FFFF
  {
    SmallestFacts(cps, n, m);
    if IsHandled(cps, n, 0, m - 1) {
      SmallestFacts(cps, n, m - 1);
      SomethingLeft(cps, n, m - 1);
    } else {
      assert cps[m - 1] >= n;
    }
  }

  lemma NextValueHandlesNothingNew(cps: seq<int>, n: int)
    requires Unicode(cps)
    requires |Handled(cps, n, 0, |cps|)| < |cps|
    ensures var m := Smallest(cps, n, |cps|); Handled(cps, m, 0, |cps|) == Handled(cps, n, 0, |cps|)
  {
    var m := Smallest(cps, n, |cps|);
    SmallestFacts(cps, n, |cps|);
    SomethingLeft(cps, n, |cps|);
    HandledSame(cps, m, 0, n, 0, |cps|);
  }

  lemma PassDone(cps: seq<int>, n: int)
    ensures Handled(cps, n, |cps|, |cps|) == Handled(cps, n + 1, 0, |cps|)
  {
    HandledSame(cps, n, |cps|, n + 1, 0, |cps|);
  }

  /** Advancing the scan over position `j` inserts `cps[j]`, if it equals `n`, right after
      the code points handled to its left. */
  lemma {:induction false} HandledStep(cps: seq<int>, n: int, j: nat, m: nat)
    requires j < |cps| && m <= |cps|
    ensures var before := Handled(cps, n, j, m);
            var after := Handled(cps, n, j + 1, m);
            if cps[j] == n && j < m then
              var at := |Handled(cps, n, j, j)|;
              at <= |before| && after == before[..at] + [n] + before[at..]
            else after == before
    ensures j <= m ==> Handled(cps, n, j, j) <= Handled(cps, n, j, m)
  {
    if m > 0 {
      HandledStep(cps, n, j, m - 1);
      if j == m - 1 {
        HandledSame(cps, n, j, n, j + 1, j);
      }
    }
  }

  lemma HandledCount(cps: seq<int>, n: int, j: nat)
    requires j < |cps|
    ensures |Handled(cps, n, j + 1, |cps|)| == |Handled(cps, n, j, |cps|)| + (if cps[j] == n then 1 else 0)
  {
    HandledStep(cps, n, j, |cps|);
  }

  lemma QuotientAtMost(x: nat, m: nat)
    requires m > 0
    ensures 0 <= x / m <= x
  {
    if x < m {
      SmallQuotient(x, m);
    } else {
      Scale(1, m, x / m);
    }
  }

  lemma SmallQuotient(d: int, a: int)
    requires 0 <= d < a
    ensures d / a == 0
  {}

  /** One division step of the variable-length code. */
  lemma VliStep(q: nat, t: int)
    requires T_MIN <= t <= T_MAX && t <= q
    ensures 0 <= (q - t) % (BASE - t) < BASE - t
    ensures 0 <= (q - t) / (BASE - t) < q
    ensures q == t + (q - t) % (BASE - t) + (q - t) / (BASE - t) * (BASE - t)
  {
    QuotientAtMost(q - t, BASE - t);
  }

  /** The variable-length integer for `q`, most digits first being the least significant. */
  function VliDigits(q: nat, k: int, bias: int): (digits: seq<Unit>)
    ensures |digits| > 0
    decreases q
  {
    var t := Threshold(k, bias);
    if q < t then [DigitToBasic(q)]
    else
      VliStep(q, t);
      [DigitToBasic(t + (q - t) % (BASE - t))] + VliDigits((q - t) / (BASE - t), k + BASE, bias)
  }

  /** `plusOne` is the source's `handledCPCountPlusOne`: taken before the scan for `n`, and not
      counted up during it. */
  datatype Encoder = Encoder(n: int, delta: int, bias: int, handled: nat, plusOne: nat)

  function Emit(digits: seq<Unit>, rest: Result<seq<Unit>, Error>): Result<seq<Unit>, Error> {
    match rest
    case Err(e) => Err(e)
    case Ok(s) => Ok(digits + s)
  }

  ghost predicate EncoderOk(cps: seq<int>, j: nat, st: Encoder) {
    && j <= |cps| && Unicode(cps)
    && 0 <= st.n && 0 <= st.delta
    && st.handled == |Handled(cps, st.n, j, |cps|)|
  }

  /** Between two scans `delta` was counted up once more, without a look at the limit. */
  ghost predicate RoundOk(cps: seq<int>, st: Encoder) {
    EncoderOk(cps, 0, st) && st.delta <= MAX_INT + 1
  }

  /** During a scan `delta` is within the limit. It counts from the last occurrence of `n`, if
      there was one, and so only smaller code points to the left of `j`. */
  ghost predicate ScanOk(cps: seq<int>, j: nat, st: Encoder) {
    && EncoderOk(cps, j, st)
    && st.n <= 0x10_FFFF && st.delta <= MAX_INT
    && st.plusOne == |Handled(cps, st.n, 0, |cps|)| + 1
    && st.plusOne <= st.handled + 1
    && (st.plusOne != st.handled + 1 ==> st.delta <= |Handled(cps, st.n, 0, j)|)
  }

  /** The start of the scan for `m`. */
  function ScanStart(st: Encoder, m: int): Encoder {
    Encoder(m, st.delta + (m - st.n) * (st.handled + 1), st.bias, st.handled, st.handled + 1)
  }

  /** The encoder after an occurrence of `n` was written. */
  function AfterEmit(st: Encoder, basic: nat): Encoder
    requires st.plusOne > 0
  {
    Encoder(st.n, 0, Adapted(st.delta, st.plusOne, st.handled == basic), st.handled + 1, st.plusOne)
  }

  lemma GuardMeaning(x: int, w: int, limit: int)
    requires w > 0
    ensures x > limit / w <==> x * w > limit
  {
    var d := limit / w;
    assert d * w <= limit < d * w + w;
    if x > d {
      assert x * w >= (d + 1) * w by { Scale(d + 1, x, w); }
      assert (d + 1) * w == d * w + w;
    } else {
      Scale(x, d, w);
    }
  }

  lemma Scale(a: int, b: int, w: int)
    requires a <= b && w >= 0
    ensures a * w <= b * w
  {}

  lemma NextScan(cps: seq<int>, st: Encoder)
    requires RoundOk(cps, st) && st.handled < |cps|
    ensures var m := Smallest(cps, st.n, |cps|);
      && st.n <= m
      && (m - st.n <= (MAX_INT - st.delta) / (st.handled + 1) ==> ScanOk(cps, 0, ScanStart(st, m)))
  {
    SomethingLeft(cps, st.n, |cps|);
    NextValueHandlesNothingNew(cps, st.n);
    var m := Smallest(cps, st.n, |cps|);
    GuardMeaning(m - st.n, st.handled + 1, MAX_INT - st.delta);
    GapPositive(m - st.n, st.handled + 1);
  }

  lemma ScanDone(cps: seq<int>, st: Encoder)
    requires ScanOk(cps, |cps|, st)
    ensures RoundOk(cps, st.(n := st.n + 1, delta := st.delta + 1))
  {
    PassDone(cps, st.n);
  }

  lemma ScanStep(cps: seq<int>, j: nat, basic: nat, st: Encoder)
    requires ScanOk(cps, j, st) && j < |cps|
    ensures cps[j] < st.n && st.delta < MAX_INT ==> ScanOk(cps, j + 1, st.(delta := st.delta + 1))
    ensures cps[j] == st.n ==> ScanOk(cps, j + 1, AfterEmit(st, basic))
    ensures cps[j] > st.n ==> ScanOk(cps, j + 1, st)
  {
    HandledCount(cps, st.n, j);
  }

  /** What the encoder still emits when it is about to look for the next value. */
  function EncodeRound(cps: seq<int>, basic: nat, st: Encoder): Result<seq<Unit>, Error>
    requires RoundOk(cps, st)
    decreases 0x11_0000 - st.n, 2, 0
  {
    if st.handled >= |cps| then Ok([])
    else
      NextScan(cps, st);
      var m := Smallest(cps, st.n, |cps|);
      if m - st.n > (MAX_INT - st.delta) / (st.handled + 1) then Err(Overflow)
      else EncodePass(cps, basic, 0, ScanStart(st, m))
  }

  /** What the encoder still emits when the scan for value `st.n` is at position `j`. */
  function EncodePass(cps: seq<int>, basic: nat, j: nat, st: Encoder): Result<seq<Unit>, Error>
    requires ScanOk(cps, j, st)
    decreases 0x11_0000 - st.n, 1, |cps| - j
  {
    if j == |cps| then
      ScanDone(cps, st);
      EncodeRound(cps, basic, st.(n := st.n + 1, delta := st.delta + 1))
    else
      ScanStep(cps, j, basic, st);
      if cps[j] < st.n then
        if st.delta + 1 > MAX_INT then Err(Overflow)
        else EncodePass(cps, basic, j + 1, st.(delta := st.delta + 1))
      else if cps[j] == st.n then
        Emit(VliDigits(st.delta, BASE, st.bias), EncodePass(cps, basic, j + 1, AfterEmit(st, basic)))
      else EncodePass(cps, basic, j + 1, st)
  }

  lemma GapPositive(gap: int, m: int)
    requires gap >= 0 && m > 0
    ensures gap * m >= 0
  {}

  /** The basic code points of the first `m`. */
  function Basics(cps: seq<int>, m: nat): (r: seq<Unit>)
    requires m <= |cps| && Unicode(cps)
    ensures AllBasic(r)
    ensures r == Handled(cps, INITIAL_N, 0, m)
  {
    if m == 0 then []
    else Basics(cps, m - 1) + if cps[m - 1] < 0x80 then [cps[m - 1]] else []
  }

  function FirstState(basic: nat): Encoder {
    Encoder(INITIAL_N, 0, INITIAL_BIAS, basic, 0)
  }

  function EncodePoints(cps: seq<int>): Result<seq<Unit>, Error>
    requires Unicode(cps)
  {
    var basics := Basics(cps, |cps|);
    var delimited := if basics == [] then basics else basics + [DELIMITER];
    Emit(delimited, EncodeRound(cps, |basics|, FirstState(|basics|)))
  }

  function EncodeText(input: seq<Unit>): Result<seq<Unit>, Error> {
    CodePointsAreUnicode(input);
    EncodePoints(CodePoints(input))
  }

  method EncodeVli(delta: nat, bias: int) returns (digits: seq<Unit>)
    ensures digits == VliDigits(delta, BASE, bias)
  {
    digits := [];
    var q, k := delta, BASE;
    while true
      invariant q >= 0
      invariant digits + VliDigits(q, k, bias) == VliDigits(delta, BASE, bias)
      decreases q
    {
      var t := Threshold(k, bias);
      if q < t {
        break;
      }
      var qMinusT, baseMinusT := q - t, BASE - t;
      VliStep(q, t);
      assert digits + [DigitToBasic(t + qMinusT % baseMinusT)] + VliDigits(qMinusT / baseMinusT, k + BASE, bias)
          == digits + VliDigits(q, k, bias);
      digits := digits + [DigitToBasic(t + qMinusT % baseMinusT)];
      q := qMinusT / baseMinusT;
      k := k + BASE;
    }
    digits := digits + [DigitToBasic(q)];
  }

  lemma EmitEmit(a: seq<Unit>, b: seq<Unit>, rest: Result<seq<Unit>, Error>)
    ensures Emit(a, Emit(b, rest)) == Emit(a + b, rest)
  {
    match rest
    case Err(_) =>
    case Ok(s) => assert a + (b + s) == a + b + s;
  }

  lemma EmitNothing(rest: Result<seq<Unit>, Error>)
    ensures Emit([], rest) == rest
  {
    match rest
    case Err(_) =>
    case Ok(s) => assert [] + s == s;
  }

  /** The first inner loop of `encode`. */
  method FindNext(input: seq<int>, n: int) returns (m: int)
    ensures m == Smallest(input, n, |input|)
  {
    m := MAX_INT;
    var j := 0;
    while j < |input|
      invariant 0 <= j <= |input|
      invariant m == Smallest(input, n, j)
    {
      if n <= input[j] < m {
        m := input[j];
      }
      j := j + 1;
    }
  }

  /** The second inner loop of `encode`: emits every occurrence of `st.n`. The count for the
      bias is the one taken before the loop. */
  method EncodeOccurrences(input: seq<int>, basic: nat, st: Encoder) returns (r: Result<(seq<Unit>, Encoder), Error>)
    requires ScanOk(input, 0, st)
    ensures r.Err? ==> EncodePass(input, basic, 0, st) == Err(r.error)
    ensures r.Ok? ==> ScanOk(input, |input|, r.value.1) && r.value.1.n == st.n
    ensures r.Ok? ==> EncodePass(input, basic, 0, st) == Emit(r.value.0, EncodePass(input, basic, |input|, r.value.1))
  {
    var output: seq<Unit> := [];
    var delta, bias, handled, plusOne := st.delta, st.bias, st.handled, st.plusOne;
    var j := 0;
    EmitNothing(EncodePass(input, basic, 0, st));
    while j < |input|
      invariant 0 <= j <= |input|
      invariant ScanOk(input, j, Encoder(st.n, delta, bias, handled, plusOne))
      invariant Emit(output, EncodePass(input, basic, j, Encoder(st.n, delta, bias, handled, plusOne)))
             == EncodePass(input, basic, 0, st)
    {
      ghost var now := Encoder(st.n, delta, bias, handled, plusOne);
      ScanStep(input, j, basic, now);
      if input[j] < st.n {
        delta := delta + 1;
        if delta > MAX_INT {
          return Err(Overflow);
        }
      }
      if input[j] == st.n {
        var digits := EncodeVli(delta, bias);
        EmitEmit(output, digits, EncodePass(input, basic, j + 1, AfterEmit(now, basic)));
        output := output + digits;
        bias := Adapt(delta, plusOne, handled == basic);
        delta := 0;
        handled := handled + 1;
      }
      j := j + 1;
    }
    r := Ok((output, Encoder(st.n, delta, bias, handled, plusOne)));
  }

  /** The loop of `encode` that copies the basic code points. */
  method CollectBasic(input: seq<int>) returns (output: seq<Unit>)
    requires Unicode(input)
    ensures output == Basics(input, |input|)
  {
    output := [];
    var j := 0;
    while j < |input|
      invariant 0 <= j <= |input|
      invariant output == Basics(input, j)
    {
      if input[j] < 0x80 {
        output := output + [input[j]];
      }
      j := j + 1;
    }
  }

  /** One round of the main loop of `encode`. */
  method EncodeNext(input: seq<int>, basic: nat, st: Encoder) returns (r: Result<(seq<Unit>, Encoder), Error>)
    requires RoundOk(input, st) && st.handled < |input|
    ensures r.Err? ==> EncodeRound(input, basic, st) == Err(r.error)
    ensures r.Ok? ==> RoundOk(input, r.value.1) && st.n < r.value.1.n <= 0x11_0000
    ensures r.Ok? ==> EncodeRound(input, basic, st) == Emit(r.value.0, EncodeRound(input, basic, r.value.1))
  {
    NextScan(input, st);
    var m := FindNext(input, st.n);
    if m - st.n > (MAX_INT - st.delta) / (st.handled + 1) {
      return Err(Overflow);
    }
    var pass := EncodeOccurrences(input, basic, ScanStart(st, m));
    if pass.Err? {
      return Err(pass.error);
    }
    var (digits, st') := pass.value;
    ScanDone(input, st');
    r := Ok((digits, st'.(n := m + 1, delta := st'.delta + 1)));
  }

  method Encode(text: seq<Unit>) returns (r: Result<seq<Unit>, Error>)
    ensures r == EncodeText(text)
  {
    var input := Ucs2Decode(text);
    CodePointsAreUnicode(text);
    var output := CollectBasic(input);
    var basic := |output|;
    var st := FirstState(basic);
    if basic != 0 {
      output := output + [DELIMITER];
    }
    ghost var whole := EncodePoints(input);
    while st.handled < |input|
      invariant RoundOk(input, st)
      invariant Emit(output, EncodeRound(input, basic, st)) == whole
      decreases 0x11_0000 - st.n
    {
      var round := EncodeNext(input, basic, st);
      if round.Err? {
        return Err(round.error);
      }
      EmitEmit(output, round.value.0, EncodeRound(input, basic, round.value.1));
      output, st := output + round.value.0, round.value.1;
    }
    assert output + [] == output;
    r := Ok(output);
  }
}
