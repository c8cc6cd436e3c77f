/**
 The overflow guards of lib/punycode.js: on every input `i`, `w`, `n` and the encoded deltas
 stay within 2^31 - 1, although two increments, of `i` behind an insertion and of `delta`
 between two scans, are not guarded.
 */
module PunycodeBounds {
  import opened Prelude
  import opened Punycode

  // ---------------------------------------------------------------- decode

  /** Every sum and every weight that is formed while an integer is read is in range. */
  predicate ReadBounded(s: seq<Unit>, i: int, w: int, k: int, bias: int)
    requires w > 0
    decreases |s|
  {
    w <= MAX_INT &&
    (s == [] ||
     var digit, t := BasicToDigit(s[0]), Threshold(k, bias);
     digit >= BASE || digit > (MAX_INT - i) / w ||
     (i + digit * w <= MAX_INT &&
      (digit < t || w > MAX_INT / (BASE - t) || ReadBounded(s[1..], i + digit * w, w * (BASE - t), k + BASE, bias))))
  }

  /** The two guards are enough: for any text, and from any `i`. */
  lemma {:induction false} ReadInRange(s: seq<Unit>, i: int, w: int, k: int, bias: int)
    requires 0 < w <= MAX_INT
    ensures ReadBounded(s, i, w, k, bias)
    ensures ReadVli(s, i, w, k, bias).Ok? ==> ReadVli(s, i, w, k, bias).value.i <= MAX_INT
    decreases |s|
  {
    if s != [] {
      var digit, t := BasicToDigit(s[0]), Threshold(k, bias);
      GuardMeaning(digit, w, MAX_INT - i);
      if digit < BASE && digit <= (MAX_INT - i) / w && digit >= t && w <= MAX_INT / (BASE - t) {
        GuardMeaning(w, BASE - t, MAX_INT);
        WeightPositive(w, BASE - t);
        ReadInRange(s[1..], i + digit * w, w * (BASE - t), k + BASE, bias);
      }
    }
  }

  /** Between two integers: `i` is a place in the output, or just behind it, and was counted
      up once without a guard. */
  predicate DecoderBounded(st: Decoder) {
    && st.n <= MAX_INT && st.i <= MAX_INT + 1 && -|st.output| <= st.i <= |st.output|
    && forall p :: 0 <= p < |st.output| ==> st.output[p] <= MAX_INT
  }

  lemma RemainderAtMost(x: int, m: int)
    requires m > 0 && x >= 0
    ensures JsRemainder(x, m) <= x
  {
    if x < m {
      SmallRemainder(x, m);
    }
  }

  lemma SmallRemainder(x: int, m: int)
    requires 0 <= x < m
    ensures x % m == x
  {}

  lemma PlacedBounded(st: Decoder, value: int)
    requires DecoderBounded(st) && value <= MAX_INT && Placed(st, value).Ok?
    ensures DecoderBounded(Placed(st, value).value)
  {
    if value >= 0 {
      RemainderAtMost(value, |st.output| + 1);
    }
  }

  /** The same at every integer of a text, and for everything that was put out before an error. */
  predicate DecodeBounded(s: seq<Unit>, st: Decoder)
    decreases |s|
  {
    DecoderBounded(st) && ReadBounded(s, st.i, 1, BASE, st.bias) &&
    (s == [] ||
     match ReadVli(s, st.i, 1, BASE, st.bias)
     case Err(_) => true
     case Ok(Vli(i, rest)) =>
       i <= MAX_INT &&
       match Placed(st, i)
       case Err(_) => true
       case Ok(st') => DecodeBounded(rest, st'))
  }

  lemma {:induction false} TailInRange(s: seq<Unit>, st: Decoder)
    requires DecoderBounded(st)
    ensures DecodeBounded(s, st)
    decreases |s|
  {
    ReadInRange(s, st.i, 1, BASE, st.bias);
    if s != [] {
      match ReadVli(s, st.i, 1, BASE, st.bias)
      case Err(_) =>
      case Ok(Vli(i, rest)) =>
        if Placed(st, i).Ok? {
          PlacedBounded(st, i);
          TailInRange(rest, Placed(st, i).value);
        }
    }
  }

  /** `decode` of any text whose part before the last delimiter is basic. */
  lemma DecodeInRange(input: seq<Unit>)
    ensures var basic := BasicCount(input);
      AllBasic(input[..basic]) ==>
      DecodeBounded(input[TailStart(basic)..], Decoder(0, INITIAL_N, INITIAL_BIAS, input[..basic]))
  {
    var basic := BasicCount(input);
    if AllBasic(input[..basic]) {
      TailInRange(input[TailStart(basic)..], Decoder(0, INITIAL_N, INITIAL_BIAS, input[..basic]));
    }
  }

  // ---------------------------------------------------------------- encode

  /** A delta, and the bias it is written with. */
  datatype Written = Written(delta: nat, bias: int)

  function Digits(ws: seq<Written>): seq<Unit> {
    if ws == [] then [] else VliDigits(ws[0].delta, BASE, ws[0].bias) + Digits(ws[1..])
  }

  predicate DeltasInRange(ws: seq<Written>) {
    forall p :: 0 <= p < |ws| ==> ws[p].delta <= MAX_INT
  }

  /** What the encoder writes, given as what `rest` says, and how many integers that is. */
  predicate WritesInRange(ws: seq<Written>, rest: Result<seq<Unit>, Error>, count: int) {
    rest.Ok? ==> rest.value == Digits(ws) && DeltasInRange(ws) && |ws| == count
  }

  lemma OneMore(ws: seq<Written>, w: Written, rest: Result<seq<Unit>, Error>, count: int)
    requires WritesInRange(ws, rest, count) && w.delta <= MAX_INT
    ensures WritesInRange([w] + ws, Emit(VliDigits(w.delta, BASE, w.bias), rest), count + 1)
  {
    assert ([w] + ws)[1..] == ws;
  }

  lemma {:induction false} RoundDeltas(cps: seq<int>, basic: nat, st: Encoder) returns (ws: seq<Written>)
    requires RoundOk(cps, st)
    ensures WritesInRange(ws, EncodeRound(cps, basic, st), |cps| - st.handled)
    decreases 0x11_0000 - st.n, 2, 0
  {
    ws := [];
    if st.handled < |cps| {
      NextScan(cps, st);
      var m := Smallest(cps, st.n, |cps|);
      if m - st.n <= (MAX_INT - st.delta) / (st.handled + 1) {
        ws := PassDeltas(cps, basic, 0, ScanStart(st, m));
      }
    }
  }

  lemma {:induction false} PassDeltas(cps: seq<int>, basic: nat, j: nat, st: Encoder) returns (ws: seq<Written>)
    requires ScanOk(cps, j, st)
    ensures WritesInRange(ws, EncodePass(cps, basic, j, st), |cps| - st.handled)
    decreases 0x11_0000 - st.n, 1, |cps| - j
  {
    if j == |cps| {
      ScanDone(cps, st);
      ws := RoundDeltas(cps, basic, st.(n := st.n + 1, delta := st.delta + 1));
    } else {
      ScanStep(cps, j, basic, st);
      if cps[j] == st.n {
        var later := PassDeltas(cps, basic, j + 1, AfterEmit(st, basic));
        var w := Written(st.delta, st.bias);
        OneMore(later, w, EncodePass(cps, basic, j + 1, AfterEmit(st, basic)), |cps| - st.handled - 1);
        ws := [w] + later;
      } else if cps[j] > st.n {
        ws := PassDeltas(cps, basic, j + 1, st);
      } else if st.delta + 1 <= MAX_INT {
        ws := PassDeltas(cps, basic, j + 1, st.(delta := st.delta + 1));
      } else {
        ws := [];
      }
    }
  }

  /** Every output of `encode` is the basic code points, a delimiter if there are any, and one
      integer of at most 2^31 - 1 for each of the others. */
  lemma EncodedDeltas(cps: seq<int>) returns (ws: seq<Written>)
    requires Unicode(cps)
    ensures EncodePoints(cps).Ok? ==>
      var basics := Basics(cps, |cps|);
      && EncodePoints(cps).value == basics + (if basics == [] then [] else [DELIMITER]) + Digits(ws)
      && DeltasInRange(ws) && |ws| == |cps| - |basics|
  {
    var basics := Basics(cps, |cps|);
    ws := RoundDeltas(cps, |basics|, FirstState(|basics|));
    assert basics + [] == basics;
  }

  // ---------------------------------------------------------------- the increments without a guard

  /** `delta` may pass the limit between two scans, but then the next scan reports overflow. */
  lemma PastLimit(cps: seq<int>, basic: nat, st: Encoder)
    requires RoundOk(cps, st) && st.delta > MAX_INT && st.handled < |cps|
    ensures EncodeRound(cps, basic, st) == Err(Overflow)
  {
    NextScan(cps, st);
    var m := Smallest(cps, st.n, |cps|);
    GuardMeaning(m - st.n, st.handled + 1, MAX_INT - st.delta);
    GapPositive(m - st.n, st.handled + 1);
  }
}
