/** Which of its three errors `decode` reports. */
module PunycodeErrors {
  import opened Prelude
  import opened Punycode

  /** Input that ends inside an integer is reported as invalid. */
  lemma {:induction false} CutShort(s: seq<Unit>, i: int, w: int, k: int, bias: int, n: nat)
    requires w > 0 && ReadVli(s, i, w, k, bias).Ok? && n < |s| - |ReadVli(s, i, w, k, bias).value.rest|
    ensures ReadVli(s[..n], i, w, k, bias) == Err(InvalidInput)
    decreases n
  {
    if n > 0 {
      var digit, t := BasicToDigit(s[0]), Threshold(k, bias);
      assert s[..n][0] == s[0] && s[..n][1..] == s[1..][..n - 1];
      if digit >= t {
        CutShort(s[1..], i + digit * w, w * (BASE - t), k + BASE, bias, n - 1);
      }
    }
  }

  /** Input that ended too early goes on behind its first character, and so does any that begins with the same. */
  lemma ReadsOn(s: seq<Unit>, u: seq<Unit>, i: int, w: int, k: int, bias: int)
    requires w > 0 && s != [] && u != [] && s[0] == u[0] && ReadVli(s, i, w, k, bias) == Err(InvalidInput)
    ensures var digit, t := BasicToDigit(s[0]), Threshold(k, bias);
      && w * (BASE - t) > 0
      && ReadVli(s, i, w, k, bias) == ReadVli(s[1..], i + digit * w, w * (BASE - t), k + BASE, bias)
      && ReadVli(u, i, w, k, bias) == ReadVli(u[1..], i + digit * w, w * (BASE - t), k + BASE, bias)
  {
    WeightPositive(w, BASE - Threshold(k, bias));
  }

  /** A character that is no digit is reported as overflow, wherever in an integer it stands. */
  lemma {:induction false} BadDigit(s: seq<Unit>, i: int, w: int, k: int, bias: int, n: nat)
    requires w > 0 && n < |s| && BasicToDigit(s[n]) >= BASE
    requires ReadVli(s[..n], i, w, k, bias) == Err(InvalidInput)
    ensures ReadVli(s, i, w, k, bias) == Err(Overflow)
    decreases n
  {
    if n > 0 {
      var digit, t := BasicToDigit(s[0]), Threshold(k, bias);
      ReadsOn(s[..n], s, i, w, k, bias);
      assert s[..n][1..] == s[1..][..n - 1];
      BadDigit(s[1..], i + digit * w, w * (BASE - t), k + BASE, bias, n - 1);
    }
  }

  /** An integer that was read is made of digits, and ends with the first one below its threshold. */
  lemma {:induction false} ReadDigits(s: seq<Unit>, i: int, w: int, k: int, bias: int)
    requires w > 0 && ReadVli(s, i, w, k, bias).Ok?
    ensures var n := |s| - |ReadVli(s, i, w, k, bias).value.rest|;
      && 0 < n <= |s| && ReadVli(s, i, w, k, bias).value.rest == s[n..]
      && (forall j :: 0 <= j < n ==> BasicToDigit(s[j]) < BASE)
      && (forall j :: 0 <= j < n - 1 ==> BasicToDigit(s[j]) >= Threshold(k + j * BASE, bias))
      && BasicToDigit(s[n - 1]) < Threshold(k + (n - 1) * BASE, bias)
    decreases |s|
  {
    var digit, t := BasicToDigit(s[0]), Threshold(k, bias);
    var n := |s| - |ReadVli(s, i, w, k, bias).value.rest|;
    if digit >= t {
      var i', w' := i + digit * w, w * (BASE - t);
      ReadDigits(s[1..], i', w', k + BASE, bias);
      assert s[1..][n - 1..] == s[n..];
      forall j | 0 <= j < n
        ensures BasicToDigit(s[j]) < BASE
        ensures j < n - 1 ==> BasicToDigit(s[j]) >= Threshold(k + j * BASE, bias)
      {
        if j > 0 {
          assert s[j] == s[1..][j - 1] && k + BASE + (j - 1) * BASE == k + j * BASE;
        }
      }
      assert k + BASE + (n - 2) * BASE == k + (n - 1) * BASE;
    }
  }

  lemma {:induction false} TailErrors(s: seq<Unit>, st: Decoder)
    ensures DecodeTail(s, st) != Err(NotBasic)
    decreases |s|
  {
    if s != [] {
      var r := ReadVli(s, st.i, 1, BASE, st.bias);
      ReadErrors(s, st.i, 1, BASE, st.bias);
      if r.Ok? && Placed(st, r.value.i).Ok? {
        TailErrors(r.value.rest, Placed(st, r.value.i).value);
      }
    }
  }

  lemma {:induction false} ReadErrors(s: seq<Unit>, i: int, w: int, k: int, bias: int)
    requires w > 0
    ensures ReadVli(s, i, w, k, bias) != Err(NotBasic)
    decreases |s|
  {
    if s != [] {
      var digit, t := BasicToDigit(s[0]), Threshold(k, bias);
      if !(digit >= BASE || digit > (MAX_INT - i) / w || digit < t || w > MAX_INT / (BASE - t)) {
        ReadErrors(s[1..], i + digit * w, w * (BASE - t), k + BASE, bias);
      }
    }
  }

  /** Some delimiter has a code unit in front of it that is not basic. */
  predicate NotBasicBefore(input: seq<Unit>) {
    exists j, k :: 0 <= j < k < |input| && input[k] == DELIMITER && input[j] >= 0x80
  }

  lemma BasicBefore(input: seq<Unit>)
    ensures AllBasic(input[..BasicCount(input)]) <==> !NotBasicBefore(input)
  {
    var basic := BasicCount(input);
    if AllBasic(input[..basic]) {
      forall j, k | 0 <= j < k < |input| && input[k] == DELIMITER ensures input[j] < 0x80 {
        LastDelimiter(input, k);
        assert input[..basic][j] == input[j];
      }
    } else {
      var j :| 0 <= j < basic && input[..basic][j] >= 0x80;
      assert input[basic] == DELIMITER && input[j] >= 0x80;
    }
  }

  /** Exactly then `decode` reports that. */
  lemma NotBasicIff(input: seq<Unit>)
    ensures DecodePoints(input) == Err(NotBasic) <==> NotBasicBefore(input)
  {
    BasicBefore(input);
    var basic := BasicCount(input);
    TailErrors(input[TailStart(basic)..], Decoder(0, INITIAL_N, INITIAL_BIAS, input[..basic]));
  }

  lemma LastDelimiter(input: seq<Unit>, k: nat)
    requires k < |input| && input[k] == DELIMITER
    ensures k <= BasicCount(input)
  {
    assert k <= LastIndexOf(input, DELIMITER);
  }
}
