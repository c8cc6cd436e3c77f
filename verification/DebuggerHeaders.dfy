/** What a header line says: its key and its value, and the length that a value stands for. */
module DebuggerHeaders {
  import opened Prelude
  import opened Utf8
  import opened Debugger
  import opened DebuggerChunks

  function Spaces(n: nat): (r: Text)
    ensures |r| == n && forall i :: 0 <= i < n ==> r[i] == SPACE
  {
    if n == 0 then [] else [SPACE] + Spaces(n - 1)
  }

  predicate NoColon(s: Text) {
    forall i :: 0 <= i < |s| ==> s[i] != COLON
  }

  /** A value, and perhaps a third part of the line. */
  predicate ValueThen(value: Text, tail: Text) {
    NoColon(value) && (value != [] ==> value[0] != SPACE) && (tail != [] ==> At(tail, [COLON, SPACE], 0))
  }

  lemma {:induction false} SkipsSpaces(h: Text, at: nat, n: nat)
    requires at + n <= |h| && (forall i :: at <= i < at + n ==> h[i] == SPACE)
    requires at + n < |h| ==> h[at + n] != SPACE
    ensures SkipSpaces(h, at) == at + n
    decreases n
  {
    if n > 0 {
      SkipsSpaces(h, at + 1, n - 1);
    }
  }

  lemma SecondPart(value: Text, tail: Text)
    requires ValueThen(value, tail)
    ensures var k := IndexOf(value + tail, [COLON, SPACE], 0);
      (if k < 0 then value + tail else (value + tail)[..k]) == value
  {
    if tail == [] {
      assert value + tail == value;
      Nowhere(value, [COLON, SPACE], 0);
    } else {
      assert tail == [COLON, SPACE] + tail[2..];
      FirstAfter(value, [COLON, SPACE], tail[2..], 0);
    }
  }

  /** Where the spaces of such a line are, and what is behind them. */
  lemma LineShape(key: Text, n: nat, later: Text)
    requires n > 0
    ensures var line, at := key + ([COLON] + Spaces(n) + later), |key| + 1;
      && at + n <= |line| && line[..|key|] == key && line[at + n..] == later
      && (forall i :: at <= i < at + n ==> line[i] == SPACE)
      && [COLON] + Spaces(n) + later == [COLON, SPACE] + (Spaces(n)[1..] + later)
  {
    var line, at := key + ([COLON] + Spaces(n) + later), |key| + 1;
    forall i | at <= i < at + n ensures line[i] == SPACE {
      assert line[i] == Spaces(n)[i - at];
    }
  }

  /** The first two parts of a line: what is in front of a colon and spaces, and what is between these and the
      next colon with a space. */
  lemma LineParts(key: Text, n: nat, value: Text, tail: Text)
    requires NoColon(key) && n > 0 && ValueThen(value, tail)
    ensures KeyValue(key + ([COLON] + Spaces(n) + (value + tail))) == (key, Some(value))
  {
    var line, at := key + ([COLON] + Spaces(n) + (value + tail)), |key| + 1;
    LineShape(key, n, value + tail);
    FirstAfter(key, [COLON, SPACE], Spaces(n)[1..] + (value + tail), 0);
    SpaceEnds(line, at + n, value, tail);
    SkipsSpaces(line, at, n);
    PartsOf(line, |key|, at + n, value, tail);
  }

  lemma PartsOf(line: Text, k: nat, at: nat, value: Text, tail: Text)
    requires k < at <= |line| && IndexOf(line, [COLON, SPACE], 0) == k && SkipSpaces(line, k + 1) == at
    requires line[at..] == value + tail && ValueThen(value, tail)
    ensures KeyValue(line) == (line[..k], Some(value))
  {
    SecondPart(value, tail);
  }

  lemma SpaceEnds(line: Text, at: nat, value: Text, tail: Text)
    requires at <= |line| && line[at..] == value + tail && ValueThen(value, tail)
    ensures at < |line| ==> line[at] != SPACE
  {
    if at < |line| {
      assert line[at] == (value + tail)[0];
      if value == [] {
        AtHead(tail, [COLON, SPACE], 0);
      }
    }
  }

  /** A line without a colon has no value. */
  lemma NoValue(line: Text)
    requires NoColon(line)
    ensures KeyValue(line) == (line, None)
  {
    Nowhere(line, [COLON, SPACE], 0);
  }

  /** What a value stands for: decimal digits their number, with a sign in front or without; nothing is 0. */
  lemma Numbers(n: nat)
    ensures Number(Some(Decimal(n))) == Some(n)
    ensures Number(Some([PLUS] + Decimal(n))) == Some(n)
    ensures var m := Number(Some([MINUS] + Decimal(n))); m.Some? && m.value + n == 0
    ensures Number(Some([])) == Some(0) && Number(None) == None
  {
    DecimalValue(n);
    assert ([PLUS] + Decimal(n))[1..] == Decimal(n) && ([MINUS] + Decimal(n))[1..] == Decimal(n);
  }

  /** And anything with another character in it is no number. */
  lemma NoNumber(s: Text, i: nat)
    requires i < |s| && !IsDigit(s[i]) && (i == 0 ==> s[0] != PLUS && s[0] != MINUS)
    ensures Number(Some(s)) == None
  {
    assert i > 0 ==> s[1..][i - 1] == s[i];
  }
}
