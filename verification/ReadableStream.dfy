/**
 The object of lib/_stream_readable.js, proved against the machine of module `Readable`. The
 flags of its state are kept in two records.
 */
module ReadableStream {
  import opened Prelude
  import opened Readable

  class Stream<T(==)> {
    const objectMode: bool
    var buffer: seq<seq<T>>
    var length: int
    var flow: Flow
    var ending: Ending
    ghost var delivered: seq<T>
    ghost var supplied: seq<T>

    ghost function AbsData(): Data<T>
      reads this`buffer, this`length, this`delivered, this`supplied
    {
      Data(buffer, length, delivered, supplied)
    }

    ghost function Abs(): State<T>
      reads this
    {
      State(objectMode, AbsData(), flow, ending)
    }

    constructor (objectMode: bool, highWaterMark: nat)
      ensures Abs() == NewState(objectMode, highWaterMark)
    {
      this.objectMode, buffer, length := objectMode, [], 0;
      flow := Flow(highWaterMark, false, false, true, false, false, false, false, 0, 0, 0);
      ending := Ending(false, false, false, 0, 0, false);
      delivered, supplied := [], [];
    }

    method Emit()
      modifies this`flow
      ensures flow == EmitReadable(old(flow))
    {
      flow := flow.(needReadable := false);
      if flow.emittedReadable {
        return;
      }
      flow := flow.(emittedReadable := true);
      if flow.sync {
        flow := flow.(readableTicks := flow.readableTicks + 1);
      } else {
        flow := flow.(readables := flow.readables + 1);
      }
    }

    /** `endReadable` */
    method FinishReading()
      modifies this`ending
      ensures ending == EndReadable(length, old(ending))
    {
      if length > 0 {
        ending := ending.(thrown := true);
        return;
      }
      if !ending.endEmitted && ending.calledRead {
        ending := ending.(ended := true, endTicks := ending.endTicks + 1);
      }
    }

    /** `onEofChunk` */
    method OnEof()
      modifies this`ending, this`flow
      ensures Abs() == OnEofChunk(old(Abs()))
    {
      ending := ending.(ended := true);
      if length > 0 {
        Emit();
      } else {
        FinishReading();
      }
    }

    method Store(chunk: seq<T>, addToFront: bool)
      modifies this`buffer, this`length, this`delivered, this`supplied
      ensures AbsData() == Supply(old(AbsData()), chunk, addToFront)
    {
      ghost var d := Supply(AbsData(), chunk, addToFront);
      length := length + |chunk|;
      if addToFront {
        buffer := [chunk] + buffer;
      } else {
        buffer := buffer + [chunk];
      }
      delivered, supplied := d.delivered, d.supplied;
    }

    method Notice(addToFront: bool)
      modifies this`flow
      ensures flow == Noticed(old(flow), addToFront)
    {
      if !addToFront {
        flow := flow.(reading := false);
      }
      if flow.needReadable {
        Emit();
      }
      flow := flow.(readingMore := true);
    }

    /** The branch of `readableAddChunk` for a chunk with something in it. */
    method AddSome(chunk: seq<T>, addToFront: bool)
      modifies this
      ensures Abs() == AddData(old(Abs()), chunk, addToFront)
    {
      if ending.ended && !addToFront {
        flow := flow.(errors := flow.errors + 1);
      } else if ending.endEmitted && addToFront {
        flow := flow.(errors := flow.errors + 1);
      } else {
        Store(chunk, addToFront);
        Notice(addToFront);
      }
    }

    /** `push` and `unshift`; the result says whether more may be pushed. */
    method ReadableAddChunk(a: Act<T>) returns (more: bool)
      modifies this
      ensures Abs() == AddChunk(old(Abs()), a)
      ensures ending.ended ==> !more
      ensures !ending.ended ==> (more <==> length < flow.highWaterMark || length == 0 || flow.needReadable)
      ensures more == NeedMoreData(length, flow, ending.ended)
    {
      match a {
        case PushNull =>
          flow := flow.(reading := false);
          if !ending.ended { OnEof(); }
        case Push(chunk) =>
          if chunk != [] { AddSome(chunk, false); } else { flow := flow.(reading := false); }
        case Unshift(chunk) =>
          if chunk != [] { AddSome(chunk, true); }
      }
      more := !ending.ended && (flow.needReadable || length < flow.highWaterMark || length == 0);
    }

    /** `howMuchToRead` */
    method HowMuchToRead(n: Option<int>) returns (k: int)
      modifies this`flow
      ensures k == HowMuch(n, old(Abs())) && flow == Asked(n, old(Abs()))
    {
      if length == 0 && ending.ended {
        return 0;
      }
      if objectMode {
        return if n == Some(0) then 0 else 1;
      }
      if n == None {
        if flow.flowing && buffer != [] {
          return |buffer[0]|;
        }
        return length;
      }
      if n.value <= 0 {
        return 0;
      }
      if n.value > flow.highWaterMark {
        flow := flow.(highWaterMark := RoundUp(n.value));
      }
      if n.value > length {
        if !ending.ended {
          flow := flow.(needReadable := true);
          return 0;
        }
        return length;
      }
      k := n.value;
    }

    /** The loop of `fromList`, for more than the first chunk and less than everything. */
    method PluckLoop(n: nat) returns (ret: seq<T>)
      requires ChunksOk(objectMode, buffer) && n <= |Flatten(buffer)|
      modifies this`buffer
      ensures (ret, buffer) == Pluck(old(buffer), n)
    {
      ghost var whole := Pluck(buffer, n);
      var list, c, i, l := buffer, 0, 0, |buffer|;
      ret := [];
      while i < l && c < n
        invariant c <= n && i <= l && (c < n ==> |list| == l - i)
        invariant ChunksOk(objectMode, list) && Ahead(ret, list, n - c, whole)
      {
        var buf := list[0];
        assert ChunkOk(objectMode, buf);
        var cpy := if n - c < |buf| then n - c else |buf|;
        PluckRound(objectMode, ret, list, n - c, cpy, whole);
        ret := ret + buf[..cpy];
        list := if cpy < |buf| then [buf[cpy..]] + list[1..] else list[1..];
        c := c + cpy;
        i := i + 1;
      }
      assert ret + [] == ret;
      buffer := list;
    }

    /** `fromList`, when something is wanted and something is there. */
    method FromBuffer(n: nat) returns (ret: seq<T>)
      requires n > 0 && buffer != [] && length == |Flatten(buffer)| && ChunksOk(objectMode, buffer)
      requires Amount(objectMode, length, n)
      modifies this`buffer
      ensures (ret, buffer) == FromList(n, old(buffer))
    {
      FirstChunk(objectMode, buffer);
      if objectMode {
        ret := buffer[0];
        buffer := buffer[1..];
      } else if n >= length {
        ret := Concat(buffer);
        buffer := [];
      } else if n < |buffer[0]| {
        var buf := buffer[0];
        ret := buf[..n];
        buffer := [buf[n..]] + buffer[1..];
      } else if n == |buffer[0]| {
        ret := buffer[0];
        buffer := buffer[1..];
      } else {
        ret := PluckLoop(n);
      }
    }

    /** `Buffer.concat` */
    method Concat(list: seq<seq<T>>) returns (all: seq<T>)
      ensures all == Flatten(list)
    {
      all := [];
      for i := 0 to |list|
        invariant all == Flatten(list[..i])
      {
        assert list[..i + 1] == list[..i] + [list[i]];
        FlattenSnoc(list[..i], list[i]);
        all := all + list[i];
      }
      assert list[..|list|] == list;
    }

    method CallUnderlying(acts: seq<Act<T>>)
      modifies this
      ensures Abs() == CallRead(old(Abs()), acts)
    {
      flow := flow.(reading := true, sync := true);
      if length == 0 {
        flow := flow.(needReadable := true);
      }
      ghost var before := Abs();
      for i := 0 to |acts|
        invariant Abs() == AddAll(before, acts[..i])
      {
        assert acts[..i + 1][..i] == acts[..i];
        var _ := ReadableAddChunk(acts[i]);
      }
      assert acts[..|acts|] == acts;
      flow := flow.(sync := false);
    }

    method MarkDrained()
      modifies this`flow, this`ending
      ensures Abs() == Drained(old(Abs()))
    {
      if length == 0 && !ending.ended {
        flow := flow.(needReadable := true);
      }
      if ending.ended && !ending.endEmitted && length == 0 {
        FinishReading();
      }
    }

    method TakeFromBuffer(n: int) returns (ret: Option<seq<T>>)
      requires Sound(Abs()) && Amount(objectMode, length, n)
      modifies this
      ensures (Abs(), ret) == TakeOut(old(Abs()), n)
    {
      if n <= 0 || buffer == [] {
        ret := None;
        flow := flow.(needReadable := true);
      } else {
        var taken := FromBuffer(n);
        ret := Some(taken);
        length := length - n;
        delivered := delivered + taken;
      }
      MarkDrained();
    }

    /** The decision whether to call `_read`, and what it changes. */
    method Prepare(n: Option<int>, wanted: int, acts: seq<Act<T>>) returns (k: int)
      modifies this
      ensures (Abs(), k) == BeforeTaking(n, old(Abs()), wanted, acts)
    {
      k := wanted;
      var doRead := flow.needReadable;
      if length - k <= flow.highWaterMark {
        doRead := true;
      }
      if ending.ended || flow.reading {
        doRead := false;
      }
      if doRead {
        CallUnderlying(acts);
        if !flow.reading {
          k := HowMuchToRead(n);
        }
      }
    }

    /** `read`; `acts` is what `_read` does if it is called. */
    method ReadData(n: Option<int>, acts: seq<Act<T>>) returns (ret: Option<seq<T>>)
      requires Sound(Abs()) && ActsOk(objectMode, acts)
      modifies this
      ensures (Abs(), ret) == Read(n, old(Abs()), acts) && Sound(Abs())
    {
      ReadKeeps(n, Abs(), acts);
      ending := ending.(calledRead := true);
      if n == None || n.value > 0 {
        flow := flow.(emittedReadable := false);
      }
      if n == Some(0) && flow.needReadable && (length >= flow.highWaterMark || ending.ended) {
        Emit();
        return None;
      }
      ret := ReadOnward(n, acts);
    }

    method ReadOnward(n: Option<int>, acts: seq<Act<T>>) returns (ret: Option<seq<T>>)
      requires Sound(Abs()) && ActsOk(objectMode, acts)
      modifies this
      ensures (Abs(), ret) == ReadOn(n, old(Abs()), acts)
    {
      HowMuchKeeps(n, Abs());
      var k := HowMuchToRead(n);
      if k == 0 && ending.ended {
        if length == 0 {
          FinishReading();
        }
        return None;
      }
      BeforeTakingKeeps(n, Abs(), k, acts);
      k := Prepare(n, k, acts);
      ret := TakeFromBuffer(k);
    }

    /** `maybeReadMore_`; each call of `_read` does what the next of `rounds` says. */
    method ReadMore(rounds: seq<seq<Act<T>>>)
      requires Sound(Abs()) && RoundsOk(objectMode, rounds)
      modifies this
      ensures var r := ReadMoreLoop(old(Abs()), rounds); Abs() == r.(f := r.f.(readingMore := false))
      ensures Sound(Abs())
    {
      ghost var whole := ReadMoreLoop(Abs(), rounds);
      var len, i, spinning := length, 0, true;
      while spinning && !flow.reading && !flow.flowing && !ending.ended && length < flow.highWaterMark
        invariant 0 <= i <= |rounds| && Sound(Abs())
        invariant whole == if spinning then ReadMoreLoop(Abs(), rounds[i..]) else Abs()
        invariant spinning ==> len == length
        decreases spinning, flow.highWaterMark - length
      {
        var acts := if i < |rounds| then rounds[i] else [];
        ReadKeeps(Some(0), Abs(), acts);
        NothingRead(Abs());
        var _ := ReadData(Some(0), acts);
        if len == length {
          spinning := false;
        } else {
          len := length;
          assert rounds[i..][1..] == rounds[i + 1..];
          i := i + 1;
        }
      }
      flow := flow.(readingMore := false);
    }
  }

  lemma FirstChunk<T>(objectMode: bool, list: seq<seq<T>>)
    requires list != [] && ChunksOk(objectMode, list)
    ensures ChunkOk(objectMode, list[0]) && Flatten(list) == list[0] + Flatten(list[1..])
    ensures |list[0]| <= |Flatten(list)|
    ensures forall n :: 0 < n < |list[0]| ==> Pluck(list, n) == (list[0][..n], [list[0][n..]] + list[1..])
    ensures |list[0]| < |Flatten(list)| ==> Pluck(list, |list[0]|) == (list[0], list[1..])
    ensures |list[0]| == |Flatten(list)| ==> list[0] == Flatten(list) && list[1..] == []
  {
    assert ChunkOk(objectMode, list[0]);
    assert list[0] + [] == list[0];
    if list[1..] != [] {
      assert ChunkOk(objectMode, list[1]) && Flatten(list[1..]) == list[1] + Flatten(list[1..][1..]);
    }
  }

  /** Without a push nothing is added. */
  lemma NothingRead<T>(s: State<T>)
    requires Sound(s)
    ensures Read(Some(0), s, []).0.d.length == s.d.length
  {}

  /** What was plucked, with what is still wanted of the list, makes up the whole. */
  ghost predicate Ahead<T>(ret: seq<T>, list: seq<seq<T>>, n: nat, whole: (seq<T>, seq<seq<T>>)) {
    n <= |Flatten(list)| && ret + Pluck(list, n).0 == whole.0 && Pluck(list, n).1 == whole.1
  }

  lemma PluckRound<T>(objectMode: bool, ret: seq<T>, list: seq<seq<T>>, n: nat, cpy: nat, whole: (seq<T>, seq<seq<T>>))
    requires list != [] && ChunksOk(objectMode, list) && 0 < n && Ahead(ret, list, n, whole)
    requires cpy == if n < |list[0]| then n else |list[0]|
    ensures var rest := if cpy < |list[0]| then [list[0][cpy..]] + list[1..] else list[1..];
      && ChunksOk(objectMode, rest) && cpy > 0 && Ahead(ret + list[0][..cpy], rest, n - cpy, whole)
      && (cpy < |list[0]| ==> cpy == n)
  {
    assert ChunkOk(objectMode, list[0]);
    var rest := if cpy < |list[0]| then [list[0][cpy..]] + list[1..] else list[1..];
    PluckStep(list, n, cpy);
    Assoc(ret, list[0][..cpy], Pluck(rest, n - cpy).0);
  }

  /** One round of the loop: all of the first chunk, or what is still wanted of it. */
  lemma PluckStep<T>(list: seq<seq<T>>, n: nat, cpy: nat)
    requires list != [] && list[0] != [] && 0 < n <= |Flatten(list)|
    requires cpy == if n < |list[0]| then n else |list[0]|
    ensures var rest := if cpy < |list[0]| then [list[0][cpy..]] + list[1..] else list[1..];
      && n - cpy <= |Flatten(rest)|
      && Pluck(list, n) == (list[0][..cpy] + Pluck(rest, n - cpy).0, Pluck(rest, n - cpy).1)
  {
    if n >= |list[0]| {
      PluckTail(list, n);
      assert list[0][..cpy] == list[0];
    } else {
      assert list[0][..cpy] + [] == list[0][..cpy];
    }
  }

  // ---------------------------------------------------------------- the next power of two

  function Smear(n: bv32, p: bv32): bv32
    requires p < 32
  {
    n | (n >> p)
  }

  /** What the rounds from p on do to n: its bits are smeared to the right. */
  function Smeared(n: bv32, p: bv32): bv32
    requires Shift(p)
    decreases 32 - p
  {
    ShiftOn(p);
    if p == 16 then Smear(n, p) else Smeared(Smear(n, p), p << 1)
  }

  predicate Shift(p: bv32) {
    p == 1 || p == 2 || p == 4 || p == 8 || p == 16
  }

  lemma ShiftOn(p: bv32)
    requires Shift(p)
    ensures p < 32 && (p == 16 <==> p << 1 == 32) && (p != 16 ==> Shift(p << 1)) && p < p << 1 && 32 - (p << 1) < 32 - p
  {}

  lemma FiveRounds(n: bv32)
    ensures Smeared(n, 1) == Smear(Smear(Smear(Smear(Smear(n, 1), 2), 4), 8), 16)
  {
    var a := Smear(Smear(n, 1), 2);
    assert Smeared(n, 1) == Smeared(Smear(n, 1), 2) == Smeared(a, 4);
    assert Smeared(a, 4) == Smeared(Smear(a, 4), 8) == Smeared(Smear(Smear(a, 4), 8), 16);
  }

  lemma SmearedBits(n: bv32)
    requires 1 <= n < 0x80_0000
    ensures var r := Smear(Smear(Smear(Smear(Smear(n - 1, 1), 2), 4), 8), 16) + 1;
      r & (r - 1) == 0 && n <= r && r >> 1 < n
  {}

  predicate NextPower(n: bv32, r: bv32) {
    if n >= 0x80_0000 then r == 0x80_0000 else r & (r - 1) == 0 && n <= r && r >> 1 < n
  }

  lemma SmearedPower(n: bv32)
    requires 1 <= n < 0x80_0000
    ensures NextPower(n, Smeared(n - 1, 1) + 1)
  {
    FiveRounds(n - 1);
    SmearedBits(n);
  }

  /** The loop of `roundUpToNextPowerOf2`. */
  method SmearLoop(n: bv32) returns (r: bv32)
    ensures r == Smeared(n, 1)
  {
    r := n;
    var p: bv32 := 1;
    while p < 32
      invariant Shift(p) || p == 32
      invariant Smeared(n, 1) == if p == 32 then r else Smeared(r, p)
      decreases 32 - p
    {
      ShiftOn(p);
      r := Smear(r, p);
      p := p << 1;
    }
  }

  /** `roundUpToNextPowerOf2`: a power of two that is at least n, and its half is not. */
  method RoundUpToNextPowerOf2(n: bv32) returns (r: bv32)
    requires n >= 1
    ensures NextPower(n, r)
  {
    if n >= 0x80_0000 {
      return 0x80_0000;
    }
    SmearedPower(n);
    r := SmearLoop(n - 1);
    r := r + 1;
  }

  predicate IsPower(p: nat) {
    p > 0 && (p == 1 || (p % 2 == 0 && IsPower(p / 2)))
  }

  /** The function the machine uses is characterised in the same way. */
  lemma {:induction false} PowerFromLeast(n: nat, p: nat)
    requires IsPower(p) && (p == 1 || p / 2 < n) && n >= 1
    ensures IsPower(PowerFrom(n, p)) && n <= PowerFrom(n, p) && PowerFrom(n, p) / 2 < n
    decreases n - p
  {
    if n > p {
      PowerFromLeast(n, 2 * p);
    }
  }

  lemma RoundUpLeast(n: nat)
    requires 1 <= n < MAX_HWM
    ensures IsPower(RoundUp(n)) && n <= RoundUp(n) && RoundUp(n) / 2 < n
  {
    PowerFromLeast(n, 1);
  }
}
