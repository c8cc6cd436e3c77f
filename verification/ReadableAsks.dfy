/**
 When the source is asked for more: after every `read` unless enough is left, never twice at once, and again
 and again until the mark is reached; and how much one `read` gives.
 */
module ReadableAsks {
  import opened Prelude
  import opened Readable
  import opened ReadableRoom

  // ---------------------------------------------------------------- the source is asked

  lemma LeftAsked<T>(n: Option<int>, s: State<T>, k: int)
    requires Sound(s) && Amount(s.objectMode, s.d.length, k) && !s.e.ended
    ensures var (s1, k1) := BeforeTaking(n, s, k, []);
      k1 == k && s1.d == s.d && s1.e == s.e && s1.f.highWaterMark == s.f.highWaterMark
      && (s1.f.reading || (!s.f.needReadable && s.d.length - k > s.f.highWaterMark))
  {}

  /** A source that answers later is being asked after every `read`, unless its end was seen or more than the
      mark is left. A `read(0)` with enough there only says 'readable'. */
  lemma SourceIsAsked<T>(n: Option<int>, s: State<T>)
    requires Sound(s)
    ensures var r := Read(n, s, []).0;
      !r.e.ended && r.d.length <= r.f.highWaterMark ==>
        r.f.reading || (n == Some(0) && s.f.needReadable && r.d == s.d && s.d.length == s.f.highWaterMark)
  {
    var s1 := Called(n, s);
    if !OnlyTriggers(n, s1) {
      HowMuchKeeps(n, s1);
      var k := HowMuch(n, s1);
      var s2 := s1.(f := Asked(n, s1));
      if !s.e.ended {
        LeftAsked(n, s2, k);
        TakeOutKeeps(BeforeTaking(n, s2, k, []).0, k);
      }
    }
  }

  /** It is not asked again before it has answered: what it would do now does not matter. */
  lemma OneAtATime<T>(n: Option<int>, s: State<T>, acts: seq<Act<T>>)
    requires s.f.reading
    ensures Read(n, s, acts) == Read(n, s, [])
  {}

  // ---------------------------------------------------------------- how much one read gives

  lemma {:induction false} PowerReaches(n: nat, p: nat)
    requires p > 0
    ensures n <= PowerFrom(n, p)
    decreases n - p
  {
    if n > p {
      PowerReaches(n, 2 * p);
    }
  }

  lemma MarkRaised<T>(n: nat, s: State<T>)
    requires !s.objectMode && !s.e.ended && 0 < n <= MAX_HWM
    ensures Asked(Some(n), s).highWaterMark >= n
    ensures n <= s.f.highWaterMark ==> Asked(Some(n), s).highWaterMark == s.f.highWaterMark
  {
    PowerReaches(n, 1);
  }

  /** Nothing is taken from a stream that has less than was asked for; the reader waits, the source is asked,
      and the mark is so high that it will be asked until there is as much. */
  lemma AskForMore<T>(n: nat, s: State<T>)
    requires Sound(s) && !s.objectMode && !s.e.ended && s.d.length < n <= MAX_HWM
    ensures var (r, ret) := Read(Some(n), s, []);
      && ret == None && r.d == s.d && r.f.reading && r.f.needReadable && r.f.highWaterMark >= n
      && (n <= s.f.highWaterMark ==> r.f.highWaterMark == s.f.highWaterMark)
  {
    var s1 := Called(Some(n), s);
    MarkRaised(n, s1);
    assert HowMuch(Some(n), s1) == 0;
  }

  lemma FirstStaysOne<T>(s: State<T>, a: Act<T>)
    requires !a.Unshift? && s.d.buffer != []
    ensures AddChunk(s, a).d.buffer != [] && AddChunk(s, a).d.buffer[0] == s.d.buffer[0]
    ensures AddChunk(s, a).f.flowing == s.f.flowing
  {}

  lemma {:induction false} FirstStays<T>(s: State<T>, acts: seq<Act<T>>)
    requires NoUnshift(acts) && s.d.buffer != []
    ensures AddAll(s, acts).d.buffer != [] && AddAll(s, acts).d.buffer[0] == s.d.buffer[0]
    ensures AddAll(s, acts).f.flowing == s.f.flowing
  {
    if acts != [] {
      FirstStays(s, acts[..|acts| - 1]);
      FirstStaysOne(AddAll(s, acts[..|acts| - 1]), acts[|acts| - 1]);
    }
  }

  lemma {:induction false} StillReading<T>(s: State<T>, acts: seq<Act<T>>)
    requires NoUnshift(acts) && s.f.reading
    ensures AddAll(s, acts).f.reading && !s.e.ended ==> AddAll(s, acts).d == s.d
  {
    if acts != [] {
      StillReading(s, acts[..|acts| - 1]);
    }
  }

  lemma FirstOfBuffer<T>(buffer: seq<seq<T>>)
    requires buffer != []
    ensures |buffer[0]| <= |Flatten(buffer)| && Flatten(buffer)[..|buffer[0]|] == buffer[0]
  {
    FlattenCons(buffer[0], buffer[1..]);
    assert [buffer[0]] + buffer[1..] == buffer;
  }

  lemma AllTaken<T>(s: State<T>, k: int)
    requires Sound(s) && !s.objectMode && s.d.buffer != [] && 0 < k <= s.d.length
    requires k == s.d.length || k == |s.d.buffer[0]|
    ensures var (r, ret) := TakeOut(s, k);
      && ret.Some?
      && (k == s.d.length ==> r.d.buffer == [])
      && (k == |s.d.buffer[0]| ==> ret.value == s.d.buffer[0])
  {
    TakeOutKeeps(s, k);
    FirstOfBuffer(s.d.buffer);
  }

  lemma NoneAmount<T>(s: State<T>)
    requires Sound(s) && !s.objectMode && s.d.buffer != []
    ensures s.d.length > 0 && Asked(None, s) == s.f
    ensures HowMuch(None, s) == if s.f.flowing then |s.d.buffer[0]| else s.d.length
    ensures 0 < HowMuch(None, s) <= s.d.length
  {
    FirstOfBuffer(s.d.buffer);
    assert ChunkOk(s.objectMode, s.d.buffer[0]);
  }

  /** `read()` gives everything that is buffered, pushed just now or before; while the stream flows it gives the
      first chunk. */
  lemma ReadWithoutSize<T>(s: State<T>, acts: seq<Act<T>>)
    requires Sound(s) && ActsOk(s.objectMode, acts) && NoUnshift(acts) && !s.objectMode && s.d.buffer != []
    ensures var (r, ret) := Read(None, s, acts);
      ret.Some? && (if s.f.flowing then ret.value == s.d.buffer[0] else r.d.buffer == [])
  {
    var s1 := Called(None, s);
    NoneAmount(s1);
    var k := HowMuch(None, s1);
    BeforeTakingKeeps(None, s1, k, acts);
    var (s2, k2) := BeforeTaking(None, s1, k, acts);
    if WantsRead(s1, k) {
      FirstStays(Reading(s1), acts);
      StillReading(Reading(s1), acts);
      NoneAmount(CallRead(s1, acts));
    }
    AllTaken(s2, k2);
  }

  // ---------------------------------------------------------------- what is deferred

  lemma NoticeDeferred(f: Flow, front: bool)
    requires f.sync
    ensures Noticed(f, front).sync && Noticed(f, front).readables == f.readables
  {}

  lemma DataDeferred<T>(s: State<T>, chunk: seq<T>, front: bool)
    requires s.f.sync
    ensures AddData(s, chunk, front).f.sync && AddData(s, chunk, front).f.readables == s.f.readables
  {
    NoticeDeferred(s.f, front);
  }

  lemma OneDeferred<T>(s: State<T>, a: Act<T>)
    requires s.f.sync
    ensures AddChunk(s, a).f.sync && AddChunk(s, a).f.readables == s.f.readables
  {
    match a {
      case PushNull =>
      case Push(chunk) => DataDeferred(s, chunk, false);
      case Unshift(chunk) => DataDeferred(s, chunk, true);
    }
  }

  /** While `_read` runs 'readable' is not emitted, only deferred. */
  lemma {:induction false} DeferredInRead<T>(s: State<T>, acts: seq<Act<T>>)
    requires s.f.sync
    ensures AddAll(s, acts).f.sync && AddAll(s, acts).f.readables == s.f.readables
  {
    if acts != [] {
      DeferredInRead(s, acts[..|acts| - 1]);
      OneDeferred(AddAll(s, acts[..|acts| - 1]), acts[|acts| - 1]);
    }
  }

  /** So it is for a whole call of `_read`, after which it may be emitted at once again. */
  lemma DeferredByCall<T>(s: State<T>, acts: seq<Act<T>>)
    ensures CallRead(s, acts).f.readables == s.f.readables && !CallRead(s, acts).f.sync
  {
    DeferredInRead(Reading(s), acts);
  }

  /** Data that comes later is announced at once to a reader that waits and was not told. */
  lemma ToldAtOnce<T>(s: State<T>, a: Act<T>)
    requires !s.f.sync && s.f.needReadable && !s.f.emittedReadable && !s.e.ended && !s.e.endEmitted
    requires !a.PushNull? && a.chunk != []
    ensures AddChunk(s, a).f.readables == s.f.readables + 1 && AddChunk(s, a).f.readableTicks == s.f.readableTicks
  {}

  // ---------------------------------------------------------------- who waits

  /** Not told since, or told once. */
  predicate UntoldOrOnce(f: Flow, tellings: nat) {
    Tellings(f) == tellings + (if f.emittedReadable then 1 else 0)
  }

  lemma NoticeTells(f: Flow, front: bool, tellings: nat)
    requires UntoldOrOnce(f, tellings)
    ensures UntoldOrOnce(Noticed(f, front), tellings)
  {}

  lemma OneTells<T>(s: State<T>, a: Act<T>, tellings: nat)
    requires UntoldOrOnce(s.f, tellings)
    ensures UntoldOrOnce(AddChunk(s, a).f, tellings)
  {
    match a {
      case PushNull =>
      case Push(chunk) => NoticeTells(s.f, false, tellings);
      case Unshift(chunk) => NoticeTells(s.f, true, tellings);
    }
  }

  lemma {:induction false} AllTell<T>(s: State<T>, acts: seq<Act<T>>, tellings: nat)
    requires UntoldOrOnce(s.f, tellings)
    ensures UntoldOrOnce(AddAll(s, acts).f, tellings)
  {
    if acts != [] {
      AllTell(s, acts[..|acts| - 1], tellings);
      OneTells(AddAll(s, acts[..|acts| - 1]), acts[|acts| - 1], tellings);
    }
  }

  lemma AskedTells<T>(n: Option<int>, s: State<T>, tellings: nat)
    requires UntoldOrOnce(s.f, tellings)
    ensures UntoldOrOnce(Asked(n, s), tellings)
  {}

  lemma BeforeTells<T>(n: Option<int>, s: State<T>, k: int, acts: seq<Act<T>>, tellings: nat)
    requires UntoldOrOnce(s.f, tellings)
    ensures UntoldOrOnce(BeforeTaking(n, s, k, acts).0.f, tellings)
  {
    if WantsRead(s, k) {
      AllTell(Reading(s), acts, tellings);
      AskedTells(n, CallRead(s, acts), tellings);
    }
  }

  lemma TakenTells<T>(s: State<T>, n: int, tellings: nat)
    requires UntoldOrOnce(s.f, tellings)
    ensures UntoldOrOnce(TakeOut(s, n).0.f, tellings)
  {}

  /** Whoever asks for something is due to be told anew: after the call 'readable' was not said since, or once
      during it. */
  lemma AskingAnew<T>(n: Option<int>, s: State<T>, acts: seq<Act<T>>)
    requires n.Some? ==> n.value > 0
    ensures UntoldOrOnce(Read(n, s, acts).0.f, Tellings(s.f))
  {
    var tellings := Tellings(s.f);
    var s1 := Called(n, s);
    AskedTells(n, s1, tellings);
    var k := HowMuch(n, s1);
    var s2 := s1.(f := Asked(n, s1));
    if !(k == 0 && s.e.ended) {
      BeforeTells(n, s2, k, acts, tellings);
      TakenTells(BeforeTaking(n, s2, k, acts).0, BeforeTaking(n, s2, k, acts).1, tellings);
    }
  }

  /** The end is announced to a reader that was not told if something is left for it to read. */
  lemma EndIsTold<T>(s: State<T>)
    requires s.d.length > 0 && !s.e.ended && !s.f.emittedReadable
    ensures var r := AddChunk(s, PushNull); r.f.emittedReadable && Tellings(r.f) == Tellings(s.f) + 1
  {}

  /** A listener that comes while the source is being asked is told at once of what is there. */
  lemma ListenerIsTold<T>(s: State<T>, acts: seq<Act<T>>)
    requires !s.f.listening && !s.e.endEmitted && s.f.reading && s.d.length > 0
    ensures Tellings(OnListen(s, acts).f) == Tellings(s.f) + 1 && OnListen(s, acts).d == s.d
  {}

  /** In object mode every `read` but `read(0)` gives one object, as long as there is one. */
  lemma OneObject<T>(n: Option<int>, s: State<T>)
    requires Sound(s) && s.objectMode && s.d.buffer != [] && n != Some(0)
    ensures var (r, ret) := Read(n, s, []);
      ret == Some(s.d.buffer[0]) && r.d.buffer == s.d.buffer[1..]
  {
    var s1 := Called(n, s);
    var s2 := BeforeTaking(n, s1, 1, []).0;
    assert ChunkOk(s.objectMode, s.d.buffer[0]);
    FirstOfBuffer(s.d.buffer);
    assert s2.d == s.d;
    TakeOutKeeps(s2, 1);
    ObjectTaken(s.d.buffer);
  }

  lemma ObjectTaken<T>(buffer: seq<seq<T>>)
    requires buffer != [] && ChunksOk(true, buffer)
    ensures FromList(1, buffer) == (buffer[0], buffer[1..])
  {
    assert ChunkOk(true, buffer[0]);
    assert Flatten(buffer) == buffer[0] + Flatten(buffer[1..]);
    assert buffer[0] + [] == buffer[0];
    if |buffer| > 1 {
      assert ChunkOk(true, buffer[1]) && buffer[1] == buffer[1..][0];
      assert |Flatten(buffer[1..])| > 0 && Pluck(buffer[1..], 0) == ([], buffer[1..]);
    } else {
      assert buffer[1..] == [];
    }
  }

  // ---------------------------------------------------------------- reading ahead

  /** The source answers later, or brings something or the end before `_read` returns. */
  predicate Brings<T>(acts: seq<Act<T>>) {
    acts == [] || exists k :: 0 <= k < |acts| && (acts[k].PushNull? || acts[k].chunk != [])
  }

  lemma {:induction false} BroughtMore<T>(s: State<T>, acts: seq<Act<T>>)
    requires Sound(s) && ActsOk(s.objectMode, acts) && Brings(acts) && acts != []
    ensures AddAll(s, acts).e.ended || AddAll(s, acts).d.length > s.d.length
  {
    var before, a := acts[..|acts| - 1], acts[|acts| - 1];
    AddAllKeeps(s, before);
    AddKeeps(AddAll(s, before), a);
    if !(a.PushNull? || a.chunk != []) {
      var k :| 0 <= k < |acts| && (acts[k].PushNull? || acts[k].chunk != []);
      assert before[k] == acts[k];
      BroughtMore(s, before);
    }
  }

  lemma NotTaken<T>(s: State<T>)
    ensures TakeOut(s, 0).0.d == s.d && TakeOut(s, 0).0.f.reading == s.f.reading
    ensures s.e.ended ==> TakeOut(s, 0).0.e.ended
  {}

  /** One round of reading ahead asks the source, which brings something, or the end, or will later. */
  lemma RoundBrings<T>(s: State<T>, acts: seq<Act<T>>)
    requires Sound(s) && ActsOk(s.objectMode, acts) && Brings(acts) && ReadsMore(s)
    ensures var r := Read(Some(0), s, acts).0;
      r.e.ended || r.f.reading || r.d.length > s.d.length
  {
    var s1 := Called(Some(0), s);
    HowMuchKeeps(Some(0), s1);
    var s2 := CallRead(s1, acts);
    if acts != [] {
      BroughtMore(Reading(s1), acts);
    }
    CallReadKeeps(s1, acts);
    HowMuchKeeps(Some(0), s2);
    NotTaken(BeforeTaking(Some(0), s1, 0, acts).0);
  }

  /** Reading ahead goes on until the mark is reached, the end was seen, or the source answers later. */
  lemma {:induction false} ReadsAhead<T>(s: State<T>, rounds: seq<seq<Act<T>>>)
    requires Sound(s) && RoundsOk(s.objectMode, rounds)
    requires forall i :: 0 <= i < |rounds| ==> Brings(rounds[i])
    ensures var r := ReadMoreLoop(s, rounds);
      r.d.length >= r.f.highWaterMark || r.e.ended || r.f.reading || r.f.flowing
    decreases |rounds|
  {
    if ReadsMore(s) {
      var acts := if rounds == [] then [] else rounds[0];
      ReadKeeps(Some(0), s, acts);
      RoundBrings(s, acts);
      if rounds != [] && Read(Some(0), s, acts).0.d.length != s.d.length {
        ReadsAhead(Read(Some(0), s, acts).0, rounds[1..]);
      }
    }
  }
}
