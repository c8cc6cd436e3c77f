/**
 How much is buffered, if the source listens to what `push` answers; and that a reader who was told
 there is nothing is told when there is something.
 */
module ReadableRoom {
  import opened Prelude
  import opened Readable
  import H = ReadableHistory

  // ---------------------------------------------------------------- what push answers

  /** What `push` answers when nothing more may be pushed, though the end was not seen: the mark is
      reached, something is there to be read, and no reader waits for more. */
  lemma EnoughMeans(length: nat, f: Flow)
    ensures !NeedMoreData(length, f, false) <==> length >= f.highWaterMark && length > 0 && !f.needReadable
    ensures !NeedMoreData(length, f, true)
  {}

  /** The last answer was that more may be pushed, and no reader waits for more than what is buffered. */
  predicate MayPush<T>(s: State<T>) {
    NeedMoreData(s.d.length, s.f, s.e.ended) && (s.f.needReadable ==> s.d.length == 0)
  }

  /** Nothing is put back, and chunks of at most that size are pushed when they may. */
  predicate Careful<T>(s: State<T>, a: Act<T>, size: nat) {
    match a
    case PushNull => true
    case Push(chunk) => |chunk| <= size && (chunk != [] ==> MayPush(s))
    case Unshift(_) => false
  }

  predicate AllCareful<T(==)>(s: State<T>, acts: seq<Act<T>>, size: nat) {
    acts == [] ||
    (AllCareful(s, acts[..|acts| - 1], size) && Careful(AddAll(s, acts[..|acts| - 1]), acts[|acts| - 1], size))
  }

  predicate CarefulRead<T(==)>(n: Option<int>, s: State<T>, acts: seq<Act<T>>, size: nat) {
    H.CallsRead(n, s) ==> AllCareful(Reading(Called(n, s).(f := Asked(n, Called(n, s)))), acts, size)
  }

  predicate CarefulLoop<T(==)>(s: State<T>, rounds: seq<seq<Act<T>>>, size: nat)
    decreases |rounds|
  {
    ReadsMore(s) && rounds != [] ==>
      CarefulRead(Some(0), s, rounds[0], size) && CarefulLoop(Read(Some(0), s, rounds[0]).0, rounds[1..], size)
  }

  function Listening<T>(s: State<T>): State<T> {
    s.(f := s.f.(listening := true, emittedReadable := false, needReadable := true))
  }

  predicate CarefulEvent<T(==)>(s: State<T>, ev: Event<T>, size: nat) {
    match ev
    case Add(a) => Careful(s, a, size)
    case ReadCall(n, acts) => CarefulRead(n, s, acts, size)
    case Listen(acts) => CarefulRead(Some(0), Listening(s), acts, size)
    case ReadMoreTick(rounds) => CarefulLoop(s, rounds, size)
    case _ => true
  }

  // ---------------------------------------------------------------- one event

  /** The mark while the event pushes. */
  function Mark<T>(s: State<T>, ev: Event<T>): nat {
    if ev.ReadCall? then Asked(ev.n, Called(ev.n, s)).highWaterMark else s.f.highWaterMark
  }

  lemma AddBound<T>(s: State<T>, a: Act<T>, size: nat, limit: nat)
    requires Sound(s) && ActOk(s.objectMode, a) && Careful(s, a, size)
    requires s.d.length <= limit && s.f.highWaterMark + size <= limit
    ensures AddChunk(s, a).d.length <= limit
  {}

  lemma {:induction false} AddAllBound<T>(s: State<T>, acts: seq<Act<T>>, size: nat, limit: nat)
    requires Sound(s) && ActsOk(s.objectMode, acts) && AllCareful(s, acts, size)
    requires s.d.length <= limit && s.f.highWaterMark + size <= limit
    ensures AddAll(s, acts).d.length <= limit
  {
    if acts != [] {
      var before := acts[..|acts| - 1];
      AddAllKeeps(s, before);
      AddAllBound(s, before, size, limit);
      AddBound(AddAll(s, before), acts[|acts| - 1], size, limit);
    }
  }

  lemma TakeBound<T>(s: State<T>, n: int)
    requires Sound(s) && Amount(s.objectMode, s.d.length, n)
    ensures TakeOut(s, n).0.d.length <= s.d.length
  {
    TakeOutKeeps(s, n);
  }

  lemma ReadBound<T>(n: Option<int>, s: State<T>, acts: seq<Act<T>>, size: nat, limit: nat)
    requires Sound(s) && ActsOk(s.objectMode, acts) && CarefulRead(n, s, acts, size)
    requires s.d.length <= limit && Asked(n, Called(n, s)).highWaterMark + size <= limit
    ensures Read(n, s, acts).0.d.length <= limit
  {
    var s1 := Called(n, s);
    if !OnlyTriggers(n, s1) {
      var k := HowMuch(n, s1);
      var s2 := s1.(f := Asked(n, s1));
      HowMuchKeeps(n, s1);
      if !(k == 0 && s.e.ended) {
        BeforeTakingKeeps(n, s2, k, acts);
        if WantsRead(s2, k) {
          AddAllBound(Reading(s2), acts, size, limit);
        }
        var (s3, k3) := BeforeTaking(n, s2, k, acts);
        TakeBound(s3, k3);
      }
    }
  }

  lemma {:induction false} LoopBound<T>(s: State<T>, rounds: seq<seq<Act<T>>>, size: nat, limit: nat)
    requires Sound(s) && RoundsOk(s.objectMode, rounds) && CarefulLoop(s, rounds, size)
    requires s.d.length <= limit && s.f.highWaterMark + size <= limit
    ensures ReadMoreLoop(s, rounds).d.length <= limit
    decreases |rounds|
  {
    if ReadsMore(s) {
      if rounds == [] {
        ReadBound(Some(0), s, [], size, limit);
      } else {
        ReadKeeps(Some(0), s, rounds[0]);
        ReadBound(Some(0), s, rounds[0], size, limit);
        var s1 := Read(Some(0), s, rounds[0]).0;
        if s1.d.length != s.d.length {
          LoopBound(s1, rounds[1..], size, limit);
        }
      }
    }
  }

  lemma StepBound<T>(s: State<T>, ev: Event<T>, size: nat, limit: nat)
    requires Sound(s) && EventOk(s, ev) && CarefulEvent(s, ev, size)
    requires s.d.length <= limit && Mark(s, ev) + size <= limit
    ensures Step(s, ev).d.length <= limit
  {
    match ev {
      case Add(a) => AddBound(s, a, size, limit);
      case ReadCall(n, acts) => ReadBound(n, s, acts, size, limit);
      case Listen(acts) =>
        if !(s.f.listening || s.e.endEmitted || s.f.reading) {
          ReadBound(Some(0), Listening(s), acts, size, limit);
        }
      case ReadMoreTick(rounds) => LoopBound(s, rounds, size, limit);
      case _ =>
    }
  }

  // ---------------------------------------------------------------- whole runs

  predicate CarefulRun<T(==)>(objectMode: bool, hwm: nat, evs: seq<Event<T>>, size: nat) {
    evs == [] ||
    var before, ev := evs[..|evs| - 1], evs[|evs| - 1];
    CarefulRun(objectMode, hwm, before, size) && CarefulEvent(After(objectMode, hwm, before), ev, size)
  }

  /** The highest mark there was. */
  function Peak<T(==)>(objectMode: bool, hwm: nat, evs: seq<Event<T>>): nat {
    if evs == [] then hwm
    else
      var before := Peak(objectMode, hwm, evs[..|evs| - 1]);
      var mark := Mark(After(objectMode, hwm, evs[..|evs| - 1]), evs[|evs| - 1]);
      if mark > before then mark else before
  }

  /** If the source pushes only when `push` has answered that more may be pushed, and no reader waits for
      more, never more is buffered than the mark and one chunk. */
  lemma {:induction false} NeverMuchMore<T>(objectMode: bool, hwm: nat, evs: seq<Event<T>>, size: nat)
    requires CarefulRun(objectMode, hwm, evs, size)
    ensures After(objectMode, hwm, evs).d.length <= Peak(objectMode, hwm, evs) + size
  {
    if evs != [] {
      var before, ev := evs[..|evs| - 1], evs[|evs| - 1];
      NeverMuchMore(objectMode, hwm, before, size);
      var s := After(objectMode, hwm, before);
      if EventOk(s, ev) {
        StepBound(s, ev, size, Peak(objectMode, hwm, evs) + size);
      }
    }
  }

  // ---------------------------------------------------------------- who waits is told

  /** How often 'readable' was emitted, or is about to be. */
  function Tellings(f: Flow): nat {
    f.readables + f.readableTicks
  }

  /** A reader waits and was not told; nothing has come. */
  predicate Waits<T>(s: State<T>, tellings: nat, length: int) {
    s.f.needReadable && !s.f.emittedReadable && Tellings(s.f) == tellings && s.d.length == length
  }

  /** It was told, once. */
  predicate Told<T>(s: State<T>, tellings: nat) {
    s.f.emittedReadable && Tellings(s.f) == tellings + 1
  }

  predicate WaitsOrTold<T>(s: State<T>, tellings: nat, length: int) {
    Waits(s, tellings, length) || Told(s, tellings)
  }

  /** Whoever is given nothing before the end waits. */
  lemma NothingMeansWaiting<T>(n: Option<int>, s: State<T>, acts: seq<Act<T>>)
    requires Sound(s) && ActsOk(s.objectMode, acts) && n != Some(0)
    ensures var (r, ret) := Read(n, s, acts); ret == None && !r.e.ended ==> r.f.needReadable
  {
    var s1 := Called(n, s);
    var k := HowMuch(n, s1);
    var s2 := s1.(f := Asked(n, s1));
    HowMuchKeeps(n, s1);
    if !(k == 0 && s.e.ended) {
      BeforeTakingKeeps(n, s2, k, acts);
    }
  }

  lemma AddTells<T>(s: State<T>, a: Act<T>, tellings: nat, length: int)
    requires Sound(s) && ActOk(s.objectMode, a) && WaitsOrTold(s, tellings, length)
    ensures WaitsOrTold(AddChunk(s, a), tellings, length)
  {}

  lemma {:induction false} AddAllTells<T>(s: State<T>, acts: seq<Act<T>>, tellings: nat, length: int)
    requires Sound(s) && ActsOk(s.objectMode, acts) && WaitsOrTold(s, tellings, length)
    ensures WaitsOrTold(AddAll(s, acts), tellings, length)
  {
    if acts != [] {
      var before := acts[..|acts| - 1];
      AddAllKeeps(s, before);
      AddAllTells(s, before, tellings, length);
      AddTells(AddAll(s, before), acts[|acts| - 1], tellings, length);
    }
  }

  lemma ZeroTells<T>(s: State<T>, tellings: nat, length: int)
    requires WaitsOrTold(s, tellings, length)
    ensures WaitsOrTold(TakeOut(s, 0).0, tellings, length)
  {}

  lemma ReadTells<T>(s: State<T>, acts: seq<Act<T>>, tellings: nat, length: int)
    requires Sound(s) && ActsOk(s.objectMode, acts) && WaitsOrTold(s, tellings, length)
    ensures WaitsOrTold(Read(Some(0), s, acts).0, tellings, length)
  {
    var s1 := Called(Some(0), s);
    if !OnlyTriggers(Some(0), s1) {
      HowMuchKeeps(Some(0), s1);
      if !s.e.ended {
        BeforeTakingKeeps(Some(0), s1, 0, acts);
        if WantsRead(s1, 0) {
          AddAllTells(Reading(s1), acts, tellings, length);
          HowMuchKeeps(Some(0), CallRead(s1, acts));
        }
        ZeroTells(BeforeTaking(Some(0), s1, 0, acts).0, tellings, length);
      }
    }
  }

  lemma {:induction false} LoopTells<T>(s: State<T>, rounds: seq<seq<Act<T>>>, tellings: nat, length: int)
    requires Sound(s) && RoundsOk(s.objectMode, rounds) && WaitsOrTold(s, tellings, length)
    ensures WaitsOrTold(ReadMoreLoop(s, rounds), tellings, length)
    decreases |rounds|
  {
    if ReadsMore(s) {
      if rounds == [] {
        ReadTells(s, [], tellings, length);
      } else {
        ReadKeeps(Some(0), s, rounds[0]);
        ReadTells(s, rounds[0], tellings, length);
        var s1 := Read(Some(0), s, rounds[0]).0;
        if s1.d.length != s.d.length {
          LoopTells(s1, rounds[1..], tellings, length);
        }
      }
    }
  }

  /** The reader neither asks again nor listens anew. */
  predicate LeavesWaiting<T(==)>(ev: Event<T>) {
    !ev.Listen? && (ev.ReadCall? ==> ev.n == Some(0))
  }

  lemma StepTells<T>(s: State<T>, ev: Event<T>, tellings: nat, length: int)
    requires Sound(s) && EventOk(s, ev) && LeavesWaiting(ev) && WaitsOrTold(s, tellings, length)
    ensures WaitsOrTold(Step(s, ev), tellings, length)
  {
    match ev {
      case Add(a) => AddTells(s, a, tellings, length);
      case ReadCall(_, acts) => ReadTells(s, acts, tellings, length);
      case ReadMoreTick(rounds) => LoopTells(s, rounds, tellings, length);
      case _ =>
    }
  }

  lemma AfterSnoc<T>(objectMode: bool, hwm: nat, evs: seq<Event<T>>, ev: Event<T>)
    ensures var s := After(objectMode, hwm, evs);
      After(objectMode, hwm, evs + [ev]) == if EventOk(s, ev) then Step(s, ev) else s
  {
    assert (evs + [ev])[..|evs|] == evs;
  }

  lemma {:induction false} RunTells<T>(objectMode: bool, hwm: nat, before: seq<Event<T>>, evs: seq<Event<T>>,
                                       tellings: nat, length: int)
    requires Waits(After(objectMode, hwm, before), tellings, length)
    requires forall i :: 0 <= i < |evs| ==> LeavesWaiting(evs[i])
    ensures WaitsOrTold(After(objectMode, hwm, before + evs), tellings, length)
    decreases |evs|
  {
    if evs == [] {
      assert before + evs == before;
    } else {
      var front, ev := evs[..|evs| - 1], evs[|evs| - 1];
      RunTells(objectMode, hwm, before, front, tellings, length);
      AfterSnoc(objectMode, hwm, before + front, ev);
      assert before + evs == before + front + [ev];
      NextTells(After(objectMode, hwm, before + front), ev, tellings, length);
    }
  }

  lemma NextTells<T>(s: State<T>, ev: Event<T>, tellings: nat, length: int)
    requires Sound(s) && LeavesWaiting(ev) && WaitsOrTold(s, tellings, length)
    ensures WaitsOrTold(if EventOk(s, ev) then Step(s, ev) else s, tellings, length)
  {
    if EventOk(s, ev) {
      StepTells(s, ev, tellings, length);
    }
  }

  /** From a reader that waits on: as soon as something is buffered that was not, it was told, exactly once. */
  lemma ReaderIsTold<T>(objectMode: bool, hwm: nat, before: seq<Event<T>>, evs: seq<Event<T>>)
    requires var s := After(objectMode, hwm, before); s.f.needReadable && !s.f.emittedReadable
    requires forall i :: 0 <= i < |evs| ==> LeavesWaiting(evs[i])
    ensures var s, r := After(objectMode, hwm, before), After(objectMode, hwm, before + evs);
      && (r.d.length != s.d.length ==> Tellings(r.f) == Tellings(s.f) + 1)
      && Tellings(r.f) <= Tellings(s.f) + 1
  {
    var s := After(objectMode, hwm, before);
    RunTells(objectMode, hwm, before, evs, Tellings(s.f), s.d.length);
  }
}
