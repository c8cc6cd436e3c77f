/**
 The history of a readable stream and its events: on runs without `unshift`, what was
 supplied are the chunks pushed before the end, and what was delivered is what `read` returned;
 and with `unshift`, what `read` returns is what a plain line of items gives.
 */
module ReadableHistory {
  import opened Prelude
  import opened Readable

  // ---------------------------------------------------------------- what was pushed

  predicate HasEnd<T(==)>(acts: seq<Act<T>>) {
    exists k :: 0 <= k < |acts| && acts[k].PushNull?
  }

  /** The chunks pushed before the end. */
  function Given<T(==)>(acts: seq<Act<T>>): seq<T> {
    if acts == [] then []
    else
      var before, a := acts[..|acts| - 1], acts[|acts| - 1];
      Given(before) + (if a.Push? && !HasEnd(before) then a.chunk else [])
  }

  lemma EndSnoc<T>(acts: seq<Act<T>>)
    requires acts != []
    ensures HasEnd(acts) <==> HasEnd(acts[..|acts| - 1]) || acts[|acts| - 1].PushNull?
  {
    var before := acts[..|acts| - 1];
    if HasEnd(before) {
      var k :| 0 <= k < |before| && before[k].PushNull?;
      assert acts[k].PushNull?;
    }
    if HasEnd(acts) && !acts[|acts| - 1].PushNull? {
      var k :| 0 <= k < |acts| && acts[k].PushNull?;
      assert before[k].PushNull?;
    }
  }

  lemma AddHistory<T>(s: State<T>, a: Act<T>)
    requires !a.Unshift?
    ensures var r := AddChunk(s, a);
      && r.d.delivered == s.d.delivered && (r.e.ended <==> s.e.ended || a.PushNull?)
      && r.d.supplied == s.d.supplied + (if a.Push? && !s.e.ended then a.chunk else [])
  {
    assert s.d.supplied + [] == s.d.supplied;
  }

  lemma {:induction false} AddAllHistory<T>(s: State<T>, acts: seq<Act<T>>)
    requires NoUnshift(acts) && !s.e.ended
    ensures var r := AddAll(s, acts);
      && r.d.delivered == s.d.delivered && (r.e.ended <==> HasEnd(acts))
      && r.d.supplied == s.d.supplied + Given(acts)
  {
    if acts == [] {
      assert s.d.supplied + [] == s.d.supplied;
    } else {
      var before, a := acts[..|acts| - 1], acts[|acts| - 1];
      AddAllHistory(s, before);
      EndSnoc(acts);
      AddHistory(AddAll(s, before), a);
      Assoc(s.d.supplied, Given(before), if a.Push? && !HasEnd(before) then a.chunk else []);
    }
  }

  // ---------------------------------------------------------------- one call of read

  /** This call of `read` calls `_read`. */
  predicate CallsRead<T>(n: Option<int>, s: State<T>) {
    var s1 := Called(n, s);
    var k := HowMuch(n, s1);
    !OnlyTriggers(n, s1) && !(k == 0 && s.e.ended) && WantsRead(s1.(f := Asked(n, s1)), k)
  }

  function GivenByRead<T(==)>(n: Option<int>, s: State<T>, acts: seq<Act<T>>): seq<T> {
    if CallsRead(n, s) then Given(acts) else []
  }

  function Returned<T>(ret: Option<seq<T>>): seq<T> {
    match ret case Some(items) => items case None => []
  }

  lemma BeforeHistory<T>(n: Option<int>, s: State<T>, k: int, acts: seq<Act<T>>)
    requires NoUnshift(acts)
    ensures var r := BeforeTaking(n, s, k, acts).0;
      && r.d.delivered == s.d.delivered
      && r.d.supplied == s.d.supplied + (if WantsRead(s, k) then Given(acts) else [])
  {
    assert s.d.supplied + [] == s.d.supplied;
    if WantsRead(s, k) {
      AddAllHistory(Reading(s), acts);
    }
  }

  lemma TakeHistory<T>(s: State<T>, n: int)
    ensures var (r, ret) := TakeOut(s, n);
      r.d.supplied == s.d.supplied && r.d.delivered == s.d.delivered + Returned(ret)
  {
    assert s.d.delivered + [] == s.d.delivered;
  }

  lemma ReadHistory<T>(n: Option<int>, s: State<T>, acts: seq<Act<T>>)
    requires NoUnshift(acts)
    ensures var (r, ret) := Read(n, s, acts);
      && r.d.supplied == s.d.supplied + GivenByRead(n, s, acts)
      && r.d.delivered == s.d.delivered + Returned(ret)
  {
    assert s.d.supplied + [] == s.d.supplied && s.d.delivered + [] == s.d.delivered;
    var s1 := Called(n, s);
    if !OnlyTriggers(n, s1) {
      var k := HowMuch(n, s1);
      var s2 := s1.(f := Asked(n, s1));
      if !(k == 0 && s.e.ended) {
        BeforeHistory(n, s2, k, acts);
        var (s3, k3) := BeforeTaking(n, s2, k, acts);
        TakeHistory(s3, k3);
      }
    }
  }

  // ---------------------------------------------------------------- one event

  /** What the rounds of `maybeReadMore_` push. */
  function GivenByLoop<T(==)>(s: State<T>, rounds: seq<seq<Act<T>>>): seq<T>
    decreases |rounds|
  {
    if !ReadsMore(s) || rounds == [] then []
    else
      var s1 := Read(Some(0), s, rounds[0]).0;
      GivenByRead(Some(0), s, rounds[0]) + (if s1.d.length == s.d.length then [] else GivenByLoop(s1, rounds[1..]))
  }

  /** What an event pushes. */
  function GivenBy<T(==)>(s: State<T>, ev: Event<T>): seq<T> {
    match ev
    case Add(a) => if a.Push? && !s.e.ended then a.chunk else []
    case ReadCall(n, acts) => GivenByRead(n, s, acts)
    case Listen(acts) =>
      var s1 := s.(f := s.f.(listening := true, emittedReadable := false, needReadable := true));
      if s.f.listening || s.e.endEmitted || s.f.reading then [] else GivenByRead(Some(0), s1, acts)
    case ReadMoreTick(rounds) => GivenByLoop(s, rounds)
    case _ => []
  }

  /** What an event returns to the caller of `read`. */
  function ReturnedBy<T(==)>(s: State<T>, ev: Event<T>): seq<T> {
    if ev.ReadCall? then Returned(Read(ev.n, s, ev.acts).1) else []
  }

  predicate NoUnshiftIn<T(==)>(ev: Event<T>) {
    match ev
    case Add(a) => !a.Unshift?
    case ReadCall(_, acts) => NoUnshift(acts)
    case Listen(acts) => NoUnshift(acts)
    case ReadMoreTick(rounds) => forall k :: 0 <= k < |rounds| ==> NoUnshift(rounds[k])
    case _ => true
  }

  lemma EmptyRead<T>(s: State<T>, acts: seq<Act<T>>)
    requires Sound(s) && ActsOk(s.objectMode, acts) && NoUnshift(acts)
    ensures var r := Read(Some(0), s, acts).0;
      && r.d.supplied == s.d.supplied + GivenByRead(Some(0), s, acts) && r.d.delivered == s.d.delivered
      && Sound(r) && r.objectMode == s.objectMode
  {
    ReadKeeps(Some(0), s, acts);
    ReadHistory(Some(0), s, acts);
    assert s.d.delivered + [] == s.d.delivered;
  }

  lemma {:induction false} LoopHistory<T>(s: State<T>, rounds: seq<seq<Act<T>>>)
    requires Sound(s) && RoundsOk(s.objectMode, rounds) && forall k :: 0 <= k < |rounds| ==> NoUnshift(rounds[k])
    ensures var r := ReadMoreLoop(s, rounds);
      r.d.supplied == s.d.supplied + GivenByLoop(s, rounds) && r.d.delivered == s.d.delivered
    decreases |rounds|
  {
    if !ReadsMore(s) {
      assert s.d.supplied + [] == s.d.supplied;
    } else if rounds == [] {
      EmptyRead(s, []);
      NothingGiven(s);
    } else {
      EmptyRead(s, rounds[0]);
      var s1 := Read(Some(0), s, rounds[0]).0;
      var given := GivenByRead(Some(0), s, rounds[0]);
      if s1.d.length == s.d.length {
        assert given + [] == given;
      } else {
        LoopHistory(s1, rounds[1..]);
        Assoc(s.d.supplied, given, GivenByLoop(s1, rounds[1..]));
      }
    }
  }

  lemma NothingGiven<T>(s: State<T>)
    ensures GivenByRead(Some(0), s, []) == []
  {}

  lemma ListenHistory<T>(s: State<T>, acts: seq<Act<T>>)
    requires Sound(s) && ActsOk(s.objectMode, acts) && NoUnshift(acts)
    ensures var r := OnListen(s, acts);
      r.d.supplied == s.d.supplied + GivenBy(s, Listen(acts)) && r.d.delivered == s.d.delivered
  {
    assert s.d.supplied + [] == s.d.supplied;
    if !(s.f.listening || s.e.endEmitted || s.f.reading) {
      EmptyRead(s.(f := s.f.(listening := true, emittedReadable := false, needReadable := true)), acts);
    }
  }

  lemma StepHistory<T>(s: State<T>, ev: Event<T>)
    requires Sound(s) && EventOk(s, ev) && NoUnshiftIn(ev)
    ensures Step(s, ev).d.supplied == s.d.supplied + GivenBy(s, ev)
    ensures Step(s, ev).d.delivered == s.d.delivered + ReturnedBy(s, ev)
  {
    assert s.d.supplied + [] == s.d.supplied && s.d.delivered + [] == s.d.delivered;
    match ev {
      case Add(a) => AddHistory(s, a);
      case ReadCall(n, acts) => ReadHistory(n, s, acts);
      case Listen(acts) => ListenHistory(s, acts);
      case ReadMoreTick(rounds) => LoopHistory(s, rounds);
      case _ =>
    }
  }

  // ---------------------------------------------------------------- whole runs

  /** The chunks pushed before the end, in the order of the run. */
  function Pushed<T(==)>(objectMode: bool, hwm: nat, evs: seq<Event<T>>): seq<T> {
    if evs == [] then []
    else
      var s, ev := After(objectMode, hwm, evs[..|evs| - 1]), evs[|evs| - 1];
      Pushed(objectMode, hwm, evs[..|evs| - 1]) + (if EventOk(s, ev) then GivenBy(s, ev) else [])
  }

  /** What the calls of `read` returned, one after the other. */
  function Received<T(==)>(objectMode: bool, hwm: nat, evs: seq<Event<T>>): seq<T> {
    if evs == [] then []
    else
      var s, ev := After(objectMode, hwm, evs[..|evs| - 1]), evs[|evs| - 1];
      Received(objectMode, hwm, evs[..|evs| - 1]) + (if EventOk(s, ev) then ReturnedBy(s, ev) else [])
  }

  lemma {:induction false} RunHistory<T>(objectMode: bool, hwm: nat, evs: seq<Event<T>>)
    requires forall k :: 0 <= k < |evs| ==> NoUnshiftIn(evs[k])
    ensures After(objectMode, hwm, evs).d.supplied == Pushed(objectMode, hwm, evs)
    ensures After(objectMode, hwm, evs).d.delivered == Received(objectMode, hwm, evs)
  {
    if evs != [] {
      var before, ev := evs[..|evs| - 1], evs[|evs| - 1];
      var s := After(objectMode, hwm, before);
      RunHistory(objectMode, hwm, before);
      if EventOk(s, ev) {
        StepHistory(s, ev);
      } else {
        assert s.d.supplied + [] == s.d.supplied && s.d.delivered + [] == s.d.delivered;
      }
    }
  }

  /** The reader gets a prefix of what was pushed, the rest is in the buffer, and after 'end'
      it got everything. */
  lemma Delivery<T>(objectMode: bool, hwm: nat, evs: seq<Event<T>>)
    requires forall k :: 0 <= k < |evs| ==> NoUnshiftIn(evs[k])
    ensures var s := After(objectMode, hwm, evs);
      && Received(objectMode, hwm, evs) + Flatten(s.d.buffer) == Pushed(objectMode, hwm, evs)
      && (s.e.ends == 1 ==> Received(objectMode, hwm, evs) == Pushed(objectMode, hwm, evs))
  {
    RunHistory(objectMode, hwm, evs);
    Conservation(objectMode, hwm, evs);
  }

  // ---------------------------------------------------------------- with put-backs

  /** What happened to the items that wait: a chunk came behind them, or in front, or the first left. */
  datatype Entry<T> = Entered(chunk: seq<T>) | CameBack(chunk: seq<T>) | Left(items: seq<T>)

  /** The same on a plain line of items; None if something left that was not in front. */
  function Replay<T(==)>(line: seq<T>, log: seq<Entry<T>>): Option<seq<T>>
    decreases |log|
  {
    if log == [] then Some(line)
    else
      match log[0]
      case Entered(chunk) => Replay(line + chunk, log[1..])
      case CameBack(chunk) => Replay(chunk + line, log[1..])
      case Left(items) => if items <= line then Replay(line[|items|..], log[1..]) else None
  }

  lemma {:induction false} ReplayAppend<T>(line: seq<T>, a: seq<Entry<T>>, b: seq<Entry<T>>)
    ensures Replay(line, a + b) == match Replay(line, a) case None => None case Some(l) => Replay(l, b)
    decreases |a|
  {
    if a == [] {
      assert a + b == b;
    } else {
      assert (a + b)[1..] == a[1..] + b;
      match a[0] {
        case Entered(chunk) => ReplayAppend(line + chunk, a[1..], b);
        case CameBack(chunk) => ReplayAppend(chunk + line, a[1..], b);
        case Left(items) => if items <= line { ReplayAppend(line[|items|..], a[1..], b); }
      }
    }
  }

  lemma ReplayOne<T>(line: seq<T>, e: Entry<T>)
    ensures e.Entered? ==> Replay(line, [e]) == Some(line + e.chunk)
    ensures e.CameBack? ==> Replay(line, [e]) == Some(e.chunk + line)
    ensures e.Left? && e.items <= line ==> Replay(line, [e]) == Some(line[|e.items|..])
  {
    assert [e][1..] == [];
  }

  /** Pushes count until the end was pushed, and unshifts until 'end' was emitted. */
  function LogOfAct<T(==)>(s: State<T>, a: Act<T>): seq<Entry<T>> {
    match a
    case PushNull => []
    case Push(chunk) => if chunk == [] || s.e.ended then [] else [Entered(chunk)]
    case Unshift(chunk) => if chunk == [] || s.e.endEmitted then [] else [CameBack(chunk)]
  }

  function LogOfActs<T(==)>(s: State<T>, acts: seq<Act<T>>): seq<Entry<T>> {
    if acts == [] then []
    else
      var before := acts[..|acts| - 1];
      LogOfActs(s, before) + LogOfAct(AddAll(s, before), acts[|acts| - 1])
  }

  function Leaving<T>(ret: Option<seq<T>>): seq<Entry<T>> {
    match ret case Some(items) => [Left(items)] case None => []
  }

  /** `_read` does its work first, and then items are returned. */
  function LogOfRead<T(==)>(n: Option<int>, s: State<T>, acts: seq<Act<T>>): seq<Entry<T>> {
    (if CallsRead(n, s) then LogOfActs(Reading(Called(n, s).(f := Asked(n, Called(n, s)))), acts) else [])
    + Leaving(Read(n, s, acts).1)
  }

  function LogOfLoop<T(==)>(s: State<T>, rounds: seq<seq<Act<T>>>): seq<Entry<T>>
    decreases |rounds|
  {
    if !ReadsMore(s) then []
    else if rounds == [] then LogOfRead(Some(0), s, [])
    else
      var s1 := Read(Some(0), s, rounds[0]).0;
      LogOfRead(Some(0), s, rounds[0]) + (if s1.d.length == s.d.length then [] else LogOfLoop(s1, rounds[1..]))
  }

  function LogOf<T(==)>(s: State<T>, ev: Event<T>): seq<Entry<T>> {
    match ev
    case Add(a) => LogOfAct(s, a)
    case ReadCall(n, acts) => LogOfRead(n, s, acts)
    case Listen(acts) =>
      var s1 := s.(f := s.f.(listening := true, emittedReadable := false, needReadable := true));
      if s.f.listening || s.e.endEmitted || s.f.reading then [] else LogOfRead(Some(0), s1, acts)
    case ReadMoreTick(rounds) => LogOfLoop(s, rounds)
    case _ => []
  }

  lemma ActLine<T>(s: State<T>, a: Act<T>)
    ensures Replay(Flatten(s.d.buffer), LogOfAct(s, a)) == Some(Flatten(AddChunk(s, a).d.buffer))
  {
    if a.Push? && a.chunk != [] && !s.e.ended {
      ReplayOne(Flatten(s.d.buffer), Entered(a.chunk));
      FlattenSnoc(s.d.buffer, a.chunk);
    } else if a.Unshift? && a.chunk != [] && !s.e.endEmitted {
      ReplayOne(Flatten(s.d.buffer), CameBack(a.chunk));
      FlattenCons(a.chunk, s.d.buffer);
    }
  }

  lemma {:induction false} ActsLine<T>(s: State<T>, acts: seq<Act<T>>)
    ensures Replay(Flatten(s.d.buffer), LogOfActs(s, acts)) == Some(Flatten(AddAll(s, acts).d.buffer))
  {
    if acts != [] {
      var before, a := acts[..|acts| - 1], acts[|acts| - 1];
      ActsLine(s, before);
      ActLine(AddAll(s, before), a);
      ReplayAppend(Flatten(s.d.buffer), LogOfActs(s, before), LogOfAct(AddAll(s, before), a));
    }
  }

  lemma TakeLine<T>(s: State<T>, n: int)
    requires Sound(s) && Amount(s.objectMode, s.d.length, n)
    ensures var (r, ret) := TakeOut(s, n);
      Replay(Flatten(s.d.buffer), Leaving(ret)) == Some(Flatten(r.d.buffer))
  {
    TakeOutKeeps(s, n);
    if n > 0 && s.d.buffer != [] {
      FromListKeeps(s.objectMode, s.d.buffer, n);
      ReplayOne(Flatten(s.d.buffer), Left(Flatten(s.d.buffer)[..n]));
    }
  }

  lemma BeforeLine<T>(n: Option<int>, s: State<T>, k: int, acts: seq<Act<T>>)
    ensures var r := BeforeTaking(n, s, k, acts).0;
      Replay(Flatten(s.d.buffer), if WantsRead(s, k) then LogOfActs(Reading(s), acts) else [])
      == Some(Flatten(r.d.buffer))
  {
    if WantsRead(s, k) {
      ActsLine(Reading(s), acts);
    }
  }

  lemma ReadLine<T>(n: Option<int>, s: State<T>, acts: seq<Act<T>>)
    requires Sound(s) && ActsOk(s.objectMode, acts)
    ensures Replay(Flatten(s.d.buffer), LogOfRead(n, s, acts)) == Some(Flatten(Read(n, s, acts).0.d.buffer))
  {
    var s1 := Called(n, s);
    if !OnlyTriggers(n, s1) {
      var k := HowMuch(n, s1);
      var s2 := s1.(f := Asked(n, s1));
      if !(k == 0 && s.e.ended) {
        var (s3, k3) := BeforeTaking(n, s2, k, acts);
        HowMuchKeeps(n, s1);
        BeforeTakingKeeps(n, s2, k, acts);
        BeforeLine(n, s2, k, acts);
        TakeLine(s3, k3);
        ReplayAppend(Flatten(s.d.buffer), if WantsRead(s2, k) then LogOfActs(Reading(s2), acts) else [],
                     Leaving(TakeOut(s3, k3).1));
      }
    }
  }

  lemma {:induction false} LoopLine<T>(s: State<T>, rounds: seq<seq<Act<T>>>)
    requires Sound(s) && RoundsOk(s.objectMode, rounds)
    ensures Replay(Flatten(s.d.buffer), LogOfLoop(s, rounds)) == Some(Flatten(ReadMoreLoop(s, rounds).d.buffer))
    decreases |rounds|
  {
    if ReadsMore(s) {
      if rounds == [] {
        ReadLine(Some(0), s, []);
      } else {
        ReadLine(Some(0), s, rounds[0]);
        var s1 := Read(Some(0), s, rounds[0]).0;
        var log := LogOfRead(Some(0), s, rounds[0]);
        if s1.d.length == s.d.length {
          assert log + [] == log;
        } else {
          ReadKeeps(Some(0), s, rounds[0]);
          LoopLine(s1, rounds[1..]);
          ReplayAppend(Flatten(s.d.buffer), log, LogOfLoop(s1, rounds[1..]));
        }
      }
    }
  }

  lemma ListenLine<T>(s: State<T>, acts: seq<Act<T>>)
    requires Sound(s) && ActsOk(s.objectMode, acts)
    ensures Replay(Flatten(s.d.buffer), LogOf(s, Listen(acts))) == Some(Flatten(OnListen(s, acts).d.buffer))
  {
    if !(s.f.listening || s.e.endEmitted || s.f.reading) {
      ReadLine(Some(0), s.(f := s.f.(listening := true, emittedReadable := false, needReadable := true)), acts);
    }
  }

  lemma StepLine<T>(s: State<T>, ev: Event<T>)
    requires Sound(s) && EventOk(s, ev)
    ensures Replay(Flatten(s.d.buffer), LogOf(s, ev)) == Some(Flatten(Step(s, ev).d.buffer))
  {
    match ev {
      case Add(a) => ActLine(s, a);
      case ReadCall(n, acts) => ReadLine(n, s, acts);
      case Listen(acts) => ListenLine(s, acts);
      case ReadMoreTick(rounds) => LoopLine(s, rounds);
      case _ =>
    }
  }

  function Log<T(==)>(objectMode: bool, hwm: nat, evs: seq<Event<T>>): seq<Entry<T>> {
    if evs == [] then []
    else
      var s, ev := After(objectMode, hwm, evs[..|evs| - 1]), evs[|evs| - 1];
      Log(objectMode, hwm, evs[..|evs| - 1]) + (if EventOk(s, ev) then LogOf(s, ev) else [])
  }

  lemma {:induction false} RunLine<T>(objectMode: bool, hwm: nat, evs: seq<Event<T>>)
    ensures Replay([], Log(objectMode, hwm, evs)) == Some(Flatten(After(objectMode, hwm, evs).d.buffer))
  {
    if evs != [] {
      var before, ev := evs[..|evs| - 1], evs[|evs| - 1];
      var s := After(objectMode, hwm, before);
      RunLine(objectMode, hwm, before);
      if EventOk(s, ev) {
        StepLine(s, ev);
        ReplayAppend([], Log(objectMode, hwm, before), LogOf(s, ev));
      } else {
        assert Log(objectMode, hwm, before) + [] == Log(objectMode, hwm, before);
      }
    }
  }

  /** What left, one after the other. */
  function AllLeft<T>(log: seq<Entry<T>>): seq<T>
    decreases |log|
  {
    if log == [] then [] else (match log[0] case Left(items) => items case _ => []) + AllLeft(log[1..])
  }

  /** What came in, from either side. */
  function AllCame<T>(log: seq<Entry<T>>): multiset<T>
    decreases |log|
  {
    if log == [] then multiset{}
    else
      (match log[0] case Entered(chunk) => multiset(chunk) case CameBack(chunk) => multiset(chunk) case _ => multiset{})
      + AllCame(log[1..])
  }

  lemma {:induction false} LeftAppend<T>(a: seq<Entry<T>>, b: seq<Entry<T>>)
    ensures AllLeft(a + b) == AllLeft(a) + AllLeft(b)
    decreases |a|
  {
    if a == [] {
      assert a + b == b;
    } else {
      assert (a + b)[1..] == a[1..] + b;
      LeftAppend(a[1..], b);
      Assoc(match a[0] case Left(items) => items case _ => [], AllLeft(a[1..]), AllLeft(b));
    }
  }

  lemma CameCounts<T>(line: seq<T>, chunk: seq<T>, rest: multiset<T>, left: seq<T>, came: multiset<T>)
    requires rest + multiset(left) == multiset(line) + multiset(chunk) + came
    ensures rest + multiset([] + left) == multiset(line) + (multiset(chunk) + came)
  {
    assert [] + left == left;
  }

  lemma LeftCounts<T>(line: seq<T>, items: seq<T>, rest: multiset<T>, left: seq<T>, came: multiset<T>)
    requires items <= line && rest + multiset(left) == multiset(line[|items|..]) + came
    ensures rest + multiset(items + left) == multiset(line) + (multiset{} + came)
  {
    assert line == items + line[|items|..];
    calc {
      rest + multiset(items + left);
      multiset(items) + (rest + multiset(left));
      multiset(items) + (multiset(line[|items|..]) + came);
      multiset(line) + (multiset{} + came);
    }
  }

  /** Nothing is lost or doubled on the line. */
  lemma {:induction false} ReplayCounts<T>(line: seq<T>, log: seq<Entry<T>>)
    requires Replay(line, log).Some?
    ensures multiset(Replay(line, log).value) + multiset(AllLeft(log)) == multiset(line) + AllCame(log)
    decreases |log|
  {
    if log != [] {
      var rest, left, came := multiset(Replay(line, log).value), AllLeft(log[1..]), AllCame(log[1..]);
      match log[0] {
        case Entered(chunk) =>
          ReplayCounts(line + chunk, log[1..]);
          CameCounts(line, chunk, rest, left, came);
        case CameBack(chunk) =>
          ReplayCounts(chunk + line, log[1..]);
          CameCounts(line, chunk, rest, left, came);
        case Left(items) =>
          ReplayCounts(line[|items|..], log[1..]);
          LeftCounts(line, items, rest, left, came);
      }
    }
  }

  /** From the beginning, and until nothing is left. */
  lemma ReplayAll<T>(log: seq<Entry<T>>, rest: seq<T>)
    requires Replay([], log) == Some(rest)
    ensures multiset(AllLeft(log)) + multiset(rest) == AllCame(log)
    ensures rest == [] ==> multiset(AllLeft(log)) == AllCame(log)
  {
    ReplayCounts([], log);
    var none: seq<T> := [];
    assert multiset(none) == multiset{};
    assert multiset{} + AllCame(log) == AllCame(log);
    if rest == [] {
      assert multiset(rest) + multiset(AllLeft(log)) == multiset(AllLeft(log));
    }
  }

  lemma OneLeft<T>(ret: Option<seq<T>>)
    ensures AllLeft(Leaving(ret)) == Returned(ret)
  {
    if ret.Some? {
      assert Leaving(ret)[1..] == [];
      assert ret.value + [] == ret.value;
    }
  }

  lemma ActLeaves<T>(s: State<T>, a: Act<T>)
    ensures AllLeft(LogOfAct(s, a)) == []
  {
    if LogOfAct(s, a) != [] {
      assert LogOfAct(s, a)[1..] == [];
    }
  }

  lemma {:induction false} ActsLeave<T>(s: State<T>, acts: seq<Act<T>>)
    ensures AllLeft(LogOfActs(s, acts)) == []
  {
    if acts != [] {
      var before := acts[..|acts| - 1];
      ActsLeave(s, before);
      ActLeaves(AddAll(s, before), acts[|acts| - 1]);
      LeftAppend(LogOfActs(s, before), LogOfAct(AddAll(s, before), acts[|acts| - 1]));
    }
  }

  lemma ReadLeaves<T>(n: Option<int>, s: State<T>, acts: seq<Act<T>>)
    ensures AllLeft(LogOfRead(n, s, acts)) == Returned(Read(n, s, acts).1)
  {
    var called := Reading(Called(n, s).(f := Asked(n, Called(n, s))));
    var log := if CallsRead(n, s) then LogOfActs(called, acts) else [];
    ActsLeave(called, acts);
    LeftAppend(log, Leaving(Read(n, s, acts).1));
    OneLeft(Read(n, s, acts).1);
    assert [] + Returned(Read(n, s, acts).1) == Returned(Read(n, s, acts).1);
  }

  /** `read(0)` returns nothing. */
  lemma EmptyLeaves<T>(s: State<T>, acts: seq<Act<T>>)
    requires Sound(s) && ActsOk(s.objectMode, acts)
    ensures AllLeft(LogOfRead(Some(0), s, acts)) == []
  {
    ReadKeeps(Some(0), s, acts);
    ReadLeaves(Some(0), s, acts);
  }

  lemma {:induction false} LoopLeaves<T>(s: State<T>, rounds: seq<seq<Act<T>>>)
    requires Sound(s) && RoundsOk(s.objectMode, rounds)
    ensures AllLeft(LogOfLoop(s, rounds)) == []
    decreases |rounds|
  {
    if ReadsMore(s) {
      if rounds == [] {
        EmptyLeaves(s, []);
      } else {
        EmptyLeaves(s, rounds[0]);
        var s1 := Read(Some(0), s, rounds[0]).0;
        var log := LogOfRead(Some(0), s, rounds[0]);
        if s1.d.length == s.d.length {
          assert log + [] == log;
        } else {
          ReadKeeps(Some(0), s, rounds[0]);
          LoopLeaves(s1, rounds[1..]);
          LeftAppend(log, LogOfLoop(s1, rounds[1..]));
        }
      }
    }
  }

  lemma StepLeaves<T>(s: State<T>, ev: Event<T>)
    requires Sound(s) && EventOk(s, ev)
    ensures AllLeft(LogOf(s, ev)) == ReturnedBy(s, ev)
  {
    match ev {
      case Add(a) => ActLeaves(s, a);
      case ReadCall(n, acts) => ReadLeaves(n, s, acts);
      case Listen(acts) =>
        EmptyLeaves(s.(f := s.f.(listening := true, emittedReadable := false, needReadable := true)), acts);
      case ReadMoreTick(rounds) => LoopLeaves(s, rounds);
      case _ =>
    }
  }

  lemma {:induction false} RunLeaves<T>(objectMode: bool, hwm: nat, evs: seq<Event<T>>)
    ensures AllLeft(Log(objectMode, hwm, evs)) == Received(objectMode, hwm, evs)
  {
    if evs != [] {
      var before, ev := evs[..|evs| - 1], evs[|evs| - 1];
      var s := After(objectMode, hwm, before);
      RunLeaves(objectMode, hwm, before);
      if EventOk(s, ev) {
        StepLeaves(s, ev);
        LeftAppend(Log(objectMode, hwm, before), LogOf(s, ev));
      } else {
        assert Log(objectMode, hwm, before) + [] == Log(objectMode, hwm, before);
        assert Received(objectMode, hwm, before) + [] == Received(objectMode, hwm, before);
      }
    }
  }

  lemma NothingLeft<T>(s: State<T>)
    requires Sound(s)
    ensures s.e.ends == 1 ==> Flatten(s.d.buffer) == []
  {}

  /**
   With unshift at any time: the stream is a line of items which chunks join at its end or, put
   back, at its front, and from whose front each `read` takes what it returns. So the reader gets
   everything that was pushed and put back but for what is still in line, and after 'end' all of it.
   */
  lemma DeliveryWithPutBacks<T>(objectMode: bool, hwm: nat, evs: seq<Event<T>>)
    ensures var s, log := After(objectMode, hwm, evs), Log(objectMode, hwm, evs);
      && Replay([], log) == Some(Flatten(s.d.buffer))
      && AllLeft(log) == Received(objectMode, hwm, evs)
      && multiset(Received(objectMode, hwm, evs)) + multiset(Flatten(s.d.buffer)) == AllCame(log)
      && (s.e.ends == 1 ==> multiset(Received(objectMode, hwm, evs)) == AllCame(log))
  {
    RunLine(objectMode, hwm, evs);
    RunLeaves(objectMode, hwm, evs);
    ReplayAll(Log(objectMode, hwm, evs), Flatten(After(objectMode, hwm, evs).d.buffer));
    NothingLeft(After(objectMode, hwm, evs));
  }
}
