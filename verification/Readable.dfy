/**
 The buffer and end-of-stream machine of lib/_stream_readable.js, without a decoder.

 Items are bytes, or whole objects in object mode, where every chunk is one object. `_read`
 is what it does before it returns: a list of pushes and unshifts. What is deferred to the
 next tick is counted, and any of it may happen at any time later.
 */
module Readable {
  import opened Prelude

  /** `push(chunk)`, `push(null)` and `unshift(chunk)`. */
  datatype Act<T> = Push(chunk: seq<T>) | PushNull | Unshift(chunk: seq<T>)

  /** The buffer, and the history: what `read` returned and was not put back, and what the
      source supplied. */
  datatype Data<T> = Data(buffer: seq<seq<T>>, length: int, delivered: seq<T>, supplied: seq<T>)

  /** When to read more and when to say 'readable'; and how often that and 'error' were emitted. */
  datatype Flow = Flow(
    highWaterMark: nat,
    flowing: bool,
    reading: bool,
    sync: bool,
    needReadable: bool,
    emittedReadable: bool,
    listening: bool,
    readingMore: bool,
    readableTicks: nat,
    readables: nat,
    errors: nat)

  /** `ends`: how often 'end' was emitted; `thrown`: the 'non-empty stream' error. */
  datatype Ending = Ending(ended: bool, endEmitted: bool, calledRead: bool, endTicks: nat, ends: nat, thrown: bool)

  datatype State<T> = State(objectMode: bool, d: Data<T>, f: Flow, e: Ending)

  function NewState<T>(objectMode: bool, highWaterMark: nat): State<T> {
    State(objectMode, Data([], 0, [], []),
          Flow(highWaterMark, false, false, true, false, false, false, false, 0, 0, 0),
          Ending(false, false, false, 0, 0, false))
  }

  const MAX_HWM := 0x80_0000

  /** The least power of two that is at least n, counting up from p. */
  function PowerFrom(n: nat, p: nat): nat
    requires p > 0
    decreases n - p
  {
    if n <= p then p else PowerFrom(n, 2 * p)
  }

  function RoundUp(n: nat): nat {
    if n >= MAX_HWM then MAX_HWM else PowerFrom(n, 1)
  }

  predicate NeedMoreData(length: int, f: Flow, ended: bool) {
    !ended && (f.needReadable || length < f.highWaterMark || length == 0)
  }

  function EmitReadable(f: Flow): Flow {
    var f1 := f.(needReadable := false, emittedReadable := true);
    if f.emittedReadable then f1
    else if f.sync then f1.(readableTicks := f.readableTicks + 1)
    else f1.(readables := f.readables + 1)
  }

  function EndReadable(length: int, e: Ending): Ending {
    if length > 0 then e.(thrown := true)
    else if !e.endEmitted && e.calledRead then e.(ended := true, endTicks := e.endTicks + 1)
    else e
  }

  function OnEofChunk<T>(s: State<T>): State<T> {
    var e := s.e.(ended := true);
    if s.d.length > 0 then s.(f := EmitReadable(s.f), e := e) else s.(e := EndReadable(s.d.length, e))
  }

  function Insert<T>(all: seq<T>, at: nat, chunk: seq<T>): seq<T> {
    if at <= |all| then all[..at] + chunk + all[at..] else all + chunk
  }

  /** The chunk as data: put in front it takes back what was just read, if it is that, and is
      supplied there otherwise. */
  function Supply<T(==)>(d: Data<T>, chunk: seq<T>, front: bool): Data<T> {
    if !front then Data(d.buffer + [chunk], d.length + |chunk|, d.delivered, d.supplied + chunk)
    else
      var kept := |d.delivered| - |chunk|;
      if 0 <= kept && d.delivered[kept..] == chunk then
        Data([chunk] + d.buffer, d.length + |chunk|, d.delivered[..kept], d.supplied)
      else Data([chunk] + d.buffer, d.length + |chunk|, d.delivered, Insert(d.supplied, |d.delivered|, chunk))
  }

  /** There is something to read. */
  function Noticed(f: Flow, front: bool): Flow {
    var f1 := f.(reading := f.reading && front);
    (if f1.needReadable then EmitReadable(f1) else f1).(readingMore := true)
  }

  /** `readableAddChunk` for a chunk with something in it. */
  function AddData<T(==)>(s: State<T>, chunk: seq<T>, front: bool): State<T> {
    if (s.e.ended && !front) || (s.e.endEmitted && front) then s.(f := s.f.(errors := s.f.errors + 1))
    else s.(d := Supply(s.d, chunk, front), f := Noticed(s.f, front))
  }

  function NotReading<T>(s: State<T>): State<T> {
    s.(f := s.f.(reading := false))
  }

  function AddChunk<T(==)>(s: State<T>, a: Act<T>): State<T> {
    match a
    case PushNull => if s.e.ended then NotReading(s) else OnEofChunk(NotReading(s))
    case Push(chunk) => if chunk == [] then NotReading(s) else AddData(s, chunk, false)
    case Unshift(chunk) => if chunk == [] then s else AddData(s, chunk, true)
  }

  function AddAll<T(==)>(s: State<T>, acts: seq<Act<T>>): State<T> {
    if acts == [] then s else AddChunk(AddAll(s, acts[..|acts| - 1]), acts[|acts| - 1])
  }

  /** `howMuchToRead`; the argument is None if it was left out. */
  function HowMuch<T>(n: Option<int>, s: State<T>): int {
    if s.d.length == 0 && s.e.ended then 0
    else if s.objectMode then (if n == Some(0) then 0 else 1)
    else
      match n
      case None => if s.f.flowing && s.d.buffer != [] then |s.d.buffer[0]| else s.d.length
      case Some(k) => if k <= 0 then 0 else if k > s.d.length then (if s.e.ended then s.d.length else 0) else k
  }

  /** What `howMuchToRead` does besides: more is asked for than the mark, or than there is. */
  function Asked<T>(n: Option<int>, s: State<T>): Flow {
    if (s.d.length == 0 && s.e.ended) || s.objectMode || n == None || n.value <= 0 then s.f
    else
      var f := if n.value > s.f.highWaterMark then s.f.(highWaterMark := RoundUp(n.value)) else s.f;
      if n.value > s.d.length && !s.e.ended then f.(needReadable := true) else f
  }

  /** The first n items of the list, and what is left of it. */
  function Pluck<T>(list: seq<seq<T>>, n: nat): (r: (seq<T>, seq<seq<T>>))
    requires n <= |Flatten(list)|
    ensures r.0 == Flatten(list)[..n] && Flatten(r.1) == Flatten(list)[n..]
  {
    if n == 0 || list == [] then ([], list)
    else if n < |list[0]| then (list[0][..n], [list[0][n..]] + list[1..])
    else
      PluckTail(list, n);
      var (ret, rest) := Pluck(list[1..], n - |list[0]|);
      (list[0] + ret, rest)
  }

  lemma PluckTail<T>(list: seq<seq<T>>, n: nat)
    requires list != [] && |list[0]| <= n <= |Flatten(list)|
    ensures n - |list[0]| <= |Flatten(list[1..])|
    ensures Flatten(list)[..n] == list[0] + Flatten(list[1..])[..n - |list[0]|]
    ensures Flatten(list)[n..] == Flatten(list[1..])[n - |list[0]|..]
  {}

  /** `fromList`: all of it if n is as much as there is. */
  function FromList<T>(n: nat, list: seq<seq<T>>): (seq<T>, seq<seq<T>>) {
    if n >= |Flatten(list)| then (Flatten(list), []) else Pluck(list, n)
  }

  function Reading<T>(s: State<T>): State<T> {
    s.(f := s.f.(reading := true, sync := true, needReadable := s.f.needReadable || s.d.length == 0))
  }

  /** The call of `_read`. */
  function CallRead<T(==)>(s: State<T>, acts: seq<Act<T>>): State<T> {
    var after := AddAll(Reading(s), acts);
    after.(f := after.f.(sync := false))
  }

  predicate WantsRead<T>(s: State<T>, n: int) {
    (s.f.needReadable || s.d.length - n <= s.f.highWaterMark) && !s.e.ended && !s.f.reading
  }

  /** n items leave the buffer. */
  function Taken<T>(d: Data<T>, n: nat): Data<T> {
    var (ret, rest) := FromList(n, d.buffer);
    Data(rest, d.length - n, d.delivered + ret, d.supplied)
  }

  /** The end of `read`: n items are taken from the buffer. */
  function TakeOut<T>(s: State<T>, n: int): (State<T>, Option<seq<T>>) {
    if n <= 0 || s.d.buffer == [] then (Drained(s.(f := s.f.(needReadable := true))), None)
    else (Drained(s.(d := Taken(s.d, n))), Some(FromList(n, s.d.buffer).0))
  }

  function Drained<T>(s: State<T>): State<T> {
    if s.d.length != 0 then s
    else if !s.e.ended then s.(f := s.f.(needReadable := true))
    else if !s.e.endEmitted then s.(e := EndReadable(s.d.length, s.e))
    else s
  }

  predicate OnlyTriggers<T>(n: Option<int>, s: State<T>) {
    n == Some(0) && s.f.needReadable && (s.d.length >= s.f.highWaterMark || s.e.ended)
  }

  function Called<T>(n: Option<int>, s: State<T>): State<T> {
    s.(e := s.e.(calledRead := true),
       f := s.f.(emittedReadable := s.f.emittedReadable && n.Some? && n.value <= 0))
  }

  /** The state before data is taken out, and how much that is. */
  function BeforeTaking<T(==)>(n: Option<int>, s: State<T>, k: int, acts: seq<Act<T>>): (State<T>, int) {
    if !WantsRead(s, k) then (s, k)
    else
      var s1 := CallRead(s, acts);
      if s1.f.reading then (s1, k) else (s1.(f := Asked(n, s1)), HowMuch(n, s1))
  }

  /** `read` */
  function Read<T(==)>(n: Option<int>, s: State<T>, acts: seq<Act<T>>): (State<T>, Option<seq<T>>) {
    var s1 := Called(n, s);
    if OnlyTriggers(n, s1) then (s1.(f := EmitReadable(s1.f)), None) else ReadOn(n, s1, acts)
  }

  function ReadOn<T(==)>(n: Option<int>, s: State<T>, acts: seq<Act<T>>): (State<T>, Option<seq<T>>) {
    var k := HowMuch(n, s);
    var s1 := s.(f := Asked(n, s));
    if k == 0 && s.e.ended then (if s.d.length == 0 then s1.(e := EndReadable(0, s.e)) else s1, None)
    else
      var (s2, k2) := BeforeTaking(n, s1, k, acts);
      TakeOut(s2, k2)
  }

  predicate ReadsMore<T>(s: State<T>) {
    !s.f.reading && !s.f.flowing && !s.e.ended && s.d.length < s.f.highWaterMark
  }

  /** The loop of `maybeReadMore_`; each round may call `_read`, which does what the list says. */
  function ReadMoreLoop<T(==)>(s: State<T>, rounds: seq<seq<Act<T>>>): State<T>
    decreases |rounds|
  {
    if !ReadsMore(s) then s
    else if rounds == [] then Read(Some(0), s, []).0
    else
      var s1 := Read(Some(0), s, rounds[0]).0;
      if s1.d.length == s.d.length then s1 else ReadMoreLoop(s1, rounds[1..])
  }

  // ---------------------------------------------------------------- the invariant

  predicate ActOk<T>(objectMode: bool, a: Act<T>) {
    objectMode && !a.PushNull? ==> |a.chunk| == 1
  }

  predicate ActsOk<T>(objectMode: bool, acts: seq<Act<T>>) {
    forall k :: 0 <= k < |acts| ==> ActOk(objectMode, acts[k])
  }

  predicate RoundsOk<T>(objectMode: bool, rounds: seq<seq<Act<T>>>) {
    forall k :: 0 <= k < |rounds| ==> ActsOk(objectMode, rounds[k])
  }

  predicate ChunkOk<T>(objectMode: bool, chunk: seq<T>) {
    chunk != [] && (objectMode ==> |chunk| == 1)
  }

  predicate ChunksOk<T>(objectMode: bool, buffer: seq<seq<T>>) {
    forall k :: 0 <= k < |buffer| ==> ChunkOk(objectMode, buffer[k])
  }

  /** The length is that of what is buffered; what was delivered and what is buffered is what
      was supplied. */
  ghost predicate Content<T>(objectMode: bool, d: Data<T>) {
    && d.length == |Flatten(d.buffer)|
    && ChunksOk(objectMode, d.buffer)
    && d.delivered + Flatten(d.buffer) == d.supplied
  }

  /** 'end' was emitted at most once, and then nothing was or will be left. */
  predicate Closing(length: int, e: Ending) {
    && !e.thrown
    && e.ends == (if e.endEmitted then 1 else 0)
    && (e.endEmitted ==> e.ended && length == 0)
    && (e.endTicks > 0 ==> e.ended)
  }

  /** Once a stream whose end was seen is empty and was read, 'end' is under way. */
  predicate Live(length: int, e: Ending) {
    e.ended && length == 0 && e.calledRead && !e.endEmitted ==> e.endTicks > 0
  }

  ghost predicate Sound<T>(s: State<T>) {
    Content(s.objectMode, s.d) && Closing(s.d.length, s.e)
  }

  /** How much may be taken out: one object, or what there is. */
  predicate Amount(objectMode: bool, length: int, k: int) {
    0 <= k && (if objectMode then k <= 1 else k <= length)
  }

  /** A step that supplies data and may see the end. */
  ghost predicate Grows<T>(s: State<T>, r: State<T>) {
    && Sound(r) && (Live(s.d.length, s.e) ==> Live(r.d.length, r.e))
    && r.objectMode == s.objectMode && r.d.length >= s.d.length
    && r.f.highWaterMark == s.f.highWaterMark && r.f.flowing == s.f.flowing
    && (s.e.ended ==> r.e.ended) && r.e.calledRead == s.e.calledRead && r.e.endEmitted == s.e.endEmitted
  }

  lemma FlattenCons<T>(chunk: seq<T>, list: seq<seq<T>>)
    ensures Flatten([chunk] + list) == chunk + Flatten(list)
  {
    assert ([chunk] + list)[1..] == list;
  }

  lemma PutBack<T>(delivered: seq<T>, chunk: seq<T>, rest: seq<T>)
    requires |chunk| <= |delivered| && delivered[|delivered| - |chunk|..] == chunk
    ensures delivered[..|delivered| - |chunk|] + (chunk + rest) == delivered + rest
  {
    assert delivered == delivered[..|delivered| - |chunk|] + chunk;
  }

  lemma InsertBetween<T>(a: seq<T>, b: seq<T>, chunk: seq<T>)
    ensures Insert(a + b, |a|, chunk) == a + (chunk + b)
  {
    assert (a + b)[..|a|] == a && (a + b)[|a|..] == b;
  }

  lemma SupplyKeeps<T>(objectMode: bool, d: Data<T>, chunk: seq<T>, front: bool)
    requires Content(objectMode, d) && ChunkOk(objectMode, chunk)
    ensures Content(objectMode, Supply(d, chunk, front)) && Supply(d, chunk, front).length > d.length
  {
    if !front {
      FlattenSnoc(d.buffer, chunk);
      Assoc(d.delivered, Flatten(d.buffer), chunk);
    } else {
      FlattenCons(chunk, d.buffer);
      InsertBetween(d.delivered, Flatten(d.buffer), chunk);
      if 0 <= |d.delivered| - |chunk| && d.delivered[|d.delivered| - |chunk|..] == chunk {
        PutBack(d.delivered, chunk, Flatten(d.buffer));
      }
    }
  }

  lemma AddDataKeeps<T>(s: State<T>, chunk: seq<T>, front: bool)
    requires Sound(s) && ChunkOk(s.objectMode, chunk)
    ensures Grows(s, AddData(s, chunk, front))
  {
    SupplyKeeps(s.objectMode, s.d, chunk, front);
  }

  /** No push or unshift loses data, and neither does the end. */
  lemma AddKeeps<T>(s: State<T>, a: Act<T>)
    requires Sound(s) && ActOk(s.objectMode, a)
    ensures Grows(s, AddChunk(s, a))
  {
    match a {
      case PushNull =>
      case Push(chunk) => if chunk != [] { AddDataKeeps(s, chunk, false); }
      case Unshift(chunk) => if chunk != [] { AddDataKeeps(s, chunk, true); }
    }
  }

  lemma {:induction false} AddAllKeeps<T>(s: State<T>, acts: seq<Act<T>>)
    requires Sound(s) && ActsOk(s.objectMode, acts)
    ensures Grows(s, AddAll(s, acts))
  {
    if acts != [] {
      AddAllKeeps(s, acts[..|acts| - 1]);
      AddKeeps(AddAll(s, acts[..|acts| - 1]), acts[|acts| - 1]);
    }
  }

  lemma CallReadKeeps<T>(s: State<T>, acts: seq<Act<T>>)
    requires Sound(s) && ActsOk(s.objectMode, acts)
    ensures Grows(s, CallRead(s, acts))
  {
    AddAllKeeps(Reading(s), acts);
  }

  lemma HowMuchKeeps<T>(n: Option<int>, s: State<T>)
    requires Sound(s)
    ensures Amount(s.objectMode, s.d.length, HowMuch(n, s))
    ensures n.Some? && n.value <= 0 ==> HowMuch(n, s) == 0 || (s.objectMode && n.value != 0)
    ensures n == Some(0) ==> HowMuch(n, s) == 0 && Asked(n, s) == s.f
  {
    if s.d.buffer != [] {
      FlattenCons(s.d.buffer[0], s.d.buffer[1..]);
      assert [s.d.buffer[0]] + s.d.buffer[1..] == s.d.buffer;
    }
  }

  lemma {:induction false} PluckOk<T>(objectMode: bool, list: seq<seq<T>>, n: nat)
    requires ChunksOk(objectMode, list) && n <= |Flatten(list)|
    ensures ChunksOk(objectMode, Pluck(list, n).1)
  {
    if n == 0 || list == [] {
    } else if n < |list[0]| {
    } else {
      PluckTail(list, n);
      PluckOk(objectMode, list[1..], n - |list[0]|);
    }
  }

  lemma FromListKeeps<T>(objectMode: bool, list: seq<seq<T>>, n: nat)
    requires ChunksOk(objectMode, list) && list != [] && n > 0
    requires n <= |Flatten(list)| || (objectMode && n == 1)
    ensures n <= |Flatten(list)|
    ensures ChunksOk(objectMode, FromList(n, list).1)
    ensures FromList(n, list).0 == Flatten(list)[..n] && Flatten(FromList(n, list).1) == Flatten(list)[n..]
  {
    assert Flatten(list) == list[0] + Flatten(list[1..]) && ChunkOk(objectMode, list[0]);
    if n < |Flatten(list)| {
      PluckOk(objectMode, list, n);
    }
  }

  lemma Cut<T>(delivered: seq<T>, all: seq<T>, n: nat)
    requires n <= |all|
    ensures delivered + all[..n] + all[n..] == delivered + all
  {
    assert all == all[..n] + all[n..];
  }

  lemma TakenKeeps<T>(objectMode: bool, d: Data<T>, n: nat)
    requires Content(objectMode, d) && 0 < n && d.buffer != [] && (n <= d.length || (objectMode && n == 1))
    ensures Content(objectMode, Taken(d, n)) && 0 < n <= d.length
    ensures FromList(n, d.buffer).0 == Flatten(d.buffer)[..n]
    ensures Taken(d, n).delivered == d.delivered + Flatten(d.buffer)[..n]
  {
    FromListKeeps(objectMode, d.buffer, n);
    Cut(d.delivered, Flatten(d.buffer), n);
  }

  lemma DrainedKeeps<T>(s: State<T>)
    requires Content(s.objectMode, s.d) && Closing(s.d.length, s.e)
    ensures Sound(Drained(s)) && Drained(s).d == s.d
    ensures s.d.length == 0 && s.e.calledRead ==> Live(s.d.length, Drained(s).e)
    ensures s.d.length != 0 ==> Drained(s).e == s.e
  {}

  /** What `read` returns are the first items of the buffer, and they leave it. */
  lemma TakeOutKeeps<T>(s: State<T>, n: int)
    requires Sound(s) && Amount(s.objectMode, s.d.length, n)
    ensures var (r, ret) := TakeOut(s, n);
      && Sound(r) && (s.e.calledRead ==> Live(r.d.length, r.e)) && r.objectMode == s.objectMode
      && r.d == (if ret == None then s.d else Taken(s.d, n))
      && (ret.Some? ==> 0 < n <= s.d.length && ret.value == Flatten(s.d.buffer)[..n])
      && (ret == None <==> n == 0 || s.d.buffer == [])
  {
    if n > 0 && s.d.buffer != [] {
      TakenKeeps(s.objectMode, s.d, n);
      DrainedKeeps(s.(d := Taken(s.d, n)));
    } else {
      DrainedKeeps(s.(f := s.f.(needReadable := true)));
    }
  }

  lemma BeforeTakingKeeps<T>(n: Option<int>, s: State<T>, k: int, acts: seq<Act<T>>)
    requires Sound(s) && ActsOk(s.objectMode, acts) && Amount(s.objectMode, s.d.length, k)
    ensures var (r, k') := BeforeTaking(n, s, k, acts);
      && Sound(r) && r.objectMode == s.objectMode && r.e.calledRead == s.e.calledRead
      && Amount(s.objectMode, r.d.length, k') && (n == Some(0) && k == 0 ==> k' == 0)
      && r.d.length >= s.d.length && (n == Some(0) ==> r.f.highWaterMark == s.f.highWaterMark)
  {
    if WantsRead(s, k) {
      var s1 := CallRead(s, acts);
      CallReadKeeps(s, acts);
      HowMuchKeeps(n, s1);
    }
  }

  /** `read` keeps the ledger, and leaves a stream that is at its end with 'end' under way,
      unless it only triggered 'readable'. */
  lemma ReadKeeps<T>(n: Option<int>, s: State<T>, acts: seq<Act<T>>)
    requires Sound(s) && ActsOk(s.objectMode, acts)
    ensures var (r, ret) := Read(n, s, acts);
      && Sound(r) && r.objectMode == s.objectMode
      && (ret.Some? ==> ret.value != [] && r.d.delivered != [])
      && (!OnlyTriggers(n, Called(n, s)) ==> Live(r.d.length, r.e))
      && (OnlyTriggers(n, Called(n, s)) ==> r.d == s.d && r.e == Called(n, s).e)
      && (n == Some(0) ==> ret == None && r.d.length >= s.d.length && r.f.highWaterMark == s.f.highWaterMark)
  {
    var s1 := Called(n, s);
    if !OnlyTriggers(n, s1) {
      HowMuchKeeps(n, s1);
      var k := HowMuch(n, s1);
      var s2 := s1.(f := Asked(n, s1));
      if !(k == 0 && s2.e.ended) {
        BeforeTakingKeeps(n, s2, k, acts);
        var (s3, k3) := BeforeTaking(n, s2, k, acts);
        TakeOutKeeps(s3, k3);
      }
    }
  }

  lemma {:induction false} ReadMoreKeeps<T>(s: State<T>, rounds: seq<seq<Act<T>>>)
    requires Sound(s)
    requires RoundsOk(s.objectMode, rounds)
    ensures var r := ReadMoreLoop(s, rounds);
      Sound(r) && (Live(s.d.length, s.e) ==> Live(r.d.length, r.e)) && r.objectMode == s.objectMode
    decreases |rounds|
  {
    if ReadsMore(s) {
      if rounds == [] {
        ReadKeeps(Some(0), s, []);
      } else {
        ReadKeeps(Some(0), s, rounds[0]);
        var s1 := Read(Some(0), s, rounds[0]).0;
        if s1.d.length != s.d.length {
          ReadMoreKeeps(s1, rounds[1..]);
        }
      }
    }
  }

  // ---------------------------------------------------------------- runs

  /** What may happen: calls from outside, and what was deferred to a later tick. */
  datatype Event<T> =
    | Add(a: Act<T>)
    | ReadCall(n: Option<int>, acts: seq<Act<T>>)
    | Listen(acts: seq<Act<T>>)
    | Flowing(on: bool)
    | ReadMoreTick(rounds: seq<seq<Act<T>>>)
    | EndTick
    | ReadableTick

  predicate EventOk<T>(s: State<T>, ev: Event<T>) {
    match ev
    case Add(a) => ActOk(s.objectMode, a)
    case ReadCall(_, acts) => ActsOk(s.objectMode, acts)
    case Listen(acts) => ActsOk(s.objectMode, acts)
    case Flowing(_) => true
    case ReadMoreTick(rounds) => s.f.readingMore && RoundsOk(s.objectMode, rounds)
    case EndTick => s.e.endTicks > 0
    case ReadableTick => s.f.readableTicks > 0
  }

  /** `on('readable', ...)` */
  function OnListen<T(==)>(s: State<T>, acts: seq<Act<T>>): State<T> {
    if s.f.listening || s.e.endEmitted then s
    else
      var s1 := s.(f := s.f.(listening := true, emittedReadable := false, needReadable := true));
      if !s1.f.reading then Read(Some(0), s1, acts).0
      else if s1.d.length > 0 then s1.(f := EmitReadable(s1.f))
      else s1
  }

  /** The tick that `endReadable` asked for. */
  function OnEndTick(length: int, e: Ending): Ending
    requires e.endTicks > 0
  {
    var e1 := e.(endTicks := e.endTicks - 1);
    if !e.endEmitted && length == 0 then e1.(endEmitted := true, ends := e.ends + 1) else e1
  }

  function Step<T(==)>(s: State<T>, ev: Event<T>): State<T>
    requires EventOk(s, ev)
  {
    match ev
    case Add(a) => AddChunk(s, a)
    case ReadCall(n, acts) => Read(n, s, acts).0
    case Listen(acts) => OnListen(s, acts)
    case Flowing(on) => s.(f := s.f.(flowing := on))
    case ReadMoreTick(rounds) =>
      var r := ReadMoreLoop(s, rounds);
      r.(f := r.f.(readingMore := false))
    case EndTick => s.(e := OnEndTick(s.d.length, s.e))
    case ReadableTick => s.(f := s.f.(readableTicks := s.f.readableTicks - 1, readables := s.f.readables + 1))
  }

  /** `read(0)` on an empty stream that saw its end before it was ever read, when 'readable'
      is awaited: 'readable' is emitted, and 'end' is left to a later `read`. */
  predicate Overlooked<T>(s: State<T>, ev: Event<T>) {
    && s.e.ended && s.d.length == 0 && !s.e.calledRead && !s.e.endEmitted && s.e.endTicks == 0
    && ((ev.ReadCall? && ev.n == Some(0) && s.f.needReadable) || (ev.Listen? && !s.f.listening && !s.f.reading))
  }

  lemma ListenKeeps<T>(s: State<T>, acts: seq<Act<T>>)
    requires Sound(s) && ActsOk(s.objectMode, acts)
    ensures Sound(OnListen(s, acts)) && OnListen(s, acts).objectMode == s.objectMode
    ensures var r := OnListen(s, acts);
      Live(s.d.length, s.e) ==> (Live(r.d.length, r.e) <==> !Overlooked(s, Listen(acts)))
  {
    if !(s.f.listening || s.e.endEmitted) {
      var s1 := s.(f := s.f.(listening := true, emittedReadable := false, needReadable := true));
      ReadKeeps(Some(0), s1, acts);
    }
  }

  /** Every step keeps the ledger; and 'end' stays under way exactly if it is not overlooked. */
  lemma StepKeeps<T>(s: State<T>, ev: Event<T>)
    requires Sound(s) && EventOk(s, ev)
    ensures Sound(Step(s, ev)) && Step(s, ev).objectMode == s.objectMode
    ensures Live(s.d.length, s.e) ==> (Live(Step(s, ev).d.length, Step(s, ev).e) <==> !Overlooked(s, ev))
  {
    match ev {
      case Add(a) => AddKeeps(s, a);
      case ReadCall(n, acts) => ReadKeeps(n, s, acts);
      case Listen(acts) => ListenKeeps(s, acts);
      case ReadMoreTick(rounds) => ReadMoreKeeps(s, rounds);
      case _ =>
    }
  }

  /** After 'end' nothing is delivered or accepted any more, and it is not emitted again. */
  lemma EndIsFinal<T>(s: State<T>, ev: Event<T>)
    requires Sound(s) && EventOk(s, ev) && s.e.endEmitted
    ensures Step(s, ev).d == s.d && Step(s, ev).e.ends == 1 && Step(s, ev).e.endEmitted
  {
    match ev {
      case Add(a) => AddKeeps(s, a);
      case ReadCall(n, acts) => ReadKeeps(n, s, acts);
      case ReadMoreTick(rounds) => ReadMoreKeeps(s, rounds);
      case _ =>
    }
  }

  function After<T(==)>(objectMode: bool, highWaterMark: nat, evs: seq<Event<T>>): (r: State<T>)
    ensures Sound(r)
  {
    if evs == [] then
      NewState(objectMode, highWaterMark)
    else
      var s := After(objectMode, highWaterMark, evs[..|evs| - 1]);
      if EventOk(s, evs[|evs| - 1]) then StepKeeps(s, evs[|evs| - 1]); Step(s, evs[|evs| - 1])
      else s
  }

  lemma NextState<T>(objectMode: bool, highWaterMark: nat, evs: seq<Event<T>>, ev: Event<T>)
    requires EventOk(After(objectMode, highWaterMark, evs), ev)
    ensures After(objectMode, highWaterMark, evs + [ev]) == Step(After(objectMode, highWaterMark, evs), ev)
  {
    assert (evs + [ev])[..|evs|] == evs;
  }

  /** A run in which the end is overlooked: the source is empty, and its end is pushed before the
      first listener of 'readable' comes. The stream was read, and 'end' is not under way. */
  lemma OverlookedRun()
    ensures var first: seq<Event<int>> := [Add(PushNull)];
      var s, r := After(false, 16, first), After(false, 16, first + [Listen([])]);
      && Overlooked(s, Listen([])) && Live(s.d.length, s.e)
      && r.e.ended && r.d.length == 0 && r.e.calledRead && !r.e.endEmitted && r.e.endTicks == 0
      && r.f.readableTicks + r.f.readables == 1
  {
    var none, first: seq<Event<int>> := [], [Add(PushNull)];
    NextState(false, 16, none, Add(PushNull));
    assert none + [Add(PushNull)] == first;
    NextState(false, 16, first, Listen([]));
  }

  /**
   On every run, whatever `_read` and the callers do: what was delivered and what is
   buffered is what was supplied, in order; the 'non-empty stream' error is never thrown;
   'end' is emitted at most once, and then everything was delivered.
   */
  lemma Conservation<T>(objectMode: bool, highWaterMark: nat, evs: seq<Event<T>>)
    ensures var s := After(objectMode, highWaterMark, evs);
      && s.d.delivered + Flatten(s.d.buffer) == s.d.supplied && s.d.length == |Flatten(s.d.buffer)|
      && !s.e.thrown && s.e.ends <= 1
      && (s.e.ends == 1 ==> s.d.delivered == s.d.supplied)
  {
    var s := After(objectMode, highWaterMark, evs);
    if s.e.ends == 1 {
      assert Flatten(s.d.buffer) == [];
      assert s.d.delivered + [] == s.d.delivered;
    }
  }

  // ---------------------------------------------------------------- what read(n) gives

  predicate NoUnshift<T>(acts: seq<Act<T>>) {
    forall k :: 0 <= k < |acts| ==> !acts[k].Unshift?
  }

  lemma {:induction false} AddAllBehind<T>(s: State<T>, acts: seq<Act<T>>)
    requires Sound(s) && ActsOk(s.objectMode, acts) && NoUnshift(acts)
    ensures Flatten(s.d.buffer) <= Flatten(AddAll(s, acts).d.buffer)
  {
    if acts != [] {
      var s1, a := AddAll(s, acts[..|acts| - 1]), acts[|acts| - 1];
      AddAllBehind(s, acts[..|acts| - 1]);
      if a.Push? {
        FlattenSnoc(s1.d.buffer, a.chunk);
      }
    }
  }

  lemma TakeOfLonger<T>(a: seq<T>, b: seq<T>, n: nat)
    requires a <= b && n <= |a|
    ensures a[..n] == b[..n]
  {}

  /** If that much is there, `read(n)` returns the first n items, also if `_read` pushes more. */
  lemma ReadGives<T>(n: nat, s: State<T>, acts: seq<Act<T>>)
    requires Sound(s) && ActsOk(s.objectMode, acts) && NoUnshift(acts) && !s.objectMode && 0 < n <= s.d.length
    ensures Read(Some(n), s, acts).1 == Some(Flatten(s.d.buffer)[..n])
  {
    var s1 := Called(Some(n), s);
    var s2 := s1.(f := Asked(Some(n), s1));
    assert HowMuch(Some(n), s1) == n;
    BeforeTakingKeeps(Some(n), s2, n, acts);
    var (s3, k3) := BeforeTaking(Some(n), s2, n, acts);
    if WantsRead(s2, n) {
      AddAllBehind(Reading(s2), acts);
      TakeOfLonger(Flatten(s.d.buffer), Flatten(s3.d.buffer), n);
    }
    TakeOutKeeps(s3, k3);
  }

  /** A stream that saw its end gives the rest, however much more is asked for. */
  lemma ReadRest<T>(n: nat, s: State<T>, acts: seq<Act<T>>)
    requires Sound(s) && s.e.ended && !s.objectMode && n > s.d.length > 0
    ensures Read(Some(n), s, acts).1 == Some(Flatten(s.d.buffer))
    ensures Read(Some(n), s, acts).0.d.buffer == [] && (s.e.endEmitted || Read(Some(n), s, acts).0.e.endTicks > 0)
  {
    var s1 := Called(Some(n), s);
    var s2 := s1.(f := Asked(Some(n), s1));
    TakeOutKeeps(s2, s.d.length);
    assert Flatten(s.d.buffer)[..s.d.length] == Flatten(s.d.buffer);
  }
}
