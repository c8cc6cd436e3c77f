/**
 What every run of a Writable stream keeps: order of the chunks, the accounting of
 `length` and `pendingcb`, and when 'finish' is emitted.

 Each operation moves buffered writes to the sink and callbacks to the tick queue. The
 lemmas `...Keeps` say that a few totals over all of these places never change.
 */
module WritableRuns {
  import opened Prelude
  import opened Writable

  // ---------------------------------------------------------------- totals

  function Sum(o: Options, reqs: seq<Req>): nat {
    if reqs == [] then 0 else ChunkLength(o, reqs[0].chunk) + Sum(o, reqs[1..])
  }

  lemma {:induction false} SumAppend(o: Options, a: seq<Req>, b: seq<Req>)
    ensures Sum(o, a + b) == Sum(o, a) + Sum(o, b)
  {
    if a == [] {
      assert a + b == b;
    } else {
      assert (a + b)[1..] == a[1..] + b;
      SumAppend(o, a[1..], b);
    }
  }

  /** How often the task will decrement `pendingcb`. */
  function Owed(t: Task): nat {
    if t == [] then 0 else (if t[0].Release? || t[0].Call? then 1 else 0) + Owed(t[1..])
  }

  /** The callbacks the task will call. */
  function Promised(t: Task): seq<nat> {
    if t == [] then [] else (if t[0].Call? then [t[0].cb] else []) + Promised(t[1..])
  }

  function OwedAll(ts: seq<Task>): nat {
    if ts == [] then 0 else Owed(ts[0]) + OwedAll(ts[1..])
  }

  function PromisedAll(ts: seq<Task>): seq<nat> {
    if ts == [] then [] else Promised(ts[0]) + PromisedAll(ts[1..])
  }

  lemma {:induction false} OwedAppend(a: Task, b: Task)
    ensures Owed(a + b) == Owed(a) + Owed(b)
  {
    if a == [] {
      assert a + b == b;
    } else {
      assert (a + b)[1..] == a[1..] + b;
      OwedAppend(a[1..], b);
    }
  }

  lemma {:induction false} PromisedAppend(a: Task, b: Task)
    ensures Promised(a + b) == Promised(a) + Promised(b)
  {
    if a == [] {
      assert a + b == b;
    } else {
      assert (a + b)[1..] == a[1..] + b;
      PromisedAppend(a[1..], b);
      assert (a + b)[0] == a[0];
    }
  }

  lemma {:induction false} OwedSnoc(ts: seq<Task>, t: Task)
    ensures OwedAll(ts + [t]) == OwedAll(ts) + Owed(t)
  {
    if ts == [] {
      assert [t][1..] == [];
      assert ts + [t] == [t];
    } else {
      assert (ts + [t])[1..] == ts[1..] + [t];
      OwedSnoc(ts[1..], t);
    }
  }

  lemma {:induction false} PromisedSnoc(ts: seq<Task>, t: Task)
    ensures PromisedAll(ts + [t]) == PromisedAll(ts) + Promised(t)
  {
    if ts == [] {
      assert [t][1..] == [];
      assert ts + [t] == [t];
    } else {
      assert (ts + [t])[1..] == ts[1..] + [t];
      PromisedSnoc(ts[1..], t);
      Assoc(Promised(ts[0]), PromisedAll(ts[1..]), Promised(t));
    }
  }

  lemma {:induction false} CallsTotals(cbs: seq<nat>)
    ensures Owed(Calls(cbs)) == |cbs| && Promised(Calls(cbs)) == cbs
  {
    if cbs != [] {
      assert Calls(cbs)[1..] == Calls(cbs[1..]);
      CallsTotals(cbs[1..]);
    }
  }

  function OwedBy(cb: WriteCb): nat {
    match cb case NoCb => 0 case One(_) => 1 case Batch(cs) => |cs| + 1
  }

  function PromisedBy(cb: WriteCb): seq<nat> {
    match cb case NoCb => [] case One(c) => [c] case Batch(cs) => cs
  }

  lemma SettleTotals(cb: WriteCb)
    ensures Owed(Settle(cb)) == OwedBy(cb) && Promised(Settle(cb)) == PromisedBy(cb)
  {
    match cb
    case NoCb =>
    case One(c) => assert [Call(c)][1..] == [];
    case Batch(cs) =>
      CallsTotals(cs);
      assert ([Release] + Calls(cs))[1..] == Calls(cs);
  }

  lemma AfterWriteTotals(finished: bool, cb: WriteCb)
    ensures Owed(AfterWrite(finished, cb)) == OwedBy(cb) && Promised(AfterWrite(finished, cb)) == PromisedBy(cb)
  {
    var head: Task := if finished then [] else [Drain];
    assert [Drain][1..] == [] && [Finish][1..] == [];
    SettleTotals(cb);
    OwedAppend(head + Settle(cb), [Finish]);
    OwedAppend(head, Settle(cb));
    PromisedAppend(head + Settle(cb), [Finish]);
    PromisedAppend(head, Settle(cb));
  }

  /** What the completion of an underlying write schedules. */
  function TaskFor(s1: State, ok: bool, cb: WriteCb): Task {
    if ok then AfterWrite(NeedFinish(s1), cb) else Settle(cb)
  }

  lemma TaskForTotals(s1: State, ok: bool, cb: WriteCb)
    ensures Owed(TaskFor(s1, ok, cb)) == OwedBy(cb) && Promised(TaskFor(s1, ok, cb)) == PromisedBy(cb)
  {
    SettleTotals(cb);
    AfterWriteTotals(NeedFinish(s1), cb);
  }

  /** Every task that settles a write ends by checking for the end of the stream. */
  predicate Concludes(t: Task) {
    Owed(t) > 0 ==> t[|t| - 1] == Finish
  }

  predicate AllConclude(ts: seq<Task>) {
    forall i :: 0 <= i < |ts| ==> Concludes(ts[i])
  }

  ghost predicate NoFailures(o: Options) {
    forall k :: o.sink(k) != Now(false)
  }

  predicate Shape(s: State) {
    if s.writing then !s.writecb.NoCb? else s.writecb.NoCb? && s.writelen == 0
  }

  // ---------------------------------------------------------------- one underlying write

  /** `doWrite` when its completion cannot process the buffer. */
  function Written(o: Options, s: State, len: nat, chunks: seq<Chunk>, cb: WriteCb): State {
    var b := BeginWrite(s, len, chunks, cb);
    match o.sink(s.world.writes)
    case Later => b.(sync := false)
    case Now(ok) =>
      var s1 := StateUpdate(b);
      s1.(sync := false, world := Schedule(s1.world, true, TaskFor(s1, ok, cb)))
  }

  lemma OnWriteNested(o: Options, s: State, ok: bool)
    requires s.bufferProcessing || s.buffer == []
    ensures OnWrite(o, s, ok)
         == var s1 := StateUpdate(s); s1.(world := Schedule(s1.world, s.sync, TaskFor(s1, ok, s.writecb)))
  {
    assert !MayClear(StateUpdate(s));
  }

  lemma DoWriteIsWritten(o: Options, s: State, len: nat, chunks: seq<Chunk>, cb: WriteCb)
    requires s.bufferProcessing || s.buffer == []
    ensures DoWrite(o, s, len, chunks, cb) == Written(o, s, len, chunks, cb)
  {
    match o.sink(s.world.writes)
    case Later =>
    case Now(ok) => OnWriteNested(o, BeginWrite(s, len, chunks, cb), ok);
  }

  /** The parts of the state an underlying write does not touch. */
  predicate SameFrame(s: State, r: State) {
    && r.corked == s.corked && r.ending == s.ending && r.ended == s.ended && r.finished == s.finished
    && r.bufferProcessing == s.bufferProcessing && r.world.running == s.world.running
    && r.world.accepted == s.world.accepted && r.world.called == s.world.called && r.world.finishes == s.world.finishes
  }

  /** The difference between what was counted and what is still to be counted down. */
  function Balance(s: State): int {
    s.pendingcb - OwedBy(s.writecb) - OwedAll(s.world.ticks)
  }

  function Outstanding(s: State): int {
    s.world.writes - s.world.completions - if s.writing then 1 else 0
  }

  /** The callbacks behind those of the running tasks: due on a later tick, or outstanding. */
  function Coming(s: State): seq<nat> {
    PromisedAll(s.world.ticks) + PromisedBy(s.writecb)
  }

  lemma WrittenCounts(o: Options, s: State, len: nat, chunks: seq<Chunk>, cb: WriteCb)
    requires Shape(s) && !s.writing && !cb.NoCb?
    ensures var r := Written(o, s, len, chunks, cb);
      && Shape(r) && !r.sync && SameFrame(s, r) && r.buffer == s.buffer && r.pendingcb == s.pendingcb
      && r.length - r.writelen == s.length - len
      && r.world.written == s.world.written + chunks
      && Outstanding(r) == Outstanding(s)
      && Balance(r) == Balance(s) - OwedBy(cb)
  {
    var b := BeginWrite(s, len, chunks, cb);
    match o.sink(s.world.writes)
    case Later =>
    case Now(ok) =>
      TaskForTotals(StateUpdate(b), ok, cb);
      OwedSnoc(s.world.ticks, TaskFor(StateUpdate(b), ok, cb));
  }

  lemma WrittenComing(o: Options, s: State, len: nat, chunks: seq<Chunk>, cb: WriteCb)
    requires Shape(s) && !s.writing
    ensures Coming(Written(o, s, len, chunks, cb)) == Coming(s) + PromisedBy(cb)
  {
    var b := BeginWrite(s, len, chunks, cb);
    match o.sink(s.world.writes)
    case Later =>
    case Now(ok) =>
      TickOnly(StateUpdate(b).world, TaskFor(StateUpdate(b), ok, cb));
      TaskForTotals(StateUpdate(b), ok, cb);
      PromisedSnoc(s.world.ticks, TaskFor(StateUpdate(b), ok, cb));
  }

  lemma TickOnly(w: World, task: Task)
    ensures Schedule(w, true, task) == w.(ticks := w.ticks + [task])
  {}

  lemma WrittenConcludes(o: Options, s: State, len: nat, chunks: seq<Chunk>, cb: WriteCb)
    requires NoFailures(o) && AllConclude(s.world.ticks)
    ensures AllConclude(Written(o, s, len, chunks, cb).world.ticks)
  {
    var s1 := StateUpdate(BeginWrite(s, len, chunks, cb));
    AppendConcludes(s.world.ticks, AfterWrite(NeedFinish(s1), cb));
    assert o.sink(s.world.writes) != Now(false);
  }

  lemma AppendConcludes(ts: seq<Task>, t: Task)
    requires AllConclude(ts) && Concludes(t)
    ensures AllConclude(ts + [t])
  {}

  // ---------------------------------------------------------------- processing the buffer

  /** What `clearBuffer` does to `rest`, the writes it still has to hand on. */
  ghost predicate Cleared(o: Options, s: State, rest: seq<Req>, r: State) {
    && Shape(r) && SameFrame(s, r) && (r.sync ==> s.sync && rest == [])
    && (r.writing || r.buffer == [])
    && r.length - r.writelen - Sum(o, r.buffer) == s.length - Sum(o, rest)
    && r.world.written + ChunksOf(r.buffer) == s.world.written + ChunksOf(rest)
    && Outstanding(r) == Outstanding(s)
    && Balance(r) - |r.buffer| == Balance(s) - |rest| && r.pendingcb >= s.pendingcb
    && Coming(r) + CallbacksOf(r.buffer) == Coming(s) + CallbacksOf(rest)
  }

  lemma TakeFirst(reqs: seq<Req>)
    requires reqs != []
    ensures ChunksOf(reqs) == [reqs[0].chunk] + ChunksOf(reqs[1..])
    ensures CallbacksOf(reqs) == [reqs[0].cb] + CallbacksOf(reqs[1..])
  {}

  lemma {:induction false} ClearLoopClears(o: Options, s: State, c: nat)
    requires Shape(s) && !s.writing && s.bufferProcessing && c <= |s.buffer|
    ensures Cleared(o, s, s.buffer[c..], ClearLoop(o, s, c))
    decreases |s.buffer| - c
  {
    if c < |s.buffer| {
      var entry, rest := s.buffer[c], s.buffer[c + 1..];
      assert s.buffer[c..][1..] == rest;
      TakeFirst(s.buffer[c..]);
      var len := ChunkLength(o, entry.chunk);
      DoWriteIsWritten(o, s, len, [entry.chunk], One(entry.cb));
      var s1 := Written(o, s, len, [entry.chunk], One(entry.cb));
      WrittenCounts(o, s, len, [entry.chunk], One(entry.cb));
      WrittenComing(o, s, len, [entry.chunk], One(entry.cb));
      if s1.writing {
        StopClears(o, s, s.buffer[c..], s1, s1.(buffer := rest));
      } else {
        ClearLoopClears(o, s1, c + 1);
        StopClears(o, s, s.buffer[c..], s1, ClearLoop(o, s1, c + 1));
      }
    }
  }

  /** Handing on the first of `all` and then clearing the others clears `all`. */
  lemma StopClears(o: Options, s: State, all: seq<Req>, s1: State, r: State)
    requires all != [] && Shape(s) && !s.writing
    requires var cb := One(all[0].cb); var len := ChunkLength(o, all[0].chunk);
      && SameFrame(s, s1) && s1.pendingcb == s.pendingcb && s1.length - s1.writelen == s.length - len
      && s1.world.written == s.world.written + [all[0].chunk]
      && Outstanding(s1) == Outstanding(s) && Balance(s1) == Balance(s) - 1
      && Coming(s1) == Coming(s) + [all[0].cb]
    requires !s1.sync
    requires if s1.writing then Shape(s1) && r == s1.(buffer := all[1..])
             else s1.writelen == 0 && Cleared(o, s1, all[1..], r)
    ensures Cleared(o, s, all, r)
  {
    TakeFirst(all);
    Assoc(s.world.written, [all[0].chunk], ChunksOf(all[1..]));
    Assoc(Coming(s), [all[0].cb], CallbacksOf(all[1..]));
  }

  lemma BatchClears(o: Options, s: State)
    requires Shape(s) && !s.writing && s.bufferProcessing && s.length == Sum(o, s.buffer)
    ensures Cleared(o, s, s.buffer, WriteBatch(o, s))
  {
    var cb := Batch(CallbacksOf(s.buffer));
    var s1 := s.(pendingcb := s.pendingcb + 1);
    DoWriteIsWritten(o, s1, s.length, ChunksOf(s.buffer), cb);
    WrittenCounts(o, s1, s.length, ChunksOf(s.buffer), cb);
    WrittenComing(o, s1, s.length, ChunksOf(s.buffer), cb);
    BatchStops(o, s, Written(o, s1, s.length, ChunksOf(s.buffer), cb));
  }

  /** Handing on everything at once clears everything. */
  lemma BatchStops(o: Options, s: State, w: State)
    requires !s.writing && SameFrame(s, w) && Shape(w) && !w.sync && w.pendingcb == s.pendingcb + 1
    requires w.length - w.writelen == s.length - Sum(o, s.buffer)
    requires w.world.written == s.world.written + ChunksOf(s.buffer) && Outstanding(w) == Outstanding(s)
    requires Balance(w) == Balance(s) - |s.buffer| && Coming(w) == Coming(s) + CallbacksOf(s.buffer)
    ensures Cleared(o, s, s.buffer, w.(buffer := []))
  {
    assert w.world.written + ChunksOf([]) == w.world.written;
    assert Coming(w) + CallbacksOf([]) == Coming(w);
  }

  /** The mark that the buffer is being processed is not seen outside. */
  lemma Bracketed(o: Options, s: State, rest: seq<Req>, r: State)
    requires !s.bufferProcessing && Cleared(o, s.(bufferProcessing := true), rest, r)
    ensures Cleared(o, s, rest, r.(bufferProcessing := false))
  {}

  lemma ClearBufferClears(o: Options, s: State)
    requires Shape(s) && !s.writing && !s.bufferProcessing && s.buffer != []
    requires s.length == Sum(o, s.buffer)
    ensures Cleared(o, s, s.buffer, ClearBuffer(o, s))
  {
    var s1 := s.(bufferProcessing := true);
    assert s.buffer[0..] == s.buffer;
    if o.hasWritev && |s.buffer| > 1 {
      BatchClears(o, s1);
      Bracketed(o, s, s.buffer, WriteBatch(o, s1));
    } else {
      ClearLoopClears(o, s1, 0);
      Bracketed(o, s, s.buffer, ClearLoop(o, s1, 0));
    }
  }

  lemma {:induction false} ClearLoopConcludes(o: Options, s: State, c: nat)
    requires s.bufferProcessing && c <= |s.buffer|
    requires NoFailures(o) && AllConclude(s.world.ticks)
    ensures AllConclude(ClearLoop(o, s, c).world.ticks)
    decreases |s.buffer| - c
  {
    if c < |s.buffer| {
      var entry := s.buffer[c];
      var len := ChunkLength(o, entry.chunk);
      DoWriteIsWritten(o, s, len, [entry.chunk], One(entry.cb));
      WrittenConcludes(o, s, len, [entry.chunk], One(entry.cb));
      var s1 := DoWrite(o, s, len, [entry.chunk], One(entry.cb));
      if !s1.writing {
        ClearLoopConcludes(o, s1, c + 1);
      }
    }
  }

  lemma ClearBufferConcludes(o: Options, s: State)
    requires !s.bufferProcessing && s.buffer != []
    requires NoFailures(o) && AllConclude(s.world.ticks)
    ensures AllConclude(ClearBuffer(o, s).world.ticks)
  {
    var s1 := s.(bufferProcessing := true);
    if o.hasWritev && |s.buffer| > 1 {
      var s2 := s1.(pendingcb := s.pendingcb + 1);
      var len := if s.length < 0 then 0 else s.length;
      DoWriteIsWritten(o, s2, len, ChunksOf(s.buffer), Batch(CallbacksOf(s.buffer)));
      WrittenConcludes(o, s2, len, ChunksOf(s.buffer), Batch(CallbacksOf(s.buffer)));
    } else {
      ClearLoopConcludes(o, s1, 0);
    }
  }
}
