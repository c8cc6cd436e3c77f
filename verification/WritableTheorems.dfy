/**
 Runs of a Writable stream: any sequence of `write`, `cork`, `uncork` and `end` calls,
 completions of underlying writes, ticks, and pieces of tasks, in any interleaving.
 */
module WritableTheorems {
  import opened Prelude
  import opened Writable
  import opened WritableRuns

  datatype Event =
    | WriteCall(req: Req)
    | CorkCall
    | UncorkCall
    | EndCall(last: Option<Req>)
    | Completion(ok: bool)   // of the outstanding underlying write
    | PieceEvent             // the next piece of the innermost running task
    | TickEvent              // the next nextTick task starts

  predicate Possible(s: State, e: Event) {
    match e
    case Completion(_) => s.writing
    case PieceEvent => s.world.running != []
    case TickEvent => s.world.running == [] && s.world.ticks != []
    case _ => true
  }

  /** And a completion fails only where `onwriteError` leaves nothing behind. */
  predicate Allowed(s: State, e: Event) {
    Possible(s, e) && (e == Completion(false) ==> s.corked != 0 || s.buffer == [])
  }

  function Step(o: Options, s: State, e: Event): State
    requires Possible(s, e)
  {
    match e
    case WriteCall(req) => Write(o, s, req)
    case CorkCall => Cork(s)
    case UncorkCall => Uncork(o, s)
    case EndCall(last) => End(o, s, last)
    case Completion(ok) => OnWrite(o, s, ok)
    case PieceEvent => RunPiece(s)
    case TickEvent => Tick(s)
  }

  /** The state after the events, if each was allowed where it happened. */
  function After(o: Options, es: seq<Event>): Option<State> {
    if es == [] then Some(INITIAL)
    else
      match After(o, es[..|es| - 1])
      case None => None
      case Some(s) => if Allowed(s, es[|es| - 1]) then Some(Step(o, s, es[|es| - 1])) else None
  }

  // ---------------------------------------------------------------- the invariant

  /** `held` is the callback taken from the state but not yet scheduled. */
  ghost predicate Sound(o: Options, s: State, held: WriteCb) {
    && Shape(s) && !s.bufferProcessing && (s.writing ==> !s.sync) && s.ending == s.ended
    && s.length - s.writelen == Sum(o, s.buffer)
    && s.writelen >= 0
    && Balance(s) == |s.buffer| + OwedAll(s.world.running) + OwedBy(held)
    && Outstanding(s) == 0
    && s.world.finishes == (if s.finished then 1 else 0)
    && (s.finished ==> s.ended && s.pendingcb == 0 && s.length == 0 && !s.writing)
  }

  /** Chunks are left in the buffer of a stream that is neither writing nor corked. */
  predicate Stranded(s: State) {
    !s.writing && s.corked == 0 && s.buffer != []
  }

  /** An idle, uncorked stream has nothing buffered, or only empty chunks after `end`. */
  predicate Tidy(s: State) {
    Stranded(s) ==> s.ended && s.length == 0
  }

  /** What the sink was given, and then what is buffered. */
  function ChunkLine(s: State): seq<Chunk> {
    s.world.written + ChunksOf(s.buffer)
  }

  /** That is what was accepted, in order. */
  predicate InLine(s: State) {
    ChunkLine(s) == ChunksOf(s.world.accepted)
  }

  ghost predicate Inv(o: Options, s: State) {
    Sound(o, s, NoCb) && Tidy(s) && InLine(s)
  }

  /** Nothing was accepted, dropped or moved. */
  predicate SameLine(s: State, r: State) {
    ChunkLine(r) == ChunkLine(s) && r.world.accepted == s.world.accepted
  }

  lemma ClearKeeps(o: Options, s: State, held: WriteCb)
    requires Sound(o, s, held) && !s.writing && !s.finished && s.buffer != []
    ensures var r := ClearBuffer(o, s);
      && Sound(o, r, held) && (r.writing || r.buffer == []) && SameFrame(s, r) && r.pendingcb >= s.pendingcb
      && SameLine(s, r)
  {
    ClearBufferClears(o, s);
    ClearLength(o, s);
  }

  lemma ClearLength(o: Options, s: State)
    requires !s.writing && Shape(s) && !s.bufferProcessing && s.buffer != [] && s.length == Sum(o, s.buffer)
    ensures ClearBuffer(o, s).writelen >= 0
  {
    var s1 := s.(bufferProcessing := true);
    if o.hasWritev && |s.buffer| > 1 {
      var cb := Batch(CallbacksOf(s.buffer));
      DoWriteIsWritten(o, s1.(pendingcb := s.pendingcb + 1), s.length, ChunksOf(s.buffer), cb);
    } else {
      LoopLength(o, s1, 0);
    }
  }

  lemma {:induction false} LoopLength(o: Options, s: State, c: nat)
    requires s.bufferProcessing && c <= |s.buffer| && s.writelen >= 0
    ensures ClearLoop(o, s, c).writelen >= 0
    decreases |s.buffer| - c
  {
    if c < |s.buffer| {
      var entry := s.buffer[c];
      var len := ChunkLength(o, entry.chunk);
      DoWriteIsWritten(o, s, len, [entry.chunk], One(entry.cb));
      var s1 := DoWrite(o, s, len, [entry.chunk], One(entry.cb));
      if !s1.writing {
        LoopLength(o, s1, c + 1);
      }
    }
  }

  // ---------------------------------------------------------------- completions

  lemma UpdateHolds(o: Options, s: State)
    requires Sound(o, s, NoCb) && s.writing
    ensures Sound(o, StateUpdate(s), s.writecb)
  {}

  lemma ScheduleReleases(o: Options, s: State, held: WriteCb, task: Task)
    requires Sound(o, s, held) && Owed(task) == OwedBy(held)
    ensures Sound(o, s.(world := Schedule(s.world, false, task)), NoCb)
  {
    assert ([task] + s.world.running)[1..] == s.world.running;
  }

  lemma TickReleases(o: Options, s: State, held: WriteCb, task: Task)
    requires Sound(o, s, held) && Owed(task) == OwedBy(held)
    ensures Sound(o, s.(sync := false, world := Schedule(s.world, true, task)), NoCb)
  {
    OwedSnoc(s.world.ticks, task);
  }

  /** Does `onwrite` go on to process the buffer? */
  predicate Clears(s1: State, ok: bool) {
    ok && MayClear(s1) && !NeedFinish(s1)
  }

  lemma OnWriteForm(o: Options, s: State, ok: bool)
    requires !s.sync
    ensures var s1 := StateUpdate(s);
      var s2 := if Clears(s1, ok) then ClearBuffer(o, s1) else s1;
      OnWrite(o, s, ok) == s2.(world := Schedule(s2.world, false, TaskFor(s1, ok, s.writecb)))
  {}

  /** A completion keeps the accounting. It keeps the stream tidy if and only if it succeeds,
      or finds the stream corked, nothing buffered, or only empty chunks after `end`. */
  lemma CompletionKeeps(o: Options, s: State, ok: bool)
    requires Sound(o, s, NoCb) && s.writing
    ensures Sound(o, OnWrite(o, s, ok), NoCb) && SameLine(s, OnWrite(o, s, ok))
    ensures Tidy(OnWrite(o, s, ok)) <==> ok || s.corked != 0 || s.buffer == [] || (s.ended && Sum(o, s.buffer) == 0)
    ensures OnWrite(o, s, ok).pendingcb >= s.pendingcb
  {
    var s1 := StateUpdate(s);
    UpdateHolds(o, s);
    OnWriteForm(o, s, ok);
    TaskForTotals(s1, ok, s.writecb);
    if Clears(s1, ok) {
      ClearKeeps(o, s1, s.writecb);
      ScheduleReleases(o, ClearBuffer(o, s1), s.writecb, TaskFor(s1, ok, s.writecb));
    } else {
      ScheduleReleases(o, s1, s.writecb, TaskFor(s1, ok, s.writecb));
    }
  }

  // ---------------------------------------------------------------- calls

  lemma SumSnoc(o: Options, reqs: seq<Req>, req: Req)
    ensures Sum(o, reqs + [req]) == Sum(o, reqs) + ChunkLength(o, req.chunk)
  {
    SumAppend(o, reqs, [req]);
    assert [req][1..] == [];
    assert Sum(o, [req]) == ChunkLength(o, req.chunk);
  }

  lemma SnocOf(reqs: seq<Req>, req: Req)
    ensures ChunksOf(reqs + [req]) == ChunksOf(reqs) + [req.chunk]
    ensures CallbacksOf(reqs + [req]) == CallbacksOf(reqs) + [req.cb]
  {}

  /** The state in which `writeOrBuffer` decides. */
  function Counted(o: Options, s: State, req: Req): State {
    var len := ChunkLength(o, req.chunk);
    s.(pendingcb := s.pendingcb + 1, world := s.world.(accepted := s.world.accepted + [req]),
       length := s.length + len, needDrain := s.length + len >= o.highWaterMark)
  }

  lemma WriteForm(o: Options, s: State, req: Req)
    requires !s.ended && (s.writing || s.corked != 0 || s.bufferProcessing || s.buffer == [])
    ensures var s1 := Counted(o, s, req);
      Write(o, s, req) == if s.writing || s.corked != 0 then s1.(buffer := s.buffer + [req])
                          else Written(o, s1, ChunkLength(o, req.chunk), [req.chunk], One(req.cb))
  {
    if !s.writing && s.corked == 0 {
      DoWriteIsWritten(o, Counted(o, s, req), ChunkLength(o, req.chunk), [req.chunk], One(req.cb));
    }
  }

  lemma RefusedTotals(s: State, cb: nat)
    ensures OwedAll(s.world.ticks + [[Refuse(cb)]]) == OwedAll(s.world.ticks)
    ensures PromisedAll(s.world.ticks + [[Refuse(cb)]]) == PromisedAll(s.world.ticks)
  {
    var task := [Refuse(cb)];
    assert task[1..] == [];
    OwedSnoc(s.world.ticks, task);
    PromisedSnoc(s.world.ticks, task);
    assert Promised(task) == [] && Owed(task) == 0;
  }

  /** The line with a new chunk: at its end, or in front of a stranded buffer. */
  function Placed(s: State, chunk: Chunk): seq<Chunk> {
    if Stranded(s) then s.world.written + [chunk] + ChunksOf(s.buffer) else ChunkLine(s) + [chunk]
  }

  /** What `write` does to the line. */
  predicate Accepts(s: State, req: Req, r: State) {
    if s.ended then SameLine(s, r)
    else r.world.accepted == s.world.accepted + [req] && ChunkLine(r) == Placed(s, req.chunk)
  }

  lemma WriteSound(o: Options, s: State, req: Req)
    requires Sound(o, s, NoCb)
    ensures var r := Write(o, s, req);
      Sound(o, r, NoCb) && r.ended == s.ended && Accepts(s, req, r) && (Tidy(s) ==> Tidy(r))
  {
    if s.ended {
      RefusedTotals(s, req.cb);
    } else if Stranded(s) {
      StrandedSound(o, s, req);
    } else {
      WriteForm(o, s, req);
      if s.writing || s.corked != 0 {
        BufferedSound(o, s, req);
      } else {
        DirectSound(o, s, req);
      }
    }
  }

  lemma WriteKeeps(o: Options, s: State, req: Req)
    requires Inv(o, s)
    ensures Inv(o, Write(o, s, req)) && Write(o, s, req).ended == s.ended
  {
    WriteSound(o, s, req);
    SnocOf(s.world.accepted, req);
  }

  lemma BufferedSound(o: Options, s: State, req: Req)
    requires Sound(o, s, NoCb) && !s.ended && (s.writing || s.corked != 0)
    ensures var r := Counted(o, s, req).(buffer := s.buffer + [req]);
      Sound(o, r, NoCb) && Accepts(s, req, r) && Tidy(r)
  {
    SnocOf(s.buffer, req);
    SumSnoc(o, s.buffer, req);
  }

  lemma DirectSound(o: Options, s: State, req: Req)
    requires Sound(o, s, NoCb) && !s.ended && !s.writing && s.buffer == []
    ensures var r := Written(o, Counted(o, s, req), ChunkLength(o, req.chunk), [req.chunk], One(req.cb));
      Sound(o, r, NoCb) && Accepts(s, req, r) && Tidy(r) && r.ended == s.ended
  {
    WrittenCounts(o, Counted(o, s, req), ChunkLength(o, req.chunk), [req.chunk], One(req.cb));
    assert ChunksOf([]) == [];
  }

  /** The state in which the sink is entered, and in which it has completed. */
  lemma BegunSound(o: Options, s: State, req: Req)
    requires Sound(o, s, NoCb) && !s.ended && Stranded(s)
    ensures var b := BeginWrite(Counted(o, s, req), ChunkLength(o, req.chunk), [req.chunk], One(req.cb));
      && Sound(o, b.(sync := false), NoCb) && Sound(o, StateUpdate(b), One(req.cb))
      && ChunkLine(b) == Placed(s, req.chunk) && !NeedFinish(StateUpdate(b)) && MayClear(StateUpdate(b))
  {}

  /** The sink completes before `_write` returns, and the stranded buffer is processed, if it succeeds. */
  lemma StrandedCompletes(o: Options, s: State, req: Req, ok: bool)
    requires Sound(o, s, NoCb) && !s.ended && Stranded(s)
    ensures var b := BeginWrite(Counted(o, s, req), ChunkLength(o, req.chunk), [req.chunk], One(req.cb));
      var r := OnWrite(o, b, ok).(sync := false);
      Sound(o, r, NoCb) && SameLine(b, r) && r.ended == s.ended
  {
    var b := BeginWrite(Counted(o, s, req), ChunkLength(o, req.chunk), [req.chunk], One(req.cb));
    var s1 := StateUpdate(b);
    BegunSound(o, s, req);
    TaskForTotals(s1, ok, One(req.cb));
    if ok {
      ClearKeeps(o, s1, One(req.cb));
      TickReleases(o, ClearBuffer(o, s1), One(req.cb), TaskFor(s1, ok, One(req.cb)));
    } else {
      TickReleases(o, s1, One(req.cb), TaskFor(s1, ok, One(req.cb)));
    }
  }

  lemma StrandedSound(o: Options, s: State, req: Req)
    requires Sound(o, s, NoCb) && !s.ended && Stranded(s)
    ensures var r := Write(o, s, req); Sound(o, r, NoCb) && Accepts(s, req, r) && r.ended == s.ended
  {
    BegunSound(o, s, req);
    match o.sink(s.world.writes) {
      case Later =>
      case Now(ok) => StrandedCompletes(o, s, req, ok);
    }
  }

  lemma FinishedEmpty(o: Options, s: State)
    requires Sound(o, s, NoCb) && s.finished
    ensures s.buffer == [] && OwedAll(s.world.ticks) == 0 && OwedAll(s.world.running) == 0
  {}

  lemma UncorkSound(o: Options, s: State)
    requires Sound(o, s, NoCb)
    ensures var r := Uncork(o, s);
      Sound(o, r, NoCb) && SameLine(s, r) && (Tidy(s) ==> Tidy(r)) && r.ended == s.ended && r.pendingcb >= s.pendingcb
  {
    if s.corked != 0 {
      var s1 := s.(corked := s.corked - 1);
      if s.finished {
        FinishedEmpty(o, s);
      }
      if MayClear(s1) && !s1.writing && !s1.finished {
        ClearKeeps(o, s1, NoCb);
      }
    }
  }

  lemma UncorkKeeps(o: Options, s: State)
    requires Inv(o, s)
    ensures Inv(o, Uncork(o, s)) && Uncork(o, s).ended == s.ended && Uncork(o, s).pendingcb >= s.pendingcb
  {
    UncorkSound(o, s);
  }

  lemma FinishMaybeSound(o: Options, s: State)
    requires Sound(o, s, NoCb)
    ensures var r := FinishMaybe(s); Sound(o, r, NoCb) && SameLine(s, r) && (Tidy(s) ==> Tidy(r))
  {}

  lemma EndWritableSound(o: Options, s: State)
    requires Sound(o, s, NoCb) && !s.ending && !s.finished
    ensures var r := EndWritable(s); Sound(o, r, NoCb) && SameLine(s, r) && (Tidy(s) ==> Tidy(r)) && r.ended
  {
    FinishMaybeSound(o, s.(ending := true, ended := true));
  }

  /** What `end` with data does to the line is what `write` does. */
  predicate AcceptsLast(s: State, last: Option<Req>, r: State) {
    match last case None => SameLine(s, r) case Some(req) => Accepts(s, req, r)
  }

  lemma EndSound(o: Options, s: State, last: Option<Req>)
    requires Sound(o, s, NoCb)
    ensures var r := End(o, s, last);
      Sound(o, r, NoCb) && AcceptsLast(s, last, r) && (Tidy(s) ==> Tidy(r)) && r.ended
  {
    if last.Some? {
      WriteSound(o, s, last.value);
    }
    var s1 := WriteLast(o, s, last);
    FullyUncorkSound(o, s1);
    var s2 := FullyUncork(o, s1);
    if !s2.ending && !s2.finished {
      EndWritableSound(o, s2);
    }
  }

  lemma EndKeeps(o: Options, s: State, last: Option<Req>)
    requires Inv(o, s)
    ensures Inv(o, End(o, s, last)) && End(o, s, last).ended
  {
    EndSound(o, s, last);
    if last.Some? {
      SnocOf(s.world.accepted, last.value);
    }
  }

  lemma FullyUncorkSound(o: Options, s: State)
    requires Sound(o, s, NoCb)
    ensures var r := FullyUncork(o, s);
      Sound(o, r, NoCb) && SameLine(s, r) && (Tidy(s) ==> Tidy(r)) && r.ended == s.ended
  {
    if s.corked != 0 {
      UncorkSound(o, s.(corked := 1));
    }
  }

  lemma FullyUncorkKeeps(o: Options, s: State)
    requires Inv(o, s)
    ensures Inv(o, FullyUncork(o, s)) && FullyUncork(o, s).ended == s.ended
  {
    FullyUncorkSound(o, s);
  }

  // ---------------------------------------------------------------- tasks

  lemma ConsTotals(t: Task, ts: seq<Task>)
    ensures OwedAll([t] + ts) == Owed(t) + OwedAll(ts)
    ensures PromisedAll([t] + ts) == Promised(t) + PromisedAll(ts)
  {
    assert ([t] + ts)[1..] == ts;
  }

  /** What taking one piece off a task list takes off its totals. */
  lemma TakePiece(p: Piece, t: Task, ts: seq<Task>)
    ensures OwedAll([[p] + t] + ts) == OwedAll([t] + ts) + (if p.Call? || p.Release? then 1 else 0)
    ensures PromisedAll([[p] + t] + ts) == (if p.Call? then [p.cb] else []) + PromisedAll([t] + ts)
  {
    ConsTotals([p] + t, ts);
    ConsTotals(t, ts);
    assert ([p] + t)[1..] == t;
  }

  lemma TakenTotals(s: State)
    requires s.world.running != [] && s.world.running[0] != []
    ensures var p := s.world.running[0][0];
      && OwedAll(s.world.running) == OwedAll(Taken(s).world.running) + (if p.Call? || p.Release? then 1 else 0)
      && PromisedAll(s.world.running) == (if p.Call? then [p.cb] else []) + PromisedAll(Taken(s).world.running)
  {
    var task := s.world.running[0];
    assert task == [task[0]] + task[1..];
    assert s.world.running == [task] + s.world.running[1..];
    TakePiece(task[0], task[1..], s.world.running[1..]);
  }

  lemma PieceSound(o: Options, s: State)
    requires Sound(o, s, NoCb) && s.world.running != []
    ensures var r := RunPiece(s); Sound(o, r, NoCb) && SameLine(s, r) && (Tidy(s) ==> Tidy(r))
  {
    var task := s.world.running[0];
    if task == [] {
      EmptyTaskSound(o, s);
    } else if task[0] == Finish {
      TakenTotals(s);
      FinishMaybeSound(o, Taken(s));
      FinishPiece(s);
    } else {
      OtherPieceSound(o, s);
    }
  }

  lemma EmptyTaskSound(o: Options, s: State)
    requires Sound(o, s, NoCb) && s.world.running != [] && s.world.running[0] == []
    ensures var r := RunPiece(s); Sound(o, r, NoCb) && SameLine(s, r) && (Tidy(s) ==> Tidy(r))
  {}

  lemma OtherPieceSound(o: Options, s: State)
    requires Sound(o, s, NoCb) && s.world.running != [] && s.world.running[0] != [] && s.world.running[0][0] != Finish
    ensures var r := RunPiece(s); Sound(o, r, NoCb) && SameLine(s, r) && (Tidy(s) ==> Tidy(r))
  {
    TakenTotals(s);
    PieceForm(s);
  }

  lemma PieceKeeps(o: Options, s: State)
    requires Inv(o, s) && s.world.running != []
    ensures Inv(o, RunPiece(s))
  {
    PieceSound(o, s);
  }

  lemma FinishPiece(s: State)
    requires s.world.running != [] && s.world.running[0] != [] && s.world.running[0][0] == Finish
    ensures RunPiece(s) == FinishMaybe(Taken(s))
  {}

  lemma PieceForm(s: State)
    requires s.world.running != [] && s.world.running[0] != [] && s.world.running[0][0] != Finish
    ensures var p := s.world.running[0][0]; var t := Taken(s); var r := RunPiece(s);
      r == t.(needDrain := r.needDrain, pendingcb := if p.Call? || p.Release? then s.pendingcb - 1 else s.pendingcb,
              world := t.world.(called := if p.Call? then s.world.called + [p.cb] else s.world.called,
                                drains := r.world.drains))
  {
    PerformForm(Taken(s), s.world.running[0][0]);
  }

  lemma FinishPerformed(s: State)
    ensures var r := Perform(s, Finish);
      r == s.(finished := r.finished, prefinished := r.prefinished, world := s.world.(finishes := r.world.finishes))
  {}

  lemma PerformForm(s: State, p: Piece)
    requires p != Finish
    ensures var r := Perform(s, p);
      r == s.(needDrain := r.needDrain, pendingcb := if p.Call? || p.Release? then s.pendingcb - 1 else s.pendingcb,
              world := s.world.(called := if p.Call? then s.world.called + [p.cb] else s.world.called,
                                drains := r.world.drains))
  {}

  /** What no piece touches. */
  predicate SameBut(s: State, r: State) {
    r == s.(needDrain := r.needDrain, pendingcb := r.pendingcb, finished := r.finished, prefinished := r.prefinished,
            world := s.world.(called := r.world.called, drains := r.world.drains, finishes := r.world.finishes))
  }

  lemma PerformOnly(s: State, p: Piece)
    ensures SameBut(s, Perform(s, p))
  {
    if p == Finish {
      FinishPerformed(s);
    } else {
      PerformForm(s, p);
    }
  }

  lemma PieceOnly(s: State)
    requires s.world.running != []
    ensures SameBut(Taken(s), RunPiece(s))
  {
    if s.world.running[0] != [] {
      PerformOnly(Taken(s), s.world.running[0][0]);
    }
  }

  lemma TickSound(o: Options, s: State)
    requires Sound(o, s, NoCb) && s.world.running == [] && s.world.ticks != []
    ensures Sound(o, Tick(s), NoCb) && SameLine(s, Tick(s)) && (Tidy(s) ==> Tidy(Tick(s)))
  {
    assert Tick(s).world.running[1..] == [];
  }

  lemma CompletionAllowed(o: Options, s: State, ok: bool)
    requires Inv(o, s) && Allowed(s, Completion(ok))
    ensures Inv(o, OnWrite(o, s, ok))
  {
    CompletionKeeps(o, s, ok);
  }

  /** Every event keeps the invariant. */
  lemma StepKeeps(o: Options, s: State, e: Event)
    requires Inv(o, s) && Allowed(s, e)
    ensures Inv(o, Step(o, s, e))
  {
    match e
    case WriteCall(req) => WriteKeeps(o, s, req);
    case CorkCall =>
    case UncorkCall => UncorkKeeps(o, s);
    case EndCall(last) => EndKeeps(o, s, last);
    case Completion(ok) => CompletionAllowed(o, s, ok);
    case PieceEvent => PieceKeeps(o, s);
    case TickEvent => TickSound(o, s);
  }

  /** A stream that nothing has happened to. */
  lemma FreshInv(o: Options, s: State)
    requires !s.writing && s.writecb == NoCb && s.writelen == 0 && !s.bufferProcessing
    requires !s.ending && !s.ended && !s.finished && s.length == 0 && s.pendingcb == 0 && s.buffer == []
    requires s.world == World([], [], [], [], 0, 0, [], [], 0, 0)
    ensures Inv(o, s)
  {
    assert ChunksOf(s.buffer) == [];
    assert s.world.written + ChunksOf(s.buffer) == [];
  }

  lemma InitialInv(o: Options)
    ensures Inv(o, INITIAL)
  {
    FreshInv(o, INITIAL);
  }

  lemma {:induction false} InvHolds(o: Options, es: seq<Event>)
    requires After(o, es).Some?
    ensures Inv(o, After(o, es).value)
  {
    if es == [] {
      InitialInv(o);
    } else {
      InvHolds(o, es[..|es| - 1]);
      StepKeeps(o, After(o, es[..|es| - 1]).value, es[|es| - 1]);
    }
  }
}
