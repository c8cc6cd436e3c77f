/**
 What the caller of a writable stream is told, and how long corking holds: when 'drain' comes, when it
 is forgotten, and how deep `cork` and `uncork` are nested.
 */
module WritableSignals {
  import opened Prelude
  import opened Writable
  import opened WritableRuns
  import opened WritableTheorems
  import O = WritableOutcome
  import B = WritableBatches
  import R = WritableOrder

  // ---------------------------------------------------------------- 'drain' comes

  predicate HasDrain(ts: seq<Task>) {
    exists i :: 0 <= i < |ts| && Drain in ts[i]
  }

  /** A check for 'drain' is due, or will be when what is under way completes. */
  predicate WillDrain(s: State) {
    s.needDrain && !s.ended ==> s.writing || s.buffer != [] || HasDrain(s.world.ticks) || HasDrain(s.world.running)
  }

  lemma AppendDrain(ts: seq<Task>, t: Task)
    ensures HasDrain(ts) || Drain in t ==> HasDrain(ts + [t])
  {
    if HasDrain(ts) {
      var i :| 0 <= i < |ts| && Drain in ts[i];
      assert Drain in (ts + [t])[i];
    } else if Drain in t {
      assert Drain in (ts + [t])[|ts|];
    }
  }

  lemma AfterWriteDrains(cb: WriteCb)
    ensures Drain in AfterWrite(false, cb)
  {
    assert AfterWrite(false, cb)[0] == Drain;
  }

  /** An underlying write that succeeds leaves something outstanding, or a check for 'drain'. */
  lemma WrittenDrains(o: Options, s: State, len: nat, chunks: seq<Chunk>, cb: WriteCb)
    requires NoFailures(o) && !s.ending
    ensures var r := Written(o, s, len, chunks, cb);
      (r.writing || HasDrain(r.world.ticks)) && (HasDrain(s.world.ticks) ==> HasDrain(r.world.ticks)) && !r.ending
  {
    assert o.sink(s.world.writes) != Now(false);
    AfterWriteDrains(cb);
    AppendDrain(s.world.ticks, AfterWrite(false, cb));
  }

  lemma {:induction false} LoopDrains(o: Options, s: State, c: nat)
    requires s.bufferProcessing && c <= |s.buffer| && NoFailures(o) && !s.ending
    requires c < |s.buffer| || HasDrain(s.world.ticks)
    ensures var r := ClearLoop(o, s, c); r.writing || HasDrain(r.world.ticks)
    decreases |s.buffer| - c
  {
    if c < |s.buffer| {
      var entry := s.buffer[c];
      var len := ChunkLength(o, entry.chunk);
      DoWriteIsWritten(o, s, len, [entry.chunk], One(entry.cb));
      WrittenDrains(o, s, len, [entry.chunk], One(entry.cb));
      var s1 := DoWrite(o, s, len, [entry.chunk], One(entry.cb));
      if !s1.writing {
        LoopDrains(o, s1, c + 1);
      }
    }
  }

  lemma ClearDrains(o: Options, s: State)
    requires !s.bufferProcessing && s.buffer != [] && s.length >= 0 && NoFailures(o) && !s.ending
    ensures var r := ClearBuffer(o, s); r.writing || HasDrain(r.world.ticks)
  {
    var s1 := s.(bufferProcessing := true);
    if o.hasWritev && |s.buffer| > 1 {
      var s2 := s1.(pendingcb := s.pendingcb + 1);
      var cb := Batch(CallbacksOf(s.buffer));
      DoWriteIsWritten(o, s2, s.length, ChunksOf(s.buffer), cb);
      WrittenDrains(o, s2, s.length, ChunksOf(s.buffer), cb);
    } else {
      LoopDrains(o, s1, 0);
    }
  }

  lemma WriteDrains(o: Options, s: State, req: Req)
    requires Inv(o, s) && WillDrain(s) && NoFailures(o)
    ensures WillDrain(Write(o, s, req))
  {
    if !s.ended {
      WriteForm(o, s, req);
      if !s.writing && s.corked == 0 {
        WrittenDrains(o, Counted(o, s, req), ChunkLength(o, req.chunk), [req.chunk], One(req.cb));
      }
    }
  }

  lemma CompletionDrains(o: Options, s: State)
    requires Inv(o, s) && NoFailures(o) && s.writing
    ensures WillDrain(OnWrite(o, s, true))
  {
    var s1, r := StateUpdate(s), OnWrite(o, s, true);
    OnWriteForm(o, s, true);
    UpdateHolds(o, s);
    O.CompletionEnded(o, s, true);
    if !s.ended {
      AfterWriteDrains(s.writecb);
      assert Drain in r.world.running[0];
    }
  }

  lemma UncorkDrains(o: Options, s: State)
    requires Inv(o, s) && WillDrain(s) && NoFailures(o)
    ensures WillDrain(Uncork(o, s))
  {
    UncorkKeeps(o, s);
    if s.corked != 0 && !s.ended {
      var s1 := s.(corked := s.corked - 1);
      if MayClear(s1) && !s1.writing && !s1.finished {
        ClearDrains(o, s1);
      }
    }
  }

  lemma NothingLeft(o: Options, s: State)
    requires Sound(o, s, NoCb) && !s.writing && s.buffer == []
    ensures s.length == 0
  {}

  lemma DrainForm(s: State)
    requires s.world.running != [] && s.world.running[0] != [] && s.world.running[0][0] == Drain
    ensures RunPiece(s).needDrain == (s.needDrain && s.length != 0)
    ensures RunPiece(s).world.drains == s.world.drains + if s.needDrain && s.length == 0 then 1 else 0
  {}

  lemma OtherForm(s: State)
    requires s.world.running != [] && (s.world.running[0] == [] || s.world.running[0][0] != Drain)
    ensures RunPiece(s).needDrain == s.needDrain && RunPiece(s).world.drains == s.world.drains
  {
    if s.world.running[0] != [] {
      PerformOther(Taken(s), s.world.running[0][0]);
    }
  }

  lemma PerformOther(s: State, p: Piece)
    requires p != Drain
    ensures Perform(s, p).needDrain == s.needDrain && Perform(s, p).world.drains == s.world.drains
  {
    if p == Finish {
      FinishPerformed(s);
    }
  }

  lemma TakenDrain(s: State)
    requires s.world.running != [] && (s.world.running[0] == [] || s.world.running[0][0] != Drain)
    ensures HasDrain(s.world.running) ==> HasDrain(Taken(s).world.running)
  {
    var running, later := s.world.running, Taken(s).world.running;
    if HasDrain(running) {
      var i :| 0 <= i < |running| && Drain in running[i];
      if running[0] == [] {
        assert Drain in later[i - 1];
      } else if i == 0 {
        assert running[0] == [running[0][0]] + running[0][1..];
        assert Drain in later[0];
      } else {
        assert Drain in later[i];
      }
    }
  }

  lemma PieceDrains(o: Options, s: State)
    requires Inv(o, s) && WillDrain(s) && s.world.running != []
    ensures WillDrain(RunPiece(s))
  {
    PieceOnly(s);
    if s.world.running[0] != [] && s.world.running[0][0] == Drain {
      DrainForm(s);
      if !s.writing && s.buffer == [] {
        NothingLeft(o, s);
      }
    } else {
      OtherForm(s);
      TakenDrain(s);
    }
  }

  lemma TickDrains(s: State)
    requires WillDrain(s) && s.world.running == [] && s.world.ticks != []
    ensures WillDrain(Tick(s))
  {
    if HasDrain(s.world.ticks) {
      var i :| 0 <= i < |s.world.ticks| && Drain in s.world.ticks[i];
      if i == 0 {
        assert Drain in Tick(s).world.running[0];
      } else {
        assert Drain in Tick(s).world.ticks[i - 1];
      }
    }
  }

  lemma StepDrains(o: Options, s: State, e: Event)
    requires Inv(o, s) && WillDrain(s) && NoFailures(o) && Allowed(s, e) && e != Completion(false)
    ensures WillDrain(Step(o, s, e))
  {
    match e
    case WriteCall(req) => WriteDrains(o, s, req);
    case CorkCall =>
    case UncorkCall => UncorkDrains(o, s);
    case EndCall(last) => EndKeeps(o, s, last);
    case Completion(_) => CompletionDrains(o, s);
    case PieceEvent => PieceDrains(o, s);
    case TickEvent => TickDrains(s);
  }

  lemma {:induction false} RunDrains(o: Options, es: seq<Event>)
    requires After(o, es).Some? && NoFailures(o) && O.AllSucceed(es)
    ensures WillDrain(After(o, es).value)
  {
    if es != [] {
      var before := es[..|es| - 1];
      RunDrains(o, before);
      InvHolds(o, before);
      StepDrains(o, After(o, before).value, es[|es| - 1]);
    }
  }

  /** An error-free stream that is idle and was not ended owes nobody a 'drain'. */
  lemma DrainComes(o: Options, es: seq<Event>)
    requires After(o, es).Some? && NoFailures(o) && O.AllSucceed(es)
    requires O.Idle(After(o, es).value) && !O.Submitted(es).1
    ensures !After(o, es).value.needDrain
  {
    RunDrains(o, es);
    InvHolds(o, es);
    O.AcceptedWrites(o, es);
  }

  // ---------------------------------------------------------------- and how it is forgotten

  /** What the caller of `write` is told: there is room for more. */
  predicate Roomy(o: Options, s: State, e: Event) {
    O.NewWrites(e) != [] && !s.ended && s.length + ChunkLength(o, O.NewWrites(e)[0].chunk) < o.highWaterMark
  }

  predicate SameSignals(s: State, r: State) {
    r.needDrain == s.needDrain && r.world.drains == s.world.drains && r.corked == s.corked
  }

  lemma WrittenSignals(o: Options, s: State, len: nat, chunks: seq<Chunk>, cb: WriteCb)
    ensures SameSignals(s, Written(o, s, len, chunks, cb))
  {
    var b := BeginWrite(s, len, chunks, cb);
    match o.sink(s.world.writes)
    case Later =>
    case Now(ok) => TickOnly(StateUpdate(b).world, TaskFor(StateUpdate(b), ok, cb));
  }

  lemma {:induction false} LoopSignals(o: Options, s: State, c: nat)
    requires s.bufferProcessing && c <= |s.buffer|
    ensures SameSignals(s, ClearLoop(o, s, c))
    decreases |s.buffer| - c
  {
    if c < |s.buffer| {
      var entry := s.buffer[c];
      var len := ChunkLength(o, entry.chunk);
      DoWriteIsWritten(o, s, len, [entry.chunk], One(entry.cb));
      WrittenSignals(o, s, len, [entry.chunk], One(entry.cb));
      var s1 := DoWrite(o, s, len, [entry.chunk], One(entry.cb));
      if !s1.writing {
        LoopSignals(o, s1, c + 1);
      }
    }
  }

  lemma ClearSignals(o: Options, s: State)
    requires !s.bufferProcessing && s.buffer != [] && s.length >= 0
    ensures SameSignals(s, ClearBuffer(o, s))
  {
    var s1 := s.(bufferProcessing := true);
    if o.hasWritev && |s.buffer| > 1 {
      var s2 := s1.(pendingcb := s.pendingcb + 1);
      var cb := Batch(CallbacksOf(s.buffer));
      DoWriteIsWritten(o, s2, s.length, ChunksOf(s.buffer), cb);
      WrittenSignals(o, s2, s.length, ChunksOf(s.buffer), cb);
    } else {
      LoopSignals(o, s1, 0);
    }
  }

  lemma CompletionSignals(o: Options, s: State, ok: bool)
    requires Sound(o, s, NoCb) && s.writing
    ensures SameSignals(s, OnWrite(o, s, ok))
  {
    OnWriteForm(o, s, ok);
    UpdateHolds(o, s);
    if Clears(StateUpdate(s), ok) {
      ClearSignals(o, StateUpdate(s));
    }
  }

  lemma StrandedSignals(o: Options, s: State, req: Req)
    requires Sound(o, s, NoCb) && Stranded(s) && !s.ended
    ensures SameSignals(Counted(o, s, req), Write(o, s, req))
  {
    var b := BeginWrite(Counted(o, s, req), ChunkLength(o, req.chunk), [req.chunk], One(req.cb));
    BegunSound(o, s, req);
    B.WriteEnters(o, s, req);
    match o.sink(s.world.writes) {
      case Later =>
      case Now(ok) =>
        B.StrandedForm(o, s, req, ok);
        if ok {
          ClearSignals(o, StateUpdate(b));
        }
    }
  }

  lemma WriteSignals(o: Options, s: State, req: Req)
    requires Sound(o, s, NoCb)
    ensures SameSignals(if s.ended then s else Counted(o, s, req), Write(o, s, req))
  {
    if !s.ended {
      if Stranded(s) {
        StrandedSignals(o, s, req);
      } else {
        WriteForm(o, s, req);
        WrittenSignals(o, Counted(o, s, req), ChunkLength(o, req.chunk), [req.chunk], One(req.cb));
      }
    }
  }

  lemma UncorkSignals(o: Options, s: State)
    requires Sound(o, s, NoCb)
    ensures SameSignals(s.(corked := if s.corked == 0 then 0 else s.corked - 1), Uncork(o, s))
  {
    if s.corked != 0 {
      var s1 := s.(corked := s.corked - 1);
      if MayClear(s1) && !s1.writing && !s1.finished {
        ClearSignals(o, s1);
      }
    }
  }

  lemma EndWritableSignals(s: State)
    ensures SameSignals(s, EndWritable(s))
  {}

  lemma EndSignals(o: Options, s: State, last: Option<Req>)
    requires Sound(o, s, NoCb)
    ensures SameSignals(WriteLast(o, s, last).(corked := 0), End(o, s, last))
  {
    if last.Some? {
      WriteSound(o, s, last.value);
    }
    FullyUncorkSignals(o, WriteLast(o, s, last));
    EndWritableSignals(FullyUncork(o, WriteLast(o, s, last)));
  }

  lemma FullyUncorkSignals(o: Options, s: State)
    requires Sound(o, s, NoCb)
    ensures SameSignals(s.(corked := 0), FullyUncork(o, s))
  {
    if s.corked != 0 {
      UncorkSignals(o, s.(corked := 1));
    }
  }

  lemma PieceSignals(s: State)
    requires s.world.running != []
    ensures RunPiece(s).corked == s.corked
    ensures s.needDrain && !RunPiece(s).needDrain <==> RunPiece(s).world.drains == s.world.drains + 1
    ensures RunPiece(s).world.drains != s.world.drains ==>
              RunPiece(s).world.drains == s.world.drains + 1 && s.needDrain && s.length == 0
  {
    PieceOnly(s);
    if s.world.running[0] != [] && s.world.running[0][0] == Drain {
      DrainForm(s);
    } else {
      OtherForm(s);
    }
  }

  /** A 'drain' is emitted only to a caller who waits for it, when nothing is left to write; and one that
      is owed is given up exactly by being emitted, or by a write that is answered with room for more. */
  lemma DrainForgotten(o: Options, s: State, e: Event)
    requires Sound(o, s, NoCb) && Possible(s, e)
    ensures var r := Step(o, s, e);
      && (r.world.drains != s.world.drains ==>
            r.world.drains == s.world.drains + 1 && s.needDrain && s.length == 0)
      && (s.needDrain && !r.needDrain <==> r.world.drains == s.world.drains + 1 || (s.needDrain && Roomy(o, s, e)))
  {
    match e
    case WriteCall(req) => WriteSignals(o, s, req);
    case CorkCall =>
    case UncorkCall => UncorkSignals(o, s);
    case EndCall(last) =>
      EndSignals(o, s, last);
      if last.Some? {
        WriteSignals(o, s, last.value);
      }
    case Completion(ok) => CompletionSignals(o, s, ok);
    case PieceEvent => PieceSignals(s);
    case TickEvent =>
  }

  const SLOW := Options(false, 3, false, (k: nat) => Later)

  /** A run: the first write is answered with no room, and a later one, while the second is being written,
      with room; everything is written, and 'drain' never comes. */
  lemma DrainForgottenRun()
    ensures var a, b, c := Req([1, 2, 3], 0), Req([4], 1), Req([5], 2);
      var s0 := Write(SLOW, Write(SLOW, INITIAL, a), b);
      var s1 := Write(SLOW, OnWrite(SLOW, s0, true), c);
      && !Roomy(SLOW, INITIAL, WriteCall(a)) && Roomy(SLOW, OnWrite(SLOW, s0, true), WriteCall(c))
      && s0.needDrain && !s1.needDrain && s1.world.drains == 0 && s1.length == 2
  {
    var a, b, c := Req([1, 2, 3], 0), Req([4], 1), Req([5], 2);
    var s := Write(SLOW, INITIAL, a);
    assert s.writing && s.length == 3 && s.needDrain;
    var s0 := Write(SLOW, s, b);
    assert s0.writing && s0.length == 4 && s0.buffer == [b];
    SecondBegins(s0, b);
    var s1 := OnWrite(SLOW, s0, true);
    assert s1.writing && s1.length == 1 && s1.world.drains == 0;
  }

  lemma SecondBegins(s: State, b: Req)
    requires s.writing && !s.sync && s.corked == 0 && !s.bufferProcessing && !s.ending && s.buffer == [b]
    ensures var r := OnWrite(SLOW, s, true);
      r.writing && r.length == s.length - s.writelen && SameSignals(s, r) && r.ended == s.ended && r.corked == 0
  {
    var p := StateUpdate(s).(bufferProcessing := true);
    var d := DoWrite(SLOW, p, |b.chunk|, [b.chunk], One(b.cb));
    assert d.writing;
    assert ClearLoop(SLOW, p, 0) == d.(buffer := [b][1..]);
    OnWriteForm(SLOW, s, true);
  }

  // ---------------------------------------------------------------- corking

  /** Calls of `cork` that were not undone; `end` undoes all. */
  function Depth(es: seq<Event>): nat {
    if es == [] then 0
    else
      var before := Depth(es[..|es| - 1]);
      match es[|es| - 1]
      case CorkCall => before + 1
      case UncorkCall => if before == 0 then 0 else before - 1
      case EndCall(_) => 0
      case _ => before
  }

  lemma StepDepth(o: Options, s: State, e: Event)
    requires Sound(o, s, NoCb) && Possible(s, e)
    ensures Step(o, s, e).corked ==
            match e
            case CorkCall => s.corked + 1
            case UncorkCall => if s.corked == 0 then 0 else s.corked - 1
            case EndCall(_) => 0
            case _ => s.corked
  {
    match e
    case WriteCall(req) => WriteSignals(o, s, req);
    case CorkCall =>
    case UncorkCall => UncorkSignals(o, s);
    case EndCall(last) => EndSignals(o, s, last);
    case Completion(ok) => CompletionSignals(o, s, ok);
    case PieceEvent => PieceSignals(s);
    case TickEvent =>
  }

  lemma {:induction false} DepthHolds(o: Options, es: seq<Event>)
    requires R.AfterAny(o, es).Some?
    ensures R.AfterAny(o, es).value.corked == Depth(es)
  {
    if es != [] {
      var before := es[..|es| - 1];
      R.AnyRun(o, before);
      DepthHolds(o, before);
      StepDepth(o, R.AfterAny(o, before).value, es[|es| - 1]);
    }
  }

  lemma CompletionHeld(o: Options, s: State, ok: bool)
    requires Sound(o, s, NoCb) && s.writing && s.corked > 0
    ensures OnWrite(o, s, ok).world.batches == s.world.batches
  {
    OnWriteForm(o, s, ok);
  }

  /** While there is such a call left, no event begins an underlying write. */
  lemma CorkHolds(o: Options, es: seq<Event>, e: Event)
    requires R.AfterAny(o, es + [e]).Some? && Depth(es) > 0 && Depth(es + [e]) > 0
    ensures R.AfterAny(o, es).Some?
    ensures R.AfterAny(o, es + [e]).value.world.batches == R.AfterAny(o, es).value.world.batches
  {
    B.NextAny(o, es, e);
    assert (es + [e])[..|es|] == es;
    DepthHolds(o, es);
    R.AnyRun(o, es);
    var s := R.AfterAny(o, es).value;
    match e
    case WriteCall(req) => B.WriteBegins(o, s, req);
    case CorkCall =>
    case UncorkCall =>
    case EndCall(last) =>
    case Completion(ok) => CompletionHeld(o, s, ok);
    case PieceEvent => B.PieceRecord(s);
    case TickEvent =>
  }
}
