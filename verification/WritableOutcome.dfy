/**
 The results about runs of a Writable stream: chunk order, accounting, callbacks, and
 exactly when 'finish' is emitted.
 */
module WritableOutcome {
  import opened Prelude
  import opened Writable
  import opened WritableRuns
  import opened WritableTheorems

  // ---------------------------------------------------------------- callbacks

  /** All callbacks of accepted writes: called, due now, held, due later, outstanding, buffered. */
  function Line(s: State, held: WriteCb): seq<nat> {
    s.world.called + PromisedAll(s.world.running) + PromisedBy(held) + (Coming(s) + CallbacksOf(s.buffer))
  }

  /** No callback of an accepted write is lost or doubled. */
  ghost predicate Accounted(s: State) {
    multiset(Line(s, NoCb)) == multiset(CallbacksOf(s.world.accepted))
  }

  /** Callbacks are called in the order of the writes. */
  predicate InOrder(s: State) {
    Line(s, NoCb) == CallbacksOf(s.world.accepted)
  }

  lemma LineParts(s: State, r: State, held: WriteCb)
    requires r.world.called == s.world.called && r.world.running == s.world.running
    requires Coming(r) + CallbacksOf(r.buffer) == Coming(s) + CallbacksOf(s.buffer)
    ensures Line(r, held) == Line(s, held)
  {}

  lemma HeldBag(c: seq<nat>, r: seq<nat>, t: seq<nat>, p: seq<nat>, b: seq<nat>)
    ensures multiset(c + r + [] + (t + p + b)) == multiset(c + r + p + (t + [] + b))
    ensures r == [] && t == [] ==> c + r + [] + (t + p + b) == c + r + p + (t + [] + b)
  {}

  lemma UpdateLine(s: State)
    ensures multiset(Line(StateUpdate(s), s.writecb)) == multiset(Line(s, NoCb))
    ensures s.world.ticks == [] && s.world.running == [] ==> Line(StateUpdate(s), s.writecb) == Line(s, NoCb)
  {
    HeldBag(s.world.called, PromisedAll(s.world.running), PromisedAll(s.world.ticks),
            PromisedBy(s.writecb), CallbacksOf(s.buffer));
  }

  lemma ScheduleBag(c: seq<nat>, r: seq<nat>, p: seq<nat>, x: seq<nat>)
    ensures multiset(c + (p + r) + [] + x) == multiset(c + r + p + x)
    ensures r == [] ==> c + (p + r) + [] + x == c + r + p + x
  {}

  lemma ScheduleLine(s: State, held: WriteCb, task: Task)
    requires Promised(task) == PromisedBy(held)
    ensures var r := s.(world := Schedule(s.world, false, task));
      && multiset(Line(r, NoCb)) == multiset(Line(s, held))
      && (s.world.running == [] ==> Line(r, NoCb) == Line(s, held))
  {
    ConsTotals(task, s.world.running);
    ScheduleBag(s.world.called, PromisedAll(s.world.running), PromisedBy(held), Coming(s) + CallbacksOf(s.buffer));
  }

  lemma ClearLine(o: Options, s: State, held: WriteCb)
    requires Sound(o, s, held) && !s.writing && s.buffer != []
    ensures Line(ClearBuffer(o, s), held) == Line(s, held)
    ensures ClearBuffer(o, s).world.accepted == s.world.accepted && ClearBuffer(o, s).world.running == s.world.running
  {
    ClearBufferClears(o, s);
    LineParts(s, ClearBuffer(o, s), held);
  }

  lemma CompletionLine(o: Options, s: State, ok: bool)
    requires Sound(o, s, NoCb) && s.writing
    ensures multiset(Line(OnWrite(o, s, ok), NoCb)) == multiset(Line(s, NoCb))
    ensures s.world.ticks == [] && s.world.running == [] ==> Line(OnWrite(o, s, ok), NoCb) == Line(s, NoCb)
    ensures OnWrite(o, s, ok).world.accepted == s.world.accepted
  {
    var s1 := StateUpdate(s);
    UpdateHolds(o, s);
    UpdateLine(s);
    OnWriteForm(o, s, ok);
    TaskForTotals(s1, ok, s.writecb);
    if Clears(s1, ok) {
      ClearLine(o, s1, s.writecb);
      ScheduleLine(ClearBuffer(o, s1), s.writecb, TaskFor(s1, ok, s.writecb));
    } else {
      ScheduleLine(s1, s.writecb, TaskFor(s1, ok, s.writecb));
    }
  }

  lemma AppendLine(l: seq<nat>, m: seq<nat>, n: seq<nat>, cb: seq<nat>)
    ensures l + (m + (n + cb)) == l + (m + n) + cb
    ensures l + (m + cb + []) == l + (m + []) + cb
  {}

  lemma WriteLine(o: Options, s: State, req: Req)
    requires Inv(o, s)
    ensures Line(Write(o, s, req), NoCb) == Line(s, NoCb) + (if s.ended then [] else [req.cb])
    ensures Write(o, s, req).world.accepted == s.world.accepted + (if s.ended then [] else [req])
  {
    if s.ended {
      RefusedTotals(s, req.cb);
      assert Line(s, NoCb) + [] == Line(s, NoCb);
    } else {
      var head := s.world.called + PromisedAll(s.world.running) + PromisedBy(NoCb);
      WriteForm(o, s, req);
      if s.writing || s.corked != 0 {
        SnocOf(s.buffer, req);
        AppendLine(head, Coming(s), CallbacksOf(s.buffer), [req.cb]);
      } else {
        var s1, len := Counted(o, s, req), ChunkLength(o, req.chunk);
        WrittenCounts(o, s1, len, [req.chunk], One(req.cb));
        WrittenComing(o, s1, len, [req.chunk], One(req.cb));
        assert CallbacksOf([]) == [];
        AppendLine(head, Coming(s), [], [req.cb]);
      }
    }
  }

  lemma UncorkLine(o: Options, s: State)
    requires Inv(o, s)
    ensures Line(Uncork(o, s), NoCb) == Line(s, NoCb) && Uncork(o, s).world.accepted == s.world.accepted
  {
    if s.corked != 0 {
      var s1 := s.(corked := s.corked - 1);
      LineParts(s, s1, NoCb);
      if MayClear(s1) && !s1.writing && !s1.finished {
        ClearLine(o, s1, NoCb);
      }
    }
  }

  lemma FullyUncorkLine(o: Options, s: State)
    requires Inv(o, s)
    ensures var r := FullyUncork(o, s);
      Line(r, NoCb) == Line(s, NoCb) && r.world.accepted == s.world.accepted
  {
    if s.corked != 0 {
      LineParts(s, s.(corked := 1), NoCb);
      UncorkLine(o, s.(corked := 1));
    }
  }

  lemma EndWritableLine(s: State)
    ensures Line(EndWritable(s), NoCb) == Line(s, NoCb) && EndWritable(s).world.accepted == s.world.accepted
  {
    LineParts(s, EndWritable(s), NoCb);
  }

  lemma EndLine(o: Options, s: State, last: Option<Req>)
    requires Inv(o, s)
    ensures var r := End(o, s, last); var s1 := WriteLast(o, s, last);
      Line(r, NoCb) == Line(s1, NoCb) && r.world.accepted == s1.world.accepted
  {
    var s1 := WriteLast(o, s, last);
    if last.Some? {
      WriteKeeps(o, s, last.value);
    }
    FullyUncorkLine(o, s1);
    EndWritableLine(FullyUncork(o, s1));
  }

  lemma CallLine(c: seq<nat>, p: seq<nat>, l: seq<nat>, x: seq<nat>)
    ensures c + (p + l) + [] + x == (c + p) + l + [] + x
  {}

  lemma FinishMaybeCalls(s: State)
    ensures var r := FinishMaybe(s);
      && r.world.called == s.world.called && r.world.running == s.world.running
      && r.world.accepted == s.world.accepted && Coming(r) == Coming(s) && r.buffer == s.buffer
  {}

  lemma OtherCalls(s: State)
    requires s.world.running != [] && s.world.running[0] != [] && s.world.running[0][0] != Finish
    ensures var p := s.world.running[0][0]; var r := RunPiece(s);
      && r.world.called == s.world.called + (if p.Call? then [p.cb] else [])
      && r.world.running == Taken(s).world.running && r.world.accepted == s.world.accepted
      && Coming(r) == Coming(s) && r.buffer == s.buffer
  {
    assert s.world.called + [] == s.world.called;
    PieceForm(s);
  }

  /** What one piece does to the callbacks. */
  lemma PieceCalls(s: State)
    requires s.world.running != [] && s.world.running[0] != []
    ensures var p := s.world.running[0][0]; var r := RunPiece(s);
      && r.world.called == s.world.called + (if p.Call? then [p.cb] else [])
      && r.world.running == Taken(s).world.running && r.world.accepted == s.world.accepted
      && Coming(r) == Coming(s) && r.buffer == s.buffer
  {
    if s.world.running[0][0] == Finish {
      assert s.world.called + [] == s.world.called;
      FinishMaybeCalls(Taken(s));
      FinishPiece(s);
    } else {
      OtherCalls(s);
    }
  }

  lemma PieceLine(s: State)
    requires s.world.running != []
    ensures Line(RunPiece(s), NoCb) == Line(s, NoCb) && RunPiece(s).world.accepted == s.world.accepted
  {
    var task := s.world.running[0];
    if task == [] {
      assert PromisedAll(s.world.running) == PromisedAll(s.world.running[1..]);
    } else {
      TakenTotals(s);
      PieceCalls(s);
      CallLine(s.world.called, if task[0].Call? then [task[0].cb] else [], PromisedAll(Taken(s).world.running),
               Coming(s) + CallbacksOf(s.buffer));
    }
  }

  lemma TickLine(s: State)
    requires s.world.running == [] && s.world.ticks != []
    ensures Line(Tick(s), NoCb) == Line(s, NoCb) && Tick(s).world.accepted == s.world.accepted
  {
    var first, later := Promised(s.world.ticks[0]), PromisedAll(s.world.ticks[1..]);
    ConsTotals(s.world.ticks[0], []);
    assert [s.world.ticks[0]] + [] == Tick(s).world.running;
    TickSeq(s.world.called, first, later, PromisedBy(s.writecb), CallbacksOf(s.buffer));
  }

  lemma TickSeq(c: seq<nat>, f: seq<nat>, l: seq<nat>, p: seq<nat>, b: seq<nat>)
    ensures c + (f + []) + [] + (l + p + b) == c + [] + [] + (f + l + p + b)
  {}

  lemma EndStepLine(o: Options, s: State, last: Option<Req>)
    requires Inv(o, s)
    ensures Accounted(s) ==> Accounted(End(o, s, last))
    ensures InOrder(s) ==> InOrder(End(o, s, last))
  {
    if last.Some? {
      WriteLine(o, s, last.value);
      AcceptedLine(s, Write(o, s, last.value), last.value);
    }
    EndLine(o, s, last);
  }

  lemma CompletionStepLine(o: Options, s: State, ok: bool)
    requires Inv(o, s) && s.writing
    ensures Accounted(s) ==> Accounted(OnWrite(o, s, ok))
    ensures InOrder(s) && s.world.ticks == [] && s.world.running == [] ==> InOrder(OnWrite(o, s, ok))
  {
    CompletionLine(o, s, ok);
  }

  lemma OtherStepLine(o: Options, s: State, e: Event)
    requires Inv(o, s) && Allowed(s, e) && (e.CorkCall? || e.UncorkCall? || e.PieceEvent? || e.TickEvent?)
    ensures Accounted(s) ==> Accounted(Step(o, s, e))
    ensures InOrder(s) ==> InOrder(Step(o, s, e))
  {
    match e
    case CorkCall => LineParts(s, Cork(s), NoCb);
    case UncorkCall => UncorkLine(o, s);
    case PieceEvent => PieceLine(s);
    case TickEvent => TickLine(s);
  }

  /** Each event keeps every callback; and its place, if later completions find no callback due. */
  lemma StepLine(o: Options, s: State, e: Event)
    requires Inv(o, s) && Allowed(s, e)
    ensures Accounted(s) ==> Accounted(Step(o, s, e))
    ensures InOrder(s) && (e.Completion? ==> s.world.ticks == [] && s.world.running == []) ==> InOrder(Step(o, s, e))
  {
    match e
    case WriteCall(req) => WriteLine(o, s, req); AcceptedLine(s, Write(o, s, req), req);
    case EndCall(last) => EndStepLine(o, s, last);
    case Completion(ok) => CompletionStepLine(o, s, ok);
    case _ => OtherStepLine(o, s, e);
  }

  lemma AcceptedLine(s: State, r: State, req: Req)
    requires Line(r, NoCb) == Line(s, NoCb) + (if s.ended then [] else [req.cb])
    requires r.world.accepted == s.world.accepted + (if s.ended then [] else [req])
    ensures Accounted(s) ==> Accounted(r)
    ensures InOrder(s) ==> InOrder(r)
  {
    SnocOf(s.world.accepted, req);
    if s.ended {
      assert s.world.accepted + [] == s.world.accepted;
    }
  }

  // ---------------------------------------------------------------- finishing

  predicate EndsWithFinish(t: Task) {
    t != [] && t[|t| - 1] == Finish
  }

  predicate HasFinish(ts: seq<Task>) {
    exists i :: 0 <= i < |ts| && EndsWithFinish(ts[i])
  }

  predicate Due(w: World) {
    HasFinish(w.ticks) || HasFinish(w.running)
  }

  predicate TasksConclude(w: World) {
    AllConclude(w.ticks) && AllConclude(w.running)
  }

  /** An ended stream with no callback left to count will still check whether it is done. */
  predicate WillFinish(s: State) {
    TasksConclude(s.world) && (s.ended && !s.finished && s.pendingcb == 0 ==> Due(s.world))
  }

  lemma NothingPending(o: Options, s: State)
    requires Sound(o, s, NoCb) && s.pendingcb == 0
    ensures s.buffer == [] && !s.writing && s.length == 0
  {}

  lemma AppendHasFinish(ts: seq<Task>, t: Task)
    requires HasFinish(ts)
    ensures HasFinish(ts + [t])
  {
    var i :| 0 <= i < |ts| && EndsWithFinish(ts[i]);
    assert EndsWithFinish((ts + [t])[i]);
  }

  lemma WriteWillFinish(o: Options, s: State, req: Req)
    requires Inv(o, s) && WillFinish(s) && NoFailures(o)
    ensures WillFinish(Write(o, s, req)) && Write(o, s, req).ended == s.ended
  {
    if s.ended {
      var task := [Refuse(req.cb)];
      assert task[1..] == [] && Owed(task) == 0;
      AppendConcludes(s.world.ticks, task);
      if HasFinish(s.world.ticks) {
        AppendHasFinish(s.world.ticks, task);
      }
    } else {
      WriteForm(o, s, req);
      WrittenConcludes(o, Counted(o, s, req), ChunkLength(o, req.chunk), [req.chunk], One(req.cb));
      WriteKeeps(o, s, req);
      if !s.writing && s.corked == 0 {
        WrittenCounts(o, Counted(o, s, req), ChunkLength(o, req.chunk), [req.chunk], One(req.cb));
      }
    }
  }

  lemma UncorkWillFinish(o: Options, s: State)
    requires Inv(o, s) && WillFinish(s) && NoFailures(o)
    ensures WillFinish(Uncork(o, s))
  {
    UncorkKeeps(o, s);
    if s.corked != 0 {
      var s1 := s.(corked := s.corked - 1);
      if s.pendingcb == 0 {
        NothingPending(o, s);
      } else if MayClear(s1) && !s1.writing && !s1.finished {
        ClearBufferConcludes(o, s1);
        ClearBufferClears(o, s1);
      }
    }
  }

  lemma EndWritableWillFinish(o: Options, s: State)
    requires Inv(o, s) && TasksConclude(s.world) && !s.ending && !s.finished
    ensures WillFinish(EndWritable(s))
  {
    if s.pendingcb == 0 {
      NothingPending(o, s);
    }
  }

  lemma EndWillFinish(o: Options, s: State, last: Option<Req>)
    requires Inv(o, s) && WillFinish(s) && NoFailures(o)
    ensures WillFinish(End(o, s, last))
  {
    if last.Some? {
      WriteKeeps(o, s, last.value);
      WriteWillFinish(o, s, last.value);
    }
    var s1 := WriteLast(o, s, last);
    FullyUncorkKeeps(o, s1);
    if s1.corked != 0 {
      UncorkWillFinish(o, s1.(corked := 1));
    }
    var s2 := FullyUncork(o, s1);
    if !s2.ending && !s2.finished {
      EndWritableWillFinish(o, s2);
    }
  }

  lemma PrependConcludes(ts: seq<Task>, t: Task)
    requires AllConclude(ts) && Concludes(t)
    ensures AllConclude([t] + ts)
  {}

  lemma CompletionWillFinish(o: Options, s: State)
    requires Inv(o, s) && WillFinish(s) && NoFailures(o) && s.writing
    ensures WillFinish(OnWrite(o, s, true))
  {
    var s1 := StateUpdate(s);
    var task := TaskFor(s1, true, s.writecb);
    CompletionKeeps(o, s, true);
    OnWriteForm(o, s, true);
    UpdateHolds(o, s);
    if Clears(s1, true) {
      ClearBufferConcludes(o, s1);
      ClearBufferClears(o, s1);
    }
    PrependConcludes(s.world.running, task);
  }

  lemma RestConcludes(t: Task)
    requires t != [] && Concludes(t)
    ensures Concludes(t[1..])
    ensures t[0].Call? || t[0].Release? ==> EndsWithFinish(t[1..])
    ensures EndsWithFinish(t) && t[1..] != [] ==> EndsWithFinish(t[1..])
  {
    if t[0].Call? || t[0].Release? {
      assert t[|t| - 1] == Finish;
    }
    if |t| == 1 {
      assert Owed(t[1..]) == 0;
    }
  }

  lemma EmptyWillFinish(s: State)
    requires WillFinish(s) && s.world.running != [] && s.world.running[0] == []
    ensures WillFinish(RunPiece(s))
  {
    var running := s.world.running;
    if HasFinish(running) {
      var i :| 0 <= i < |running| && EndsWithFinish(running[i]);
      assert EndsWithFinish(running[1..][i - 1]);
    }
  }

  lemma TakenConclude(s: State)
    requires AllConclude(s.world.running) && s.world.running != [] && s.world.running[0] != []
    ensures var p := s.world.running[0][0];
      && AllConclude(Taken(s).world.running)
      && (p.Call? || p.Release? ==> HasFinish(Taken(s).world.running))
      && (p != Finish && HasFinish(s.world.running) ==> HasFinish(Taken(s).world.running))
  {
    var running, later := s.world.running, Taken(s).world.running;
    var task := running[0];
    assert AllConclude(running[1..]);
    RestConcludes(task);
    PrependConcludes(running[1..], task[1..]);
    if task[0].Call? || task[0].Release? {
      assert EndsWithFinish(later[0]);
    } else if task[0] != Finish && HasFinish(running) {
      var i :| 0 <= i < |running| && EndsWithFinish(running[i]);
      assert EndsWithFinish(later[i]);
    }
  }

  lemma FinishWillFinish(o: Options, s: State)
    requires Inv(o, s) && WillFinish(s) && s.world.running != [] && s.world.running[0] != []
    requires s.world.running[0][0] == Finish
    ensures WillFinish(RunPiece(s))
  {
    TakenConclude(s);
    FinishPiece(s);
    FinishPerformed(Taken(s));
    if s.pendingcb == 0 {
      NothingPending(o, s);
    }
  }

  lemma PieceWillFinish(o: Options, s: State)
    requires Inv(o, s) && WillFinish(s) && s.world.running != []
    ensures WillFinish(RunPiece(s))
  {
    if s.world.running[0] == [] {
      EmptyWillFinish(s);
    } else if s.world.running[0][0] == Finish {
      FinishWillFinish(o, s);
    } else {
      TakenConclude(s);
      PieceForm(s);
    }
  }

  lemma FinishAmong(ticks: seq<Task>)
    requires ticks != [] && HasFinish(ticks)
    ensures HasFinish([ticks[0]]) || HasFinish(ticks[1..])
  {
    var i :| 0 <= i < |ticks| && EndsWithFinish(ticks[i]);
    if i == 0 {
      assert EndsWithFinish([ticks[0]][0]);
    } else {
      assert EndsWithFinish(ticks[1..][i - 1]);
    }
  }

  lemma TickWillFinish(s: State)
    requires WillFinish(s) && s.world.running == [] && s.world.ticks != []
    ensures WillFinish(Tick(s))
  {
    if HasFinish(s.world.ticks) {
      FinishAmong(s.world.ticks);
    }
  }

  lemma StepWillFinish(o: Options, s: State, e: Event)
    requires Inv(o, s) && WillFinish(s) && NoFailures(o)
    requires Allowed(s, e) && e != Completion(false)
    ensures WillFinish(Step(o, s, e))
  {
    match e
    case WriteCall(req) => WriteWillFinish(o, s, req);
    case CorkCall =>
    case UncorkCall => UncorkWillFinish(o, s);
    case EndCall(last) => EndWillFinish(o, s, last);
    case Completion(_) => CompletionWillFinish(o, s);
    case PieceEvent => PieceWillFinish(o, s);
    case TickEvent => TickWillFinish(s);
  }

  // ---------------------------------------------------------------- the results

  /** The writes made before the stream was ended, and whether it was. */
  function Submitted(es: seq<Event>): (seq<Req>, bool) {
    if es == [] then ([], false)
    else
      var (reqs, ended) := Submitted(es[..|es| - 1]);
      if ended then (reqs, true)
      else (reqs + NewWrites(es[|es| - 1]), es[|es| - 1].EndCall?)
  }

  function NewWrites(e: Event): seq<Req> {
    match e
    case WriteCall(req) => [req]
    case EndCall(Some(req)) => [req]
    case _ => []
  }

  predicate AllPositive(o: Options, reqs: seq<Req>) {
    forall i :: 0 <= i < |reqs| ==> ChunkLength(o, reqs[i].chunk) > 0
  }

  /** Later completions arrive when no task is running or waiting. */
  predicate Orderly(o: Options, es: seq<Event>) {
    es == [] || (
      && Orderly(o, es[..|es| - 1])
      && (match After(o, es[..|es| - 1])
          case Some(s) => es[|es| - 1].Completion? ==> s.world.ticks == [] && s.world.running == []
          case None => true))
  }

  predicate AllSucceed(es: seq<Event>) {
    forall i :: 0 <= i < |es| ==> es[i] != Completion(false)
  }

  lemma EndedSame(o: Options, s: State, e: Event)
    requires Inv(o, s) && Allowed(s, e)
    ensures Step(o, s, e).ended == (s.ended || e.EndCall?)
  {
    match e
    case WriteCall(req) => WriteKeeps(o, s, req);
    case CorkCall =>
    case UncorkCall => UncorkKeeps(o, s);
    case EndCall(last) => EndKeeps(o, s, last);
    case Completion(ok) => CompletionEnded(o, s, ok);
    case PieceEvent =>
    case TickEvent =>
  }

  lemma CompletionEnded(o: Options, s: State, ok: bool)
    requires Sound(o, s, NoCb) && s.writing
    ensures OnWrite(o, s, ok).ended == s.ended
  {
    OnWriteForm(o, s, ok);
    UpdateHolds(o, s);
    if Clears(StateUpdate(s), ok) {
      ClearKeeps(o, StateUpdate(s), s.writecb);
    }
  }

  lemma AcceptedStep(o: Options, s: State, e: Event)
    requires Inv(o, s) && Allowed(s, e)
    ensures Step(o, s, e).world.accepted == s.world.accepted + (if s.ended then [] else NewWrites(e))
  {
    assert s.world.accepted + [] == s.world.accepted;
    match e
    case WriteCall(req) => WriteLine(o, s, req);
    case CorkCall =>
    case UncorkCall => UncorkLine(o, s);
    case EndCall(last) =>
      EndLine(o, s, last);
      if last.Some? {
        WriteLine(o, s, last.value);
      }
    case Completion(ok) => CompletionLine(o, s, ok);
    case PieceEvent => PieceLine(s);
    case TickEvent =>
  }

  /** The accepted writes are those made before the stream was ended. */
  lemma {:induction false} AcceptedWrites(o: Options, es: seq<Event>)
    requires After(o, es).Some?
    ensures var s := After(o, es).value; Submitted(es) == (s.world.accepted, s.ended)
  {
    if es != [] {
      var before := es[..|es| - 1];
      AcceptedWrites(o, before);
      InvHolds(o, before);
      EndedSame(o, After(o, before).value, es[|es| - 1]);
      AcceptedStep(o, After(o, before).value, es[|es| - 1]);
      assert Submitted(before).0 + [] == Submitted(before).0;
    }
  }

  lemma PositiveSum(o: Options, reqs: seq<Req>)
    requires AllPositive(o, reqs)
    ensures reqs != [] ==> Sum(o, reqs) > 0
  {}

  lemma PositiveBuffer(o: Options, s: State)
    requires Inv(o, s) && AllPositive(o, s.world.accepted)
    ensures AllPositive(o, s.buffer)
  {
    forall i | 0 <= i < |s.buffer|
      ensures ChunkLength(o, s.buffer[i].chunk) > 0
    {
      var p := |s.world.written| + i;
      assert |ChunksOf(s.world.accepted)| == |s.world.accepted|;
      assert (s.world.written + ChunksOf(s.buffer))[p] == ChunksOf(s.buffer)[i];
      assert ChunksOf(s.world.accepted)[p] == s.world.accepted[p].chunk;
    }
  }

  /** Chunks reach the sink in the order of the writes; at most one underlying write is
      outstanding; and an idle, uncorked stream of non-empty chunks has nothing buffered. */
  lemma ChunkOrder(o: Options, es: seq<Event>)
    requires After(o, es).Some?
    ensures var s := After(o, es).value;
      && s.world.written + ChunksOf(s.buffer) == ChunksOf(Submitted(es).0)
      && s.world.writes - s.world.completions == (if s.writing then 1 else 0)
      && (AllPositive(o, Submitted(es).0) && !s.writing && s.corked == 0 ==> s.buffer == [])
  {
    InvHolds(o, es);
    AcceptedWrites(o, es);
    var s := After(o, es).value;
    if AllPositive(o, s.world.accepted) {
      PositiveBuffer(o, s);
      PositiveSum(o, s.buffer);
    }
  }

  lemma {:induction false} AccountedHolds(o: Options, es: seq<Event>)
    requires After(o, es).Some?
    ensures Accounted(After(o, es).value)
  {
    if es == [] {
      InitialLine();
    } else {
      var before := es[..|es| - 1];
      AccountedHolds(o, before);
      InvHolds(o, before);
      StepLine(o, After(o, before).value, es[|es| - 1]);
    }
  }

  /** `length` is what is being written and what is buffered; `pendingcb` counts exactly the
      callbacks still owed, a batch counting once more than its writes; and no callback is
      lost or doubled on the way. */
  lemma Accounting(o: Options, es: seq<Event>)
    requires After(o, es).Some?
    ensures var s := After(o, es).value;
      && s.length == s.writelen + Sum(o, s.buffer)
      && s.pendingcb == |s.buffer| + OwedBy(s.writecb) + OwedAll(s.world.ticks) + OwedAll(s.world.running)
      && multiset(Line(s, NoCb)) == multiset(CallbacksOf(Submitted(es).0))
  {
    InvHolds(o, es);
    AcceptedWrites(o, es);
    AccountedHolds(o, es);
  }

  lemma InitialLine()
    ensures Line(INITIAL, NoCb) == [] && CallbacksOf([]) == []
    ensures WillFinish(INITIAL)
  {
    var s := INITIAL;
    assert s.buffer == [] && s.world.running == [] && s.world.ticks == [] && s.world.called == [];
    assert CallbacksOf(s.buffer) == [];
  }

  /** If later completions find no callback due, callbacks are called in the order of the writes. */
  lemma {:induction false} CallbackOrder(o: Options, es: seq<Event>)
    requires After(o, es).Some? && Orderly(o, es)
    ensures InOrder(After(o, es).value)
    ensures After(o, es).value.world.called <= CallbacksOf(Submitted(es).0)
  {
    AcceptedWrites(o, es);
    if es == [] {
      InitialLine();
    } else {
      var before := es[..|es| - 1];
      CallbackOrder(o, before);
      InvHolds(o, before);
      StepLine(o, After(o, before).value, es[|es| - 1]);
    }
    var s := After(o, es).value;
    assert s.world.called <= Line(s, NoCb);
  }

  /** A finished stream has written every chunk and called every callback. */
  lemma FinishedCalls(o: Options, s: State)
    requires Inv(o, s) && Accounted(s) && s.finished
    ensures s.ended && s.world.written == ChunksOf(s.world.accepted)
    ensures multiset(s.world.called) == multiset(CallbacksOf(s.world.accepted))
    ensures s.world.writes == s.world.completions
  {
    FinishedEmpty(o, s);
    NothingPromised(s.world.ticks);
    NothingPromised(s.world.running);
    assert CallbacksOf([]) == [] && ChunksOf([]) == [];
    assert Line(s, NoCb) == s.world.called;
  }

  /** 'finish' is emitted at most once, and only when the stream was ended, every accepted
      chunk has reached the sink, and every callback has been called. */
  lemma FinishIsFinal(o: Options, es: seq<Event>)
    requires After(o, es).Some?
    ensures var s := After(o, es).value;
      && s.world.finishes <= 1
      && (s.world.finishes == 1 ==>
            && Submitted(es).1
            && s.world.written == ChunksOf(Submitted(es).0)
            && multiset(s.world.called) == multiset(CallbacksOf(Submitted(es).0))
            && s.world.writes == s.world.completions)
  {
    InvHolds(o, es);
    AcceptedWrites(o, es);
    AccountedHolds(o, es);
    var s := After(o, es).value;
    if s.world.finishes == 1 {
      FinishedCalls(o, s);
    }
  }

  lemma {:induction false} NothingOwed(t: Task)
    requires Owed(t) == 0
    ensures Promised(t) == []
  {
    if t != [] {
      NothingOwed(t[1..]);
    }
  }

  lemma {:induction false} NothingPromised(ts: seq<Task>)
    requires OwedAll(ts) == 0
    ensures PromisedAll(ts) == []
  {
    if ts != [] {
      NothingOwed(ts[0]);
      NothingPromised(ts[1..]);
    }
  }

  lemma {:induction false} WillFinishHolds(o: Options, es: seq<Event>)
    requires After(o, es).Some? && NoFailures(o) && AllSucceed(es)
    ensures WillFinish(After(o, es).value)
  {
    if es == [] {
      InitialLine();
    } else {
      var before := es[..|es| - 1];
      WillFinishHolds(o, before);
      InvHolds(o, before);
      StepWillFinish(o, After(o, before).value, es[|es| - 1]);
    }
  }

  /** Nothing is outstanding, corked, running or waiting. */
  predicate Idle(s: State) {
    !s.writing && s.corked == 0 && s.world.ticks == [] && s.world.running == []
  }

  /** An ended stream on which nothing failed has emitted 'finish', as soon as it is idle, if
      and only if nothing is left in its buffer. */
  lemma FinishIff(o: Options, es: seq<Event>)
    requires After(o, es).Some? && NoFailures(o) && AllSucceed(es)
    requires Submitted(es).1 && Idle(After(o, es).value)
    ensures var s := After(o, es).value; s.world.finishes == 1 <==> s.buffer == []
  {
    WillFinishHolds(o, es);
    InvHolds(o, es);
    AcceptedWrites(o, es);
    var s := After(o, es).value;
    if s.finished {
      FinishedEmpty(o, s);
    }
  }

  /** So a stream of chunks with something in them always comes to its 'finish'. */
  lemma FinishHappens(o: Options, es: seq<Event>)
    requires After(o, es).Some? && NoFailures(o) && AllSucceed(es)
    requires AllPositive(o, Submitted(es).0) && Submitted(es).1
    requires Idle(After(o, es).value)
    ensures After(o, es).value.world.finishes == 1
  {
    FinishIff(o, es);
    ChunkOrder(o, es);
  }
}
