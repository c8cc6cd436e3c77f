/**
 How the chunks are put together into underlying writes: one by one with `_write`, and everything that
 waits at once with `_writev`.
 */
module WritableBatches {
  import opened Prelude
  import opened Writable
  import opened WritableRuns
  import opened WritableTheorems
  import O = WritableOutcome
  import R = WritableOrder

  /** One underlying write for each chunk. */
  function Singles(chunks: seq<Chunk>): seq<seq<Chunk>> {
    seq(|chunks|, i requires 0 <= i < |chunks| => [chunks[i]])
  }

  /** What processing `waiting` does to the underlying writes: with `_writev` and two or more it begins
      one, which carries everything; otherwise it begins one for each chunk, and stops behind a chunk. */
  ghost predicate Hands(o: Options, s: State, waiting: seq<Req>, r: State) {
    if o.hasWritev && |waiting| > 1 then
      r.world.batches == s.world.batches + [ChunksOf(waiting)] && r.buffer == []
    else
      exists k :: 0 < k <= |waiting| && r.buffer == waiting[k..] && (k < |waiting| ==> r.writing)
                  && r.world.batches == s.world.batches + Singles(ChunksOf(waiting[..k]))
  }

  // ---------------------------------------------------------------- processing the buffer

  lemma WrittenBatch(o: Options, s: State, len: nat, chunks: seq<Chunk>, cb: WriteCb)
    ensures Written(o, s, len, chunks, cb).world.batches == s.world.batches + [chunks]
    ensures Written(o, s, len, chunks, cb).buffer == s.buffer
  {
    var b := BeginWrite(s, len, chunks, cb);
    match o.sink(s.world.writes)
    case Later =>
    case Now(ok) => TickOnly(StateUpdate(b).world, TaskFor(StateUpdate(b), ok, cb));
  }

  lemma SinglesCons(reqs: seq<Req>, batches: seq<seq<Chunk>>)
    requires reqs != []
    ensures batches + [[reqs[0].chunk]] + Singles(ChunksOf(reqs[1..])) == batches + Singles(ChunksOf(reqs))
  {}

  /** How far the loop got from entry `c` on. */
  ghost predicate LoopHands(s: State, c: nat, r: State)
    requires c <= |s.buffer|
  {
    exists k :: c <= k <= |s.buffer| && r.buffer == s.buffer[k..] && (k < |s.buffer| ==> r.writing && c < k)
                && r.world.batches == s.world.batches + Singles(ChunksOf(s.buffer[c..k]))
  }

  lemma LoopNext(s: State, c: nat, s1: State, r: State, k: nat)
    requires c < k <= |s.buffer| && s1.buffer == s.buffer
    requires s1.world.batches == s.world.batches + [[s.buffer[c].chunk]]
    requires r.world.batches == s1.world.batches + Singles(ChunksOf(s.buffer[c + 1..k]))
    ensures r.world.batches == s.world.batches + Singles(ChunksOf(s.buffer[c..k]))
  {
    assert s.buffer[c..k][1..] == s.buffer[c + 1..k];
    SinglesCons(s.buffer[c..k], s.world.batches);
  }

  lemma {:induction false} LoopBatches(o: Options, s: State, c: nat)
    requires s.bufferProcessing && c <= |s.buffer|
    ensures LoopHands(s, c, ClearLoop(o, s, c))
    decreases |s.buffer| - c
  {
    var r := ClearLoop(o, s, c);
    if c == |s.buffer| {
      assert s.buffer[c..c] == [] && ChunksOf([]) == [] && Singles([]) == [];
      assert s.world.batches + [] == s.world.batches;
      assert r.buffer == s.buffer[|s.buffer|..];
    } else {
      var entry := s.buffer[c];
      var len := ChunkLength(o, entry.chunk);
      DoWriteIsWritten(o, s, len, [entry.chunk], One(entry.cb));
      WrittenBatch(o, s, len, [entry.chunk], One(entry.cb));
      var s1 := Written(o, s, len, [entry.chunk], One(entry.cb));
      if s1.writing {
        assert s.buffer[c + 1..c + 1] == [] && ChunksOf([]) == [] && Singles([]) == [];
        assert s1.world.batches + [] == s1.world.batches;
        LoopNext(s, c, s1, r, c + 1);
      } else {
        LoopBatches(o, s1, c + 1);
        var k :| c + 1 <= k <= |s1.buffer| && r.buffer == s1.buffer[k..] && (k < |s1.buffer| ==> r.writing && c + 1 < k)
                 && r.world.batches == s1.world.batches + Singles(ChunksOf(s1.buffer[c + 1..k]));
        LoopNext(s, c, s1, r, k);
      }
    }
  }

  lemma BatchBatches(o: Options, s: State)
    requires s.bufferProcessing && s.length >= 0
    ensures WriteBatch(o, s).world.batches == s.world.batches + [ChunksOf(s.buffer)] && WriteBatch(o, s).buffer == []
  {
    var cb := Batch(CallbacksOf(s.buffer));
    var s1 := s.(pendingcb := s.pendingcb + 1);
    DoWriteIsWritten(o, s1, s.length, ChunksOf(s.buffer), cb);
    WrittenBatch(o, s1, s.length, ChunksOf(s.buffer), cb);
  }

  /** With `_writev` and two or more chunks waiting, exactly one underlying write begins and carries them
      all; otherwise one begins for each chunk. */
  lemma ClearBatches(o: Options, s: State)
    requires !s.bufferProcessing && s.buffer != [] && s.length >= 0
    ensures Hands(o, s, s.buffer, ClearBuffer(o, s))
  {
    var s1 := s.(bufferProcessing := true);
    if o.hasWritev && |s.buffer| > 1 {
      BatchBatches(o, s1);
    } else {
      LoopBatches(o, s1, 0);
      var t := ClearLoop(o, s1, 0);
      var k :| 0 <= k <= |s1.buffer| && t.buffer == s1.buffer[k..] && (k < |s1.buffer| ==> t.writing && 0 < k)
               && t.world.batches == s1.world.batches + Singles(ChunksOf(s1.buffer[0..k]));
      assert s1.buffer[0..k] == s.buffer[..k];
    }
  }

  // ---------------------------------------------------------------- one event

  /** What it depends on. */
  predicate SameWrites(s: State, r: State) {
    r.world.batches == s.world.batches && r.buffer == s.buffer && r.writing == s.writing
  }

  lemma HandsSame(o: Options, s: State, s': State, waiting: seq<Req>, r: State, r': State)
    requires Hands(o, s, waiting, r) && s'.world.batches == s.world.batches && SameWrites(r, r')
    ensures Hands(o, s', waiting, r')
  {}

  /** Nothing was begun, or what waits was handed on. */
  ghost predicate Begins(o: Options, s: State, waiting: seq<Req>, r: State) {
    r.world.batches == s.world.batches || Hands(o, s, waiting, r)
  }

  /** What an event adds to the buffer. */
  function Added(s: State, e: Event): seq<Req> {
    if s.ended then [] else O.NewWrites(e)
  }

  lemma OneHands(o: Options, s: State, req: Req, r: State)
    requires r.buffer == [] && r.world.batches == s.world.batches + [[req.chunk]]
    ensures Hands(o, s, [req], r)
  {
    assert [req][1..] == [] && [req][..1] == [req];
    assert Singles(ChunksOf([req])) == [[req.chunk]];
  }

  lemma WriteBegins(o: Options, s: State, req: Req)
    requires Sound(o, s, NoCb) && !Stranded(s)
    ensures Begins(o, s, s.buffer + (if s.ended then [] else [req]), Write(o, s, req))
    ensures s.corked != 0 && !s.ended ==>
              Write(o, s, req).buffer == s.buffer + [req] && Write(o, s, req).world.batches == s.world.batches
    ensures Write(o, s, req).corked == s.corked
    ensures s.ended ==> SameWrites(s, Write(o, s, req))
  {
    if !s.ended {
      WriteForm(o, s, req);
      if !s.writing && s.corked == 0 {
        var s1, len := Counted(o, s, req), ChunkLength(o, req.chunk);
        WrittenCounts(o, s1, len, [req.chunk], One(req.cb));
        WrittenBatch(o, s1, len, [req.chunk], One(req.cb));
        OneHands(o, s, req, Write(o, s, req));
        assert s.buffer + [req] == [req];
      }
    }
  }

  lemma CompletionBegins(o: Options, s: State, ok: bool)
    requires Sound(o, s, NoCb) && s.writing
    ensures Begins(o, s, s.buffer, OnWrite(o, s, ok))
  {
    var s1 := StateUpdate(s);
    OnWriteForm(o, s, ok);
    UpdateHolds(o, s);
    if Clears(s1, ok) {
      ClearBatches(o, s1);
      HandsSame(o, s1, s, s.buffer, ClearBuffer(o, s1), OnWrite(o, s, ok));
    }
  }

  lemma UncorkBegins(o: Options, s: State)
    requires Sound(o, s, NoCb)
    ensures Begins(o, s, s.buffer, Uncork(o, s))
  {
    if s.corked != 0 {
      var s1 := s.(corked := s.corked - 1);
      if MayClear(s1) && !s1.writing && !s1.finished {
        ClearBatches(o, s1);
        HandsSame(o, s1, s, s.buffer, ClearBuffer(o, s1), Uncork(o, s));
      }
    }
  }

  lemma FullyUncorkBegins(o: Options, s: State)
    requires Sound(o, s, NoCb)
    ensures Begins(o, s, s.buffer, FullyUncork(o, s))
    ensures s.corked == 0 ==> FullyUncork(o, s) == s
  {
    if s.corked != 0 {
      UncorkBegins(o, s.(corked := 1));
      if FullyUncork(o, s).world.batches != s.world.batches {
        HandsSame(o, s.(corked := 1), s, s.buffer, FullyUncork(o, s), FullyUncork(o, s));
      }
    }
  }

  lemma EndWritableWrites(s: State)
    ensures SameWrites(s, EndWritable(s))
  {}

  lemma LastBegins(o: Options, s: State, last: Option<Req>)
    requires Sound(o, s, NoCb) && !Stranded(s)
    ensures Begins(o, s, s.buffer + Added(s, EndCall(last)), FullyUncork(o, WriteLast(o, s, last)))
  {
    var s1 := WriteLast(o, s, last);
    assert s.buffer + [] == s.buffer;
    if last.Some? {
      WriteSound(o, s, last.value);
      WriteBegins(o, s, last.value);
    }
    FullyUncorkBegins(o, s1);
  }

  lemma EndIs(o: Options, s: State, last: Option<Req>)
    ensures var s2 := FullyUncork(o, WriteLast(o, s, last)); End(o, s, last) == s2 || End(o, s, last) == EndWritable(s2)
  {}

  lemma EndBegins(o: Options, s: State, last: Option<Req>)
    requires Sound(o, s, NoCb) && !Stranded(s)
    ensures Begins(o, s, s.buffer + Added(s, EndCall(last)), End(o, s, last))
  {
    var s2 := FullyUncork(o, WriteLast(o, s, last));
    LastBegins(o, s, last);
    EndIs(o, s, last);
    EndWritableWrites(s2);
    if s2.world.batches != s.world.batches {
      HandsSame(o, s, s, s.buffer + Added(s, EndCall(last)), s2, End(o, s, last));
    }
  }

  /** An event either begins no underlying write, or hands on what waits, with the chunk that came
      with it. */
  lemma StepBegins(o: Options, s: State, e: Event)
    requires Sound(o, s, NoCb) && Possible(s, e) && !Stranded(s)
    ensures Begins(o, s, s.buffer + Added(s, e), Step(o, s, e))
  {
    assert s.buffer + [] == s.buffer;
    match e
    case WriteCall(req) => WriteBegins(o, s, req);
    case CorkCall =>
    case UncorkCall => UncorkBegins(o, s);
    case EndCall(last) => EndBegins(o, s, last);
    case Completion(ok) => CompletionBegins(o, s, ok);
    case PieceEvent => PieceRecord(s);
    case TickEvent =>
  }

  lemma SyncForm(o: Options, s: State, ok: bool)
    requires s.sync && !NeedFinish(StateUpdate(s)) && MayClear(StateUpdate(s))
    ensures var s1 := StateUpdate(s);
      var s2 := if ok then ClearBuffer(o, s1) else s1;
      OnWrite(o, s, ok) == s2.(world := Schedule(s2.world, true, TaskFor(s1, ok, s.writecb)))
  {}

  lemma WriteEnters(o: Options, s: State, req: Req)
    requires !s.ended && !s.writing && s.corked == 0
    ensures Write(o, s, req) == DoWrite(o, Counted(o, s, req), ChunkLength(o, req.chunk), [req.chunk], One(req.cb))
  {}

  lemma EntersNow(o: Options, s: State, len: nat, chunks: seq<Chunk>, cb: WriteCb, ok: bool)
    requires o.sink(s.world.writes) == Now(ok)
    ensures DoWrite(o, s, len, chunks, cb) == OnWrite(o, BeginWrite(s, len, chunks, cb), ok).(sync := false)
  {}

  /** `write` when the buffer is stranded and the sink completes at once. */
  lemma StrandedForm(o: Options, s: State, req: Req, ok: bool)
    requires Sound(o, s, NoCb) && Stranded(s) && !s.ended && o.sink(s.world.writes) == Now(ok)
    ensures var b := BeginWrite(Counted(o, s, req), ChunkLength(o, req.chunk), [req.chunk], One(req.cb));
      var s1 := StateUpdate(b);
      var s2 := if ok then ClearBuffer(o, s1) else s1;
      Write(o, s, req) == s2.(sync := false, world := Schedule(s2.world, true, TaskFor(s1, ok, One(req.cb))))
  {
    BegunSound(o, s, req);
    WriteEnters(o, s, req);
    EntersNow(o, Counted(o, s, req), ChunkLength(o, req.chunk), [req.chunk], One(req.cb), ok);
    SyncForm(o, BeginWrite(Counted(o, s, req), ChunkLength(o, req.chunk), [req.chunk], One(req.cb)), ok);
  }

  /** When the buffer is stranded the write that overtakes it is one of its own, and what waits is handed
      on behind it if the sink completes at once. */
  lemma StrandedBegins(o: Options, s: State, req: Req)
    requires Sound(o, s, NoCb) && Stranded(s) && !s.ended
    ensures var b := BeginWrite(Counted(o, s, req), ChunkLength(o, req.chunk), [req.chunk], One(req.cb));
      && b.world.batches == s.world.batches + [[req.chunk]]
      && if o.sink(s.world.writes) == Now(true) then Hands(o, b, s.buffer, Write(o, s, req))
         else Write(o, s, req).world.batches == b.world.batches && Write(o, s, req).buffer == s.buffer
  {
    var b := BeginWrite(Counted(o, s, req), ChunkLength(o, req.chunk), [req.chunk], One(req.cb));
    BegunSound(o, s, req);
    match o.sink(s.world.writes) {
      case Later =>
      case Now(ok) =>
        StrandedForm(o, s, req, ok);
        if ok {
          ClearBatches(o, StateUpdate(b));
          HandsSame(o, StateUpdate(b), b, s.buffer, ClearBuffer(o, StateUpdate(b)), Write(o, s, req));
        }
    }
  }

  // ---------------------------------------------------------------- whole runs

  /** A batch is one chunk, or more with `_writev`. */
  predicate Fits(o: Options, batch: seq<Chunk>) {
    |batch| == 1 || (o.hasWritev && |batch| > 1)
  }

  ghost predicate Carried(o: Options, w: World) {
    && Flatten(w.batches) == w.written && |w.batches| == w.writes
    && forall i :: 0 <= i < |w.batches| ==> Fits(o, w.batches[i])
  }

  /** The record of the underlying writes is the same. */
  predicate SameRecord(w: World, v: World) {
    v.batches == w.batches && v.written == w.written && v.writes == w.writes
  }

  lemma BeginCarried(o: Options, s: State, len: nat, chunks: seq<Chunk>, cb: WriteCb)
    requires Carried(o, s.world) && Fits(o, chunks)
    ensures Carried(o, BeginWrite(s, len, chunks, cb).world)
  {
    FlattenSnoc(s.world.batches, chunks);
  }

  lemma WrittenCarried(o: Options, s: State, len: nat, chunks: seq<Chunk>, cb: WriteCb)
    requires Carried(o, s.world) && Fits(o, chunks)
    ensures Carried(o, Written(o, s, len, chunks, cb).world)
  {
    var b := BeginWrite(s, len, chunks, cb);
    BeginCarried(o, s, len, chunks, cb);
    match o.sink(s.world.writes)
    case Later =>
    case Now(ok) => TickOnly(StateUpdate(b).world, TaskFor(StateUpdate(b), ok, cb));
  }

  lemma {:induction false} LoopCarried(o: Options, s: State, c: nat)
    requires s.bufferProcessing && c <= |s.buffer| && Carried(o, s.world)
    ensures Carried(o, ClearLoop(o, s, c).world)
    decreases |s.buffer| - c
  {
    if c < |s.buffer| {
      var entry := s.buffer[c];
      var len := ChunkLength(o, entry.chunk);
      DoWriteIsWritten(o, s, len, [entry.chunk], One(entry.cb));
      WrittenCarried(o, s, len, [entry.chunk], One(entry.cb));
      var s1 := DoWrite(o, s, len, [entry.chunk], One(entry.cb));
      if !s1.writing {
        LoopCarried(o, s1, c + 1);
      }
    }
  }

  lemma ClearCarried(o: Options, s: State)
    requires !s.bufferProcessing && s.buffer != [] && s.length >= 0 && Carried(o, s.world)
    ensures Carried(o, ClearBuffer(o, s).world)
  {
    var s1 := s.(bufferProcessing := true);
    if o.hasWritev && |s.buffer| > 1 {
      var s2 := s1.(pendingcb := s.pendingcb + 1);
      var cb := Batch(CallbacksOf(s.buffer));
      DoWriteIsWritten(o, s2, s.length, ChunksOf(s.buffer), cb);
      WrittenCarried(o, s2, s.length, ChunksOf(s.buffer), cb);
    } else {
      LoopCarried(o, s1, 0);
    }
  }

  lemma CompletionCarried(o: Options, s: State, ok: bool)
    requires Sound(o, s, NoCb) && s.writing && Carried(o, s.world)
    ensures Carried(o, OnWrite(o, s, ok).world)
  {
    OnWriteForm(o, s, ok);
    UpdateHolds(o, s);
    if Clears(StateUpdate(s), ok) {
      ClearCarried(o, StateUpdate(s));
    }
  }

  lemma StrandedCarried(o: Options, s: State, req: Req)
    requires Sound(o, s, NoCb) && Stranded(s) && !s.ended && Carried(o, s.world)
    ensures Carried(o, Write(o, s, req).world)
  {
    var s1, len := Counted(o, s, req), ChunkLength(o, req.chunk);
    var b := BeginWrite(s1, len, [req.chunk], One(req.cb));
    BeginCarried(o, s1, len, [req.chunk], One(req.cb));
    BegunSound(o, s, req);
    match o.sink(s.world.writes) {
      case Later =>
      case Now(ok) =>
        StrandedForm(o, s, req, ok);
        if ok {
          ClearCarried(o, StateUpdate(b));
        }
    }
  }

  lemma WriteCarried(o: Options, s: State, req: Req)
    requires Sound(o, s, NoCb) && Carried(o, s.world)
    ensures Carried(o, Write(o, s, req).world)
  {
    if !s.ended {
      if Stranded(s) {
        StrandedCarried(o, s, req);
      } else {
        WriteForm(o, s, req);
        WrittenCarried(o, Counted(o, s, req), ChunkLength(o, req.chunk), [req.chunk], One(req.cb));
      }
    }
  }

  lemma UncorkCarried(o: Options, s: State)
    requires Sound(o, s, NoCb) && Carried(o, s.world)
    ensures Carried(o, Uncork(o, s).world)
  {
    if s.corked != 0 {
      var s1 := s.(corked := s.corked - 1);
      if MayClear(s1) && !s1.writing && !s1.finished {
        ClearCarried(o, s1);
      }
    }
  }

  lemma EndCarried(o: Options, s: State, last: Option<Req>)
    requires Sound(o, s, NoCb) && Carried(o, s.world)
    ensures Carried(o, End(o, s, last).world)
  {
    if last.Some? {
      WriteSound(o, s, last.value);
      WriteCarried(o, s, last.value);
    }
    var s1 := WriteLast(o, s, last);
    if s1.corked != 0 {
      UncorkCarried(o, s1.(corked := 1));
    }
    EndWritableCarried(o, FullyUncork(o, s1));
  }

  lemma EndWritableCarried(o: Options, s: State)
    requires Carried(o, s.world)
    ensures Carried(o, EndWritable(s).world)
  {
    EndWritableRecord(s);
  }

  lemma EndWritableRecord(s: State)
    ensures SameRecord(s.world, EndWritable(s).world)
  {}

  lemma PieceRecord(s: State)
    requires s.world.running != []
    ensures SameRecord(s.world, RunPiece(s).world)
  {
    PieceOnly(s);
  }

  lemma StepCarried(o: Options, s: State, e: Event)
    requires Sound(o, s, NoCb) && Possible(s, e) && Carried(o, s.world)
    ensures Carried(o, Step(o, s, e).world)
  {
    match e
    case WriteCall(req) => WriteCarried(o, s, req);
    case CorkCall =>
    case UncorkCall => UncorkCarried(o, s);
    case EndCall(last) => EndCarried(o, s, last);
    case Completion(ok) => CompletionCarried(o, s, ok);
    case PieceEvent => PieceRecord(s);
    case TickEvent =>
  }

  lemma InitialCarried(o: Options)
    ensures Carried(o, INITIAL.world)
  {}

  lemma {:induction false} RunCarried(o: Options, es: seq<Event>)
    requires R.AfterAny(o, es).Some?
    ensures Carried(o, R.AfterAny(o, es).value.world)
  {
    if es == [] {
      InitialCarried(o);
    } else {
      var before := es[..|es| - 1];
      R.AnyRun(o, before);
      RunCarried(o, before);
      StepCarried(o, R.AfterAny(o, before).value, es[|es| - 1]);
    }
  }

  lemma NextAny(o: Options, es: seq<Event>, e: Event)
    requires R.AfterAny(o, es + [e]).Some?
    ensures R.AfterAny(o, es).Some? && Possible(R.AfterAny(o, es).value, e)
    ensures R.AfterAny(o, es + [e]).value == Step(o, R.AfterAny(o, es).value, e)
  {
    assert (es + [e])[..|es|] == es;
  }

  /**
   On every run: the underlying writes together carried what reached the sink, in order. Without
   `_writev` each carried one chunk. With it the next event, unless the buffer is left to nobody, begins
   at most one; that one carries everything that was buffered and the chunk that came with the event, and
   leaves the buffer empty.
   */
  lemma Batches(o: Options, es: seq<Event>, e: Event)
    requires R.AfterAny(o, es + [e]).Some?
    ensures R.AfterAny(o, es).Some?
    ensures var s, r := R.AfterAny(o, es).value, R.AfterAny(o, es + [e]).value;
      && Flatten(r.world.batches) == r.world.written && |r.world.batches| == r.world.writes
      && (!o.hasWritev ==> forall i :: 0 <= i < |r.world.batches| ==> |r.world.batches[i]| == 1)
      && (o.hasWritev && !Stranded(s) && r.world.batches != s.world.batches ==>
            && r.world.batches == s.world.batches + [ChunksOf(s.buffer + Added(s, e))]
            && r.buffer == [])
  {
    NextAny(o, es, e);
    RunCarried(o, es + [e]);
    R.AnyRun(o, es);
    var s, r := R.AfterAny(o, es).value, R.AfterAny(o, es + [e]).value;
    assert forall i :: 0 <= i < |r.world.batches| ==> Fits(o, r.world.batches[i]);
    if !Stranded(s) {
      StepBegins(o, s, e);
    }
    if o.hasWritev && !Stranded(s) && r.world.batches != s.world.batches {
      OnlyOne(o, s, s.buffer + Added(s, e), r);
    }
  }

  /** One chunk alone is a batch too. */
  lemma OnlyOne(o: Options, s: State, waiting: seq<Req>, r: State)
    requires o.hasWritev && Hands(o, s, waiting, r)
    ensures r.world.batches == s.world.batches + [ChunksOf(waiting)] && r.buffer == []
  {
    if |waiting| <= 1 {
      var k :| 0 < k <= |waiting| && r.buffer == waiting[k..] && (k < |waiting| ==> r.writing)
               && r.world.batches == s.world.batches + Singles(ChunksOf(waiting[..k]));
      assert waiting[..1] == waiting && ChunksOf(waiting) == [waiting[0].chunk];
      assert Singles(ChunksOf(waiting)) == [ChunksOf(waiting)];
    }
  }

  // ---------------------------------------------------------------- what counts

  /** Objects count one each, everything else by its length. */
  function Size(o: Options, chunks: seq<Chunk>): nat {
    if o.objectMode then |chunks| else |Flatten(chunks)|
  }

  lemma {:induction false} SumIsSize(o: Options, reqs: seq<Req>)
    ensures Sum(o, reqs) == Size(o, ChunksOf(reqs))
  {
    if reqs != [] {
      SumIsSize(o, reqs[1..]);
      assert ChunksOf(reqs)[1..] == ChunksOf(reqs[1..]) && ChunksOf(reqs)[0] == reqs[0].chunk;
    }
  }

  /** On every run `length` is what the outstanding write was counted as, and the size of what is buffered; and
      'drain' and the answer of `write` go by that. */
  lemma LengthIsSize(o: Options, es: seq<Event>, req: Req)
    requires R.AfterAny(o, es).Some?
    ensures var s := R.AfterAny(o, es).value;
      && s.length == s.writelen + Size(o, ChunksOf(s.buffer))
      && s.length + ChunkLength(o, req.chunk) == s.writelen + Size(o, ChunksOf(s.buffer + [req]))
  {
    R.AnyAccounting(o, es);
    var s := R.AfterAny(o, es).value;
    SumIsSize(o, s.buffer);
    SumIsSize(o, s.buffer + [req]);
    SumSnoc(o, s.buffer, req);
  }
}
