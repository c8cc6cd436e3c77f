/**
 What keeps a Writable stream from its 'finish', and what a failure does to the order: which
 step leaves chunks behind, and two short runs in which it happens.
 */
module WritableLimits {
  import opened Prelude
  import opened Writable
  import opened WritableRuns
  import opened WritableTheorems

  /** What a successful completion finds when it strands the buffer: the stream was ended, and
      everything that waits is empty. */
  predicate OnlyEmptyLeft(o: Options, s: State) {
    s.corked == 0 && s.ended && s.buffer != [] && Sum(o, s.buffer) == 0
  }

  lemma CompletionStrands(o: Options, s: State, ok: bool)
    requires Inv(o, s) && Allowed(s, Completion(ok))
    ensures Stranded(OnWrite(o, s, ok)) <==> ok && OnlyEmptyLeft(o, s)
    ensures ok && OnlyEmptyLeft(o, s) <==> ok && NeedFinish(StateUpdate(s)) && s.corked == 0 && s.buffer != []
  {
    var s1 := StateUpdate(s);
    UpdateHolds(o, s);
    OnWriteForm(o, s, ok);
    if Clears(s1, ok) {
      ClearKeeps(o, s1, s.writecb);
    }
  }

  lemma WriteStrands(o: Options, s: State, req: Req)
    requires Inv(o, s)
    ensures Stranded(Write(o, s, req)) <==> Stranded(s)
  {
    if !s.ended {
      WriteForm(o, s, req);
      WriteKeeps(o, s, req);
      if !s.writing && s.corked == 0 {
        WrittenCounts(o, Counted(o, s, req), ChunkLength(o, req.chunk), [req.chunk], One(req.cb));
      }
    }
  }

  lemma UncorkStrands(o: Options, s: State)
    requires Inv(o, s)
    ensures Stranded(Uncork(o, s)) <==> Stranded(s)
  {
    if s.corked != 0 {
      var s1 := s.(corked := s.corked - 1);
      if s.finished {
        FinishedEmpty(o, s);
      } else if MayClear(s1) && !s1.writing {
        ClearKeeps(o, s1, NoCb);
      }
    }
  }

  lemma FullyUncorkStrands(o: Options, s: State)
    requires Inv(o, s)
    ensures Stranded(FullyUncork(o, s)) <==> Stranded(s)
  {
    if s.corked != 0 {
      UncorkStrands(o, s.(corked := 1));
    }
  }

  lemma EndWritableStrands(s: State)
    ensures Stranded(EndWritable(s)) <==> Stranded(s)
  {}

  lemma EndStrands(o: Options, s: State, last: Option<Req>)
    requires Inv(o, s)
    ensures Stranded(End(o, s, last)) <==> Stranded(s)
  {
    if last.Some? {
      WriteStrands(o, s, last.value);
      WriteKeeps(o, s, last.value);
    }
    var s1 := WriteLast(o, s, last);
    FullyUncorkStrands(o, s1);
    EndWritableStrands(FullyUncork(o, s1));
  }

  /** What being stranded depends on did not change. */
  predicate SameParts(s: State, r: State) {
    r.writing == s.writing && r.corked == s.corked && r.buffer == s.buffer
  }

  lemma PieceParts(s: State)
    requires s.world.running != []
    ensures SameParts(s, RunPiece(s))
  {
    PieceOnly(s);
  }

  lemma StrandedBy(s: State, r: State)
    requires SameParts(s, r)
    ensures Stranded(r) <==> Stranded(s)
  {}

  lemma PieceStrands(s: State)
    requires s.world.running != []
    ensures Stranded(RunPiece(s)) <==> Stranded(s)
  {
    PieceParts(s);
    StrandedBy(s, RunPiece(s));
  }

  lemma TickStrands(s: State)
    requires s.world.running == [] && s.world.ticks != []
    ensures Stranded(Tick(s)) <==> Stranded(s)
  {}

  /** Which step strands the buffer, and which one picks it up again: a stream becomes stranded
      exactly by a successful completion that finds only empty chunks after `end`, and leaves
      that state exactly by being corked. */
  lemma StepStrands(o: Options, s: State, e: Event)
    requires Inv(o, s) && Allowed(s, e)
    ensures !Stranded(s) ==> (Stranded(Step(o, s, e)) <==> e == Completion(true) && OnlyEmptyLeft(o, s))
    ensures Stranded(s) ==> (Stranded(Step(o, s, e)) <==> !e.CorkCall?)
  {
    match e
    case WriteCall(req) => WriteStrands(o, s, req);
    case CorkCall =>
    case UncorkCall => UncorkStrands(o, s);
    case EndCall(last) => EndStrands(o, s, last);
    case Completion(ok) => CompletionStrands(o, s, ok);
    case PieceEvent => PieceStrands(s);
    case TickEvent => TickStrands(s);
  }

  const SLOW := Options(false, 16384, false, (k: nat) => Later)

  /** A later completion that fails while something is buffered lets the next write overtake it. */
  lemma FailureReorders()
    ensures var a, b, c := Req([1], 0), Req([2], 1), Req([3], 2);
      var s := Write(SLOW, OnWrite(SLOW, Write(SLOW, Write(SLOW, INITIAL, a), b), false), c);
      s.world.accepted == [a, b, c] && s.world.written == [[1], [3]] && s.buffer == [b]
  {
    var a, b, c := Req([1], 0), Req([2], 1), Req([3], 2);
    var s1 := Write(SLOW, INITIAL, a);
    var s2 := Write(SLOW, s1, b);
    var s3 := OnWrite(SLOW, s2, false);
    assert s1.writing && s1.world.written == [[1]];
    assert s2.buffer == [b] && s2.world.accepted == [a, b];
    assert !s3.writing && s3.buffer == [b];
  }

  /** An empty chunk still buffered at `end` is never written, and 'finish' never comes:
      no task is left and no underlying write is outstanding. */
  lemma EmptyChunkSticks()
    ensures var a, b := Req([1], 0), Req([], 1);
      var s0 := End(SLOW, Write(SLOW, Write(SLOW, INITIAL, a), b), None);
      var s := RunPiece(RunPiece(RunPiece(OnWrite(SLOW, s0, true))));
      && s.buffer == [b] && !s.writing && s.corked == 0 && s.ended && s.world.finishes == 0
      && s.world.ticks == [] && s.world.running == []
  {}
}
