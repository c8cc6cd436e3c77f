/**
 The order of the chunks on every run, also where completions fail with chunks waiting behind
 them: `onwriteError` then leaves the buffer to itself, and the next write goes past it.
 */
module WritableOrder {
  import opened Prelude
  import opened Writable
  import opened WritableRuns
  import opened WritableTheorems
  import O = WritableOutcome

  /** The state after the events, whichever completions fail. */
  function AfterAny(o: Options, es: seq<Event>): Option<State> {
    if es == [] then Some(INITIAL)
    else
      match AfterAny(o, es[..|es| - 1])
      case None => None
      case Some(s) => if Possible(s, es[|es| - 1]) then Some(Step(o, s, es[|es| - 1])) else None
  }

  lemma {:induction false} AfterIsAny(o: Options, es: seq<Event>)
    requires After(o, es).Some?
    ensures AfterAny(o, es) == After(o, es)
  {
    if es != [] {
      AfterIsAny(o, es[..|es| - 1]);
    }
  }

  /** A write that is accepted while the buffer is stranded. */
  predicate Overtakes(s: State, e: Event) {
    Stranded(s) && !s.ended && O.NewWrites(e) != []
  }

  /** There was one. */
  predicate Overtaken(o: Options, es: seq<Event>) {
    es != [] &&
    var before := es[..|es| - 1];
    Overtaken(o, before) || (AfterAny(o, before).Some? && Overtakes(AfterAny(o, before).value, es[|es| - 1]))
  }

  // ---------------------------------------------------------------- one step

  /** The line behind one event: the same, or with the new chunk in its place. */
  predicate Moved(s: State, e: Event, r: State) {
    if s.ended || O.NewWrites(e) == [] then SameLine(s, r) else Accepts(s, O.NewWrites(e)[0], r)
  }

  /** Every event keeps the accounting, and puts at most one chunk into the line. */
  lemma StepMoves(o: Options, s: State, e: Event)
    requires Sound(o, s, NoCb) && Possible(s, e)
    ensures var r := Step(o, s, e); Sound(o, r, NoCb) && Moved(s, e, r) && r.ended == (s.ended || e.EndCall?)
  {
    match e
    case WriteCall(req) => WriteSound(o, s, req);
    case CorkCall =>
    case UncorkCall => UncorkSound(o, s);
    case EndCall(last) => EndSound(o, s, last);
    case Completion(ok) =>
      CompletionKeeps(o, s, ok);
      O.CompletionEnded(o, s, ok);
    case PieceEvent => PieceMoves(o, s);
    case TickEvent => TickSound(o, s);
  }

  lemma PieceMoves(o: Options, s: State)
    requires Sound(o, s, NoCb) && s.world.running != []
    ensures var r := RunPiece(s); Sound(o, r, NoCb) && SameLine(s, r) && r.ended == s.ended
  {
    PieceSound(o, s);
    PieceEnded(s);
  }

  lemma PieceEnded(s: State)
    requires s.world.running != []
    ensures RunPiece(s).ended == s.ended
  {
    PieceOnly(s);
  }

  /** A new chunk goes to the sink in front of the stranded buffer, whatever the sink does. */
  lemma OvertakingWrite(o: Options, s: State, req: Req)
    requires Sound(o, s, NoCb) && Stranded(s) && !s.ended
    ensures var r := Write(o, s, req);
      r.world.written + ChunksOf(r.buffer) == s.world.written + [req.chunk] + ChunksOf(s.buffer)
  {
    WriteSound(o, s, req);
  }

  lemma StepTidy(o: Options, s: State, e: Event)
    requires Sound(o, s, NoCb) && Possible(s, e) && Tidy(s) && !e.Completion?
    ensures Tidy(Step(o, s, e))
  {
    match e
    case WriteCall(req) => WriteSound(o, s, req);
    case CorkCall =>
    case UncorkCall => UncorkSound(o, s);
    case EndCall(last) => EndSound(o, s, last);
    case PieceEvent => PieceSound(o, s);
    case TickEvent => TickSound(o, s);
  }

  /** The buffer of a stream that is not ended gets stranded exactly by a completion that fails with
      chunks waiting behind it, uncorked. */
  lemma FailureStrands(o: Options, s: State, e: Event)
    requires Sound(o, s, NoCb) && Possible(s, e) && !Stranded(s) && !s.ended && !e.EndCall?
    ensures Stranded(Step(o, s, e)) <==> e == Completion(false) && s.corked == 0 && s.buffer != []
  {
    StepMoves(o, s, e);
    if e.Completion? {
      CompletionKeeps(o, s, e.ok);
    } else {
      StepTidy(o, s, e);
    }
  }

  // ---------------------------------------------------------------- lines of chunks

  function Inserted<T>(line: seq<T>, k: nat, x: T): seq<T>
    requires k <= |line|
  {
    line[..k] + [x] + line[k..]
  }

  /** Two places have changed their order. */
  ghost predicate Swapped<T>(line: seq<T>, given: seq<T>) {
    exists a, b, p, q :: 0 <= a < b < |given| && 0 <= q < p < |line| && line[p] == given[a] && line[q] == given[b]
  }

  lemma InsertedAt<T>(line: seq<T>, k: nat, x: T, p: nat)
    requires k <= |line| && p < |line|
    ensures Inserted(line, k, x)[if p < k then p else p + 1] == line[p]
  {}

  lemma StaysSwapped<T>(line: seq<T>, given: seq<T>, k: nat, x: T)
    requires k <= |line| && Swapped(line, given)
    ensures Swapped(Inserted(line, k, x), given + [x])
  {
    var a, b, p, q :|
      0 <= a < b < |given| && 0 <= q < p < |line| && line[p] == given[a] && line[q] == given[b];
    InsertedAt(line, k, x, p);
    InsertedAt(line, k, x, q);
    var p', q' := if p < k then p else p + 1, if q < k then q else q + 1;
    assert (given + [x])[a] == given[a] && (given + [x])[b] == given[b];
    assert 0 <= q' < p' < |Inserted(line, k, x)|;
  }

  lemma GetsSwapped<T>(line: seq<T>, given: seq<T>, k: nat, x: T)
    requires k < |line| && multiset(line) == multiset(given)
    ensures Swapped(Inserted(line, k, x), given + [x])
  {
    assert line[k] in multiset(line);
    var a :| 0 <= a < |given| && given[a] == line[k];
    var b, longer := |given|, Inserted(line, k, x);
    assert (given + [x])[a] == given[a] && (given + [x])[b] == x;
    InsertedAt(line, k, x, k);
    assert longer[k] == x;
  }

  lemma SwappedDiffers<T>(line: seq<T>, given: seq<T>)
    requires Swapped(line, given) && forall i, j :: 0 <= i < j < |given| ==> given[i] != given[j]
    ensures line != given
  {}

  lemma InsertedCount<T>(line: seq<T>, given: seq<T>, k: nat, x: T)
    requires k <= |line| && multiset(line) == multiset(given)
    ensures multiset(Inserted(line, k, x)) == multiset(given + [x])
  {
    assert line == line[..k] + line[k..];
  }

  /** Where the new chunk goes. */
  function Place(s: State): (k: nat)
    ensures k <= |ChunkLine(s)| && (k < |ChunkLine(s)| ==> Stranded(s))
    ensures Stranded(s) ==> k < |ChunkLine(s)|
  {
    if Stranded(s) then |s.world.written| else |ChunkLine(s)|
  }

  lemma AcceptsInserts(s: State, req: Req, r: State)
    requires !s.ended && Accepts(s, req, r)
    ensures ChunkLine(r) == Inserted(ChunkLine(s), Place(s), req.chunk)
    ensures ChunksOf(r.world.accepted) == ChunksOf(s.world.accepted) + [req.chunk]
  {
    var line := ChunkLine(s);
    SnocOf(s.world.accepted, req);
    if Stranded(s) {
      assert line[..|s.world.written|] == s.world.written && line[|s.world.written|..] == ChunksOf(s.buffer);
    } else {
      assert line[..|line|] == line && line[|line|..] == [] && line + [req.chunk] + [] == line + [req.chunk];
    }
  }

  /** All chunks are there; in order if no write overtook others, and otherwise two have changed places. */
  ghost predicate LineOk(s: State, overtaken: bool) {
    var line, given := ChunkLine(s), ChunksOf(s.world.accepted);
    multiset(line) == multiset(given) && if overtaken then Swapped(line, given) else line == given
  }

  lemma AcceptsOk(s: State, req: Req, r: State, overtaken: bool)
    requires LineOk(s, overtaken) && !s.ended && Accepts(s, req, r)
    ensures LineOk(r, overtaken || Stranded(s))
  {
    var line, given, k := ChunkLine(s), ChunksOf(s.world.accepted), Place(s);
    AcceptsInserts(s, req, r);
    InsertedCount(line, given, k, req.chunk);
    if overtaken {
      StaysSwapped(line, given, k, req.chunk);
    } else if Stranded(s) {
      GetsSwapped(line, given, k, req.chunk);
    } else {
      assert line[..k] == line && line[k..] == [];
    }
  }

  // ---------------------------------------------------------------- whole runs

  lemma AnyStep(o: Options, s: State, e: Event, overtaken: bool)
    requires Sound(o, s, NoCb) && Possible(s, e) && LineOk(s, overtaken)
    ensures var r := Step(o, s, e);
      && Sound(o, r, NoCb) && LineOk(r, overtaken || Overtakes(s, e)) && r.ended == (s.ended || e.EndCall?)
      && r.world.accepted == s.world.accepted + (if s.ended then [] else O.NewWrites(e))
  {
    StepMoves(o, s, e);
    if !s.ended && O.NewWrites(e) != [] {
      AcceptsOk(s, O.NewWrites(e)[0], Step(o, s, e), overtaken);
      assert O.NewWrites(e) == [O.NewWrites(e)[0]];
    } else {
      assert s.world.accepted + [] == s.world.accepted;
    }
  }

  ghost predicate RunOk(o: Options, s: State, overtaken: bool, submitted: (seq<Req>, bool)) {
    Sound(o, s, NoCb) && LineOk(s, overtaken) && submitted == (s.world.accepted, s.ended)
  }

  lemma AnyStart(o: Options, s: State)
    requires Inv(o, s) && s.world.accepted == [] && !s.ended
    ensures RunOk(o, s, false, ([], false))
  {}

  lemma AnyNext(o: Options, s: State, e: Event, overtaken: bool, submitted: (seq<Req>, bool))
    requires RunOk(o, s, overtaken, submitted) && Possible(s, e)
    ensures var reqs := submitted.0 + O.NewWrites(e);
      RunOk(o, Step(o, s, e), overtaken || Overtakes(s, e), if s.ended then submitted else (reqs, e.EndCall?))
  {
    AnyStep(o, s, e, overtaken);
    assert s.world.accepted + [] == s.world.accepted;
  }

  lemma {:induction false} AnyRun(o: Options, es: seq<Event>)
    requires AfterAny(o, es).Some?
    ensures RunOk(o, AfterAny(o, es).value, Overtaken(o, es), O.Submitted(es))
  {
    if es == [] {
      InitialInv(o);
      AnyStart(o, INITIAL);
    } else {
      var before, e := es[..|es| - 1], es[|es| - 1];
      AnyRun(o, before);
      AnyNext(o, AfterAny(o, before).value, e, Overtaken(o, before), O.Submitted(before));
    }
  }

  /**
   On every run, whichever completions fail: no chunk is lost or doubled, and at most one underlying
   write is outstanding. The chunks are in the order of the writes if no write was accepted while
   the buffer was stranded; and if the chunks are all different, so that their order can be told,
   only then.
   */
  lemma OrderIff(o: Options, es: seq<Event>)
    requires AfterAny(o, es).Some?
    ensures var s := AfterAny(o, es).value; var given := ChunksOf(O.Submitted(es).0);
      && multiset(s.world.written + ChunksOf(s.buffer)) == multiset(given)
      && s.world.writes - s.world.completions == (if s.writing then 1 else 0)
      && (!Overtaken(o, es) ==> s.world.written + ChunksOf(s.buffer) == given)
      && ((forall i, j :: 0 <= i < j < |given| ==> given[i] != given[j]) ==>
            (s.world.written + ChunksOf(s.buffer) == given <==> !Overtaken(o, es)))
  {
    AnyRun(o, es);
    var s := AfterAny(o, es).value;
    var line, given := ChunkLine(s), ChunksOf(s.world.accepted);
    if Overtaken(o, es) && forall i, j :: 0 <= i < j < |given| ==> given[i] != given[j] {
      SwappedDiffers(line, given);
    }
  }

  /** On every run the accounting is exact too; and 'finish' is emitted at most once, with nothing
      left in the buffer or outstanding. */
  lemma AnyAccounting(o: Options, es: seq<Event>)
    requires AfterAny(o, es).Some?
    ensures var s := AfterAny(o, es).value;
      && s.length == s.writelen + Sum(o, s.buffer)
      && s.pendingcb == |s.buffer| + OwedBy(s.writecb) + OwedAll(s.world.ticks) + OwedAll(s.world.running)
      && s.world.finishes <= 1
      && (s.world.finishes == 1 ==> O.Submitted(es).1 && s.buffer == [] && s.world.writes == s.world.completions)
  {
    AnyRun(o, es);
    var s := AfterAny(o, es).value;
    if s.finished {
      FinishedEmpty(o, s);
    }
  }
}
