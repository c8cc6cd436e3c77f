/**
 The Writable stream of lib/_stream_writable.js.

 `State` and the functions over it specify each operation; class `WritableStream` is the
 source's mutable state object, whose methods are proved to do exactly that.

 The underlying `_write`/`_writev` is an arbitrary `sink`: for the k-th underlying write
 it either completes before returning, with or without an error, or completes later.
 A completion that happens later arrives as its own event. `process.nextTick` is a queue
 of tasks. A task is a list of pieces: user code called back by one piece may use the
 stream before the next piece runs, so pieces are separate steps.
 */
module Writable {
  import opened Prelude

  datatype Outcome = Later | Now(ok: bool)

  datatype Options = Options(objectMode: bool, highWaterMark: int, hasWritev: bool, sink: nat -> Outcome)

  type Chunk = seq<int>

  /** A buffered write: the chunk and the identity of its callback. */
  datatype Req = Req(chunk: Chunk, cb: nat)

  /** `writecb`: nothing, one user callback, or the callback made for a `_writev` batch. */
  datatype WriteCb = NoCb | One(cb: nat) | Batch(cbs: seq<nat>)

  /** The parts of `afterWrite`, of the batch callback and of the error path. */
  datatype Piece =
    | Drain               // emit 'drain' if everything was written
    | Release             // pendingcb-- for the batch itself
    | Call(cb: nat)       // pendingcb--, then the user's callback
    | Refuse(refused: nat) // the callback of a write after end
    | Finish              // finishMaybe

  type Task = seq<Piece>

  /** The surroundings of the stream, and what happened so far. */
  datatype World = World(
    ticks: seq<Task>,       // process.nextTick
    running: seq<Task>,     // tasks being run, innermost first
    written: seq<Chunk>,    // chunks handed to the sink, in order
    batches: seq<seq<Chunk>>, // the same by underlying write
    writes: nat,            // underlying writes begun
    completions: nat,       // underlying writes completed
    accepted: seq<Req>,     // writes accepted, in order
    called: seq<nat>,       // callbacks of accepted writes called, in order
    drains: nat,            // 'drain' events emitted
    finishes: nat)          // 'finish' events emitted

  datatype State = State(
    length: int,
    needDrain: bool,
    ending: bool,
    ended: bool,
    finished: bool,
    prefinished: bool,
    writing: bool,
    corked: nat,
    sync: bool,
    bufferProcessing: bool,
    writelen: int,
    writecb: WriteCb,
    buffer: seq<Req>,
    pendingcb: int,
    world: World)

  const INITIAL := State(0, false, false, false, false, false, false, 0, true, false, 0, NoCb, [], 0,
                         World([], [], [], [], 0, 0, [], [], 0, 0))

  function ChunkLength(o: Options, chunk: Chunk): nat {
    if o.objectMode then 1 else |chunk|
  }

  function ChunksOf(reqs: seq<Req>): seq<Chunk> {
    seq(|reqs|, i requires 0 <= i < |reqs| => reqs[i].chunk)
  }

  function CallbacksOf(reqs: seq<Req>): seq<nat> {
    seq(|reqs|, i requires 0 <= i < |reqs| => reqs[i].cb)
  }

  function Calls(cbs: seq<nat>): Task {
    seq(|cbs|, i requires 0 <= i < |cbs| => Call(cbs[i]))
  }

  /** What the callback of an underlying write does. */
  function Settle(cb: WriteCb): Task {
    match cb
    case NoCb => []
    case One(c) => [Call(c)]
    case Batch(cs) => [Release] + Calls(cs)
  }

  function AfterWrite(finished: bool, cb: WriteCb): Task {
    (if finished then [] else [Drain]) + Settle(cb) + [Finish]
  }

  function Schedule(w: World, sync: bool, task: Task): World {
    if sync then w.(ticks := w.ticks + [task]) else w.(running := [task] + w.running)
  }

  predicate NeedFinish(s: State) {
    s.ending && s.length == 0 && !s.finished && !s.writing
  }

  function FinishMaybe(s: State): State {
    if NeedFinish(s) then
      if s.pendingcb == 0 then
        s.(prefinished := true, finished := true, world := s.world.(finishes := s.world.finishes + 1))
      else s.(prefinished := true)
    else s
  }

  /** The state in which `_write` or `_writev` is entered. */
  function BeginWrite(s: State, len: nat, chunks: seq<Chunk>, cb: WriteCb): State {
    s.(writelen := len, writecb := cb, writing := true, sync := true,
       world := s.world.(written := s.world.written + chunks, batches := s.world.batches + [chunks],
                         writes := s.world.writes + 1))
  }

  function DoWrite(o: Options, s: State, len: nat, chunks: seq<Chunk>, cb: WriteCb): (r: State)
    ensures s.bufferProcessing ==> r.bufferProcessing && r.buffer == s.buffer
    decreases if s.bufferProcessing then 0 else 1, 3
  {
    var s1 := BeginWrite(s, len, chunks, cb);
    var s2 := match o.sink(s.world.writes)
      case Later => s1
      case Now(ok) => OnWrite(o, s1, ok);
    s2.(sync := false)
  }

  function StateUpdate(s: State): State {
    s.(writing := false, writecb := NoCb, length := s.length - s.writelen, writelen := 0,
       world := s.world.(completions := s.world.completions + 1))
  }

  function OnWrite(o: Options, s: State, ok: bool): (r: State)
    ensures s.bufferProcessing ==> r.bufferProcessing && r.buffer == s.buffer
    decreases if s.bufferProcessing then 0 else 1, 2
  {
    var s1 := StateUpdate(s);
    if !ok then s1.(world := Schedule(s1.world, s.sync, Settle(s.writecb)))
    else
      var s2 := if MayClear(s1) && !NeedFinish(s1) then ClearBuffer(o, s1) else s1;
      s2.(world := Schedule(s2.world, s.sync, AfterWrite(NeedFinish(s1), s.writecb)))
  }

  /** The buffer may be processed: uncorked, not already being processed, and not empty. */
  predicate MayClear(s: State) {
    s.corked == 0 && !s.bufferProcessing && s.buffer != []
  }

  function ClearBuffer(o: Options, s: State): (r: State)
    requires !s.bufferProcessing && s.buffer != []
    decreases 1, 1
  {
    var s1 := s.(bufferProcessing := true);
    var s2 := if o.hasWritev && |s.buffer| > 1 then WriteBatch(o, s1) else ClearLoop(o, s1, 0);
    s2.(bufferProcessing := false)
  }

  /** The fast path: the whole buffer in one `_writev`, whose callback is counted as well. */
  function WriteBatch(o: Options, s: State): (r: State)
    requires s.bufferProcessing
    decreases 0, 4, 0
  {
    DoWrite(o, s.(pendingcb := s.pendingcb + 1), if s.length < 0 then 0 else s.length,
            ChunksOf(s.buffer), Batch(CallbacksOf(s.buffer))).(buffer := [])
  }

  /** The slow path from entry `c` on. */
  function ClearLoop(o: Options, s: State, c: nat): (r: State)
    requires s.bufferProcessing && c <= |s.buffer|
    decreases 0, 4, |s.buffer| - c
  {
    if c == |s.buffer| then s.(buffer := [])
    else
      var entry := s.buffer[c];
      var s1 := DoWrite(o, s, ChunkLength(o, entry.chunk), [entry.chunk], One(entry.cb));
      if s1.writing then s1.(buffer := s.buffer[c + 1..]) else ClearLoop(o, s1, c + 1)
  }

  function WriteOrBuffer(o: Options, s: State, req: Req): State {
    var len := ChunkLength(o, req.chunk);
    var s1 := s.(length := s.length + len, needDrain := s.length + len >= o.highWaterMark);
    if s1.writing || s1.corked != 0 then s1.(buffer := s1.buffer + [req])
    else DoWrite(o, s1, len, [req.chunk], One(req.cb))
  }

  function Write(o: Options, s: State, req: Req): State {
    if s.ended then s.(world := Schedule(s.world, true, [Refuse(req.cb)]))
    else
      var w := s.world.(accepted := s.world.accepted + [req]);
      WriteOrBuffer(o, s.(pendingcb := s.pendingcb + 1, world := w), req)
  }

  function Cork(s: State): State {
    s.(corked := s.corked + 1)
  }

  function Uncork(o: Options, s: State): State {
    if s.corked == 0 then s
    else
      var s1 := s.(corked := s.corked - 1);
      if MayClear(s1) && !s1.writing && !s1.finished then ClearBuffer(o, s1) else s1
  }

  function EndWritable(s: State): State {
    FinishMaybe(s.(ending := true)).(ended := true)
  }

  function End(o: Options, s: State, last: Option<Req>): State {
    var s1 := FullyUncork(o, WriteLast(o, s, last));
    if !s1.ending && !s1.finished then EndWritable(s1) else s1
  }

  function WriteLast(o: Options, s: State, last: Option<Req>): State {
    match last
    case None => s
    case Some(req) => Write(o, s, req)
  }

  function FullyUncork(o: Options, s: State): State {
    if s.corked != 0 then Uncork(o, s.(corked := 1)) else s
  }

  /** The state with the next piece taken off the innermost task. */
  function Taken(s: State): State
    requires s.world.running != []
  {
    var task := s.world.running[0];
    s.(world := s.world.(running := if task == [] then s.world.running[1..] else [task[1..]] + s.world.running[1..]))
  }

  /** The check for 'drain' finds that everything was written, and that somebody waits. */
  predicate EmitsDrain(s: State, p: Piece) {
    p == Drain && s.length == 0 && s.needDrain
  }

  function Perform(s: State, p: Piece): State {
    if p == Finish then FinishMaybe(s)
    else
      s.(needDrain := s.needDrain && !EmitsDrain(s, p),
         pendingcb := if p.Call? || p.Release? then s.pendingcb - 1 else s.pendingcb,
         world := s.world.(called := if p.Call? then s.world.called + [p.cb] else s.world.called,
                           drains := if EmitsDrain(s, p) then s.world.drains + 1 else s.world.drains))
  }

  /** Runs the next piece of the innermost task. */
  function RunPiece(s: State): State
    requires s.world.running != []
  {
    if s.world.running[0] == [] then Taken(s) else Perform(Taken(s), s.world.running[0][0])
  }

  function Tick(s: State): State
    requires s.world.running == [] && s.world.ticks != []
  {
    s.(world := s.world.(running := [s.world.ticks[0]], ticks := s.world.ticks[1..]))
  }

  /** The source's state object, with the sink and the tick queue around it. */
  class WritableStream {
    const o: Options
    var length: int
    var needDrain: bool
    var ending: bool
    var ended: bool
    var finished: bool
    var prefinished: bool
    var writing: bool
    var corked: nat
    var sync: bool
    var bufferProcessing: bool
    var writelen: int
    var writecb: WriteCb
    var buffer: seq<Req>
    var pendingcb: int
    var world: World

    ghost function Abs(): State
      reads this
    {
      State(length, needDrain, ending, ended, finished, prefinished, writing, corked, sync, bufferProcessing,
            writelen, writecb, buffer, pendingcb, world)
    }

    constructor (options: Options)
      ensures o == options && Abs() == INITIAL
    {
      o := options;
      length, needDrain, ending, ended, finished, prefinished := 0, false, false, false, false, false;
      writing, corked, sync, bufferProcessing, writelen, writecb := false, 0, true, false, 0, NoCb;
      buffer, pendingcb, world := [], 0, World([], [], [], [], 0, 0, [], [], 0, 0);
    }

    /** `state.length < state.highWaterMark` is what the caller of `write` is told. */
    method WriteChunk(req: Req) returns (ret: bool)
      modifies this
      ensures Abs() == Write(o, old(Abs()), req)
      ensures ret == (!old(ended) && old(length) + ChunkLength(o, req.chunk) < o.highWaterMark)
    {
      if ended {
        world := Schedule(world, true, [Refuse(req.cb)]);
        ret := false;
      } else {
        world := world.(accepted := world.accepted + [req]);
        pendingcb := pendingcb + 1;
        ret := WriteOrBufferChunk(req);
      }
    }

    method Count(len: nat) returns (ret: bool)
      modifies this`length, this`needDrain
      ensures Abs() == var s := old(Abs()); s.(length := s.length + len, needDrain := s.length + len >= o.highWaterMark)
      ensures ret == (old(length) + len < o.highWaterMark)
    {
      length := length + len;
      ret := length < o.highWaterMark;
      needDrain := !ret;
    }

    method WriteOrBufferChunk(req: Req) returns (ret: bool)
      modifies this
      ensures Abs() == WriteOrBuffer(o, old(Abs()), req)
      ensures ret == (old(length) + ChunkLength(o, req.chunk) < o.highWaterMark)
    {
      var len := ChunkLength(o, req.chunk);
      ret := Count(len);
      if writing || corked != 0 {
        SetBuffer(buffer + [req]);
      } else {
        DoUnderlyingWrite(len, [req.chunk], One(req.cb));
      }
    }

    method CorkStream()
      modifies this
      ensures Abs() == Cork(old(Abs()))
    {
      corked := corked + 1;
    }

    method UncorkStream()
      modifies this
      ensures Abs() == Uncork(o, old(Abs()))
    {
      if corked != 0 {
        SetCorked(corked - 1);
        if !writing && corked == 0 && !finished && !bufferProcessing && buffer != [] {
          ClearWriteBuffer();
        }
      }
    }

    /** The first lines of `doWrite`. */
    method EnterWrite(len: nat, chunks: seq<Chunk>, cb: WriteCb)
      modifies this
      ensures Abs() == BeginWrite(old(Abs()), len, chunks, cb)
    {
      writelen := len;
      writecb := cb;
      writing := true;
      sync := true;
      world := world.(written := world.written + chunks, batches := world.batches + [chunks],
                      writes := world.writes + 1);
    }

    method SetSync(value: bool)
      modifies this`sync
      ensures Abs() == old(Abs()).(sync := value)
    {
      sync := value;
    }

    method DoUnderlyingWrite(len: nat, chunks: seq<Chunk>, cb: WriteCb)
      modifies this
      ensures Abs() == DoWrite(o, old(Abs()), len, chunks, cb)
      decreases if bufferProcessing then 0 else 1, 3
    {
      var outcome := o.sink(world.writes);
      EnterWrite(len, chunks, cb);
      match outcome {
        case Later =>
        case Now(ok) => OnUnderlyingWrite(ok);
      }
      SetSync(false);
    }

    /** `onwriteStateUpdate` */
    method UpdateState()
      modifies this
      ensures Abs() == StateUpdate(old(Abs()))
    {
      writing := false;
      writecb := NoCb;
      length := length - writelen;
      writelen := 0;
      world := world.(completions := world.completions + 1);
    }

    method ScheduleTask(sync: bool, task: Task)
      modifies this`world
      ensures Abs() == var s := old(Abs()); s.(world := Schedule(s.world, sync, task))
    {
      world := Schedule(world, sync, task);
    }

    method OnUnderlyingWrite(ok: bool)
      modifies this
      ensures Abs() == OnWrite(o, old(Abs()), ok)
      decreases if bufferProcessing then 0 else 1, 2
    {
      var wasSync, cb := sync, writecb;
      UpdateState();
      if !ok {
        ScheduleTask(wasSync, Settle(cb));
      } else {
        var ready := IsFinishNeeded();
        if !ready && corked == 0 && !bufferProcessing && buffer != [] {
          ClearWriteBuffer();
        }
        ScheduleTask(wasSync, AfterWrite(ready, cb));
      }
    }

    /** `needFinish` */
    method IsFinishNeeded() returns (need: bool)
      ensures need == NeedFinish(Abs())
    {
      need := ending && length == 0 && !finished && !writing;
    }

    method SetBufferProcessing(value: bool)
      modifies this`bufferProcessing
      ensures Abs() == old(Abs()).(bufferProcessing := value)
    {
      bufferProcessing := value;
    }

    method ClearWriteBuffer()
      requires !bufferProcessing && buffer != []
      modifies this
      ensures Abs() == ClearBuffer(o, old(Abs()))
      decreases 1, 1
    {
      SetBufferProcessing(true);
      if o.hasWritev && |buffer| > 1 {
        WriteWholeBuffer();
      } else {
        WriteOneByOne();
      }
      SetBufferProcessing(false);
    }

    /** The fast case of `clearBuffer`. */
    method WriteWholeBuffer()
      requires bufferProcessing
      modifies this
      ensures Abs() == WriteBatch(o, old(Abs()))
      decreases 0, 4, 0
    {
      AddPending();
      DoUnderlyingWrite(if length < 0 then 0 else length, ChunksOf(buffer), Batch(CallbacksOf(buffer)));
      SetBuffer([]);
    }

    method AddPending()
      modifies this`pendingcb
      ensures Abs() == var s := old(Abs()); s.(pendingcb := s.pendingcb + 1)
    {
      pendingcb := pendingcb + 1;
    }

    method SetBuffer(reqs: seq<Req>)
      modifies this`buffer
      ensures Abs() == old(Abs()).(buffer := reqs)
    {
      buffer := reqs;
    }

    /** The slow case of `clearBuffer`. */
    method WriteOneByOne()
      requires bufferProcessing
      modifies this
      ensures Abs() == ClearLoop(o, old(Abs()), 0)
      decreases 0, 4, |buffer|
    {
      ghost var whole := ClearLoop(o, Abs(), 0);
      var c := 0;
      while c < |buffer|
        invariant bufferProcessing && 0 <= c <= |buffer|
        invariant ClearLoop(o, Abs(), c) == whole
        decreases |buffer| - c
      {
        var entry := buffer[c];
        DoUnderlyingWrite(ChunkLength(o, entry.chunk), [entry.chunk], One(entry.cb));
        c := c + 1;
        if writing {
          SetBuffer(buffer[c..]);
          return;
        }
      }
      SetBuffer([]);
    }

    method EndStream(last: Option<Req>)
      modifies this
      ensures Abs() == End(o, old(Abs()), last)
    {
      if last.Some? {
        var _ := WriteChunk(last.value);
      }
      if corked != 0 {
        SetCorked(1);
        UncorkStream();
      }
      if !ending && !finished {
        EndNow();
      }
    }

    method SetCorked(count: nat)
      modifies this`corked
      ensures Abs() == old(Abs()).(corked := count)
    {
      corked := count;
    }

    /** `endWritable` */
    method EndNow()
      modifies this
      ensures Abs() == EndWritable(old(Abs()))
    {
      ending := true;
      FinishIfDone();
      ended := true;
    }

    method FinishIfDone()
      modifies this
      ensures Abs() == FinishMaybe(old(Abs()))
    {
      if ending && length == 0 && !finished && !writing {
        prefinished := true;
        if pendingcb == 0 {
          finished := true;
          world := world.(finishes := world.finishes + 1);
        }
      }
    }

    method RunOnePiece()
      requires world.running != []
      modifies this
      ensures Abs() == RunPiece(old(Abs()))
    {
      var task := world.running[0];
      if task == [] {
        world := world.(running := world.running[1..]);
      } else {
        world := world.(running := [task[1..]] + world.running[1..]);
        PerformPiece(task[0]);
      }
    }

    method PerformPiece(p: Piece)
      modifies this
      ensures Abs() == Perform(old(Abs()), p)
    {
      match p {
        case Drain =>
          if length == 0 && needDrain {
            needDrain := false;
            world := world.(drains := world.drains + 1);
          }
        case Release => pendingcb := pendingcb - 1;
        case Call(cb) =>
          pendingcb := pendingcb - 1;
          world := world.(called := world.called + [cb]);
        case Refuse(_) =>
        case Finish => FinishIfDone();
      }
    }

    method TakeTick()
      requires world.running == [] && world.ticks != []
      modifies this
      ensures Abs() == Tick(old(Abs()))
    {
      world := world.(running := [world.ticks[0]], ticks := world.ticks[1..]);
    }
  }
}
