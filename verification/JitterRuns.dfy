/** The jitter buffer over whole runs: order, conservation, latency and liveness. */
module JitterRuns {
  import opened Samples
  import opened JitterRing
  import opened JitterState

  type PutBlock = b: seq<real> | |b| <= 511
  type GetSize = n: nat | n <= 512

  datatype Event = Put(data: PutBlock, seqNo: uint32) | Get(frames: GetSize, target: Target)

  /** An output block: zeros, or samples that were `at` in the stream, after `skipped` were dropped. */
  datatype Block = Silence(frames: nat) | Played(skipped: nat, at: nat, data: seq<real>)

  /** The samples a run accepts, in order. */
  function Accepted(s: Line, es: seq<Event>): seq<real>
    decreases |es|
  {
    if es == [] then []
    else
      match es[0]
      case Put(data, seqNo) =>
        (if Accepts(s, seqNo) then data else []) + Accepted(PutLine(s, data, seqNo), es[1..])
      case Get(frames, target) => Accepted(GetLine(s, frames, target).0, es[1..])
  }

  /** The block of one getOut. */
  function BlockOf(s: Line, at: nat, frames: GetSize, target: Target): Block {
    var over := Trim(|s.queue|, target);
    if Plays(s, frames) then Played(over, at + over, GetLine(s, frames, target).1) else Silence(frames)
  }

  /** The position in the stream after one getOut. */
  function Reached(s: Line, at: nat, frames: GetSize, target: Target): (end: nat)
    ensures Plays(s, frames) ==> end >= frames
  {
    if Plays(s, frames) then at + Trim(|s.queue|, target) + frames else at
  }

  /** Run from a state whose queue starts at position `at` of the stream: the final state, the
      position it has reached and the blocks put out. */
  function Run(s: Line, at: nat, es: seq<Event>): (r: (Line, nat, seq<Block>))
    decreases |es|
  {
    if es == [] then (s, at, [])
    else
      match es[0]
      case Put(data, seqNo) => Run(PutLine(s, data, seqNo), at, es[1..])
      case Get(frames, target) =>
        var (u, end, blocks) := Run(GetLine(s, frames, target).0, Reached(s, at, frames, target), es[1..]);
        (u, end, [BlockOf(s, at, frames, target)] + blocks)
  }

  /** A block is where it says in the stream, exactly `skipped` samples after position `at`. */
  predicate Follows(stream: seq<real>, at: nat, b: Block) {
    match b
    case Silence(_) => true
    case Played(skipped, from, data) =>
      from == at + skipped && from + |data| <= |stream| && data == stream[from..from + |data|]
  }

  /** The position behind a block. */
  function Behind(at: nat, b: Block): nat {
    match b
    case Silence(_) => at
    case Played(_, from, data) => from + |data|
  }

  /** Each block is where it says in the stream, and exactly `skipped` samples after the previous. */
  ghost predicate InOrder(stream: seq<real>, at: nat, end: nat, blocks: seq<Block>)
    decreases |blocks|
  {
    if blocks == [] then at == end
    else Follows(stream, at, blocks[0]) && InOrder(stream, Behind(at, blocks[0]), end, blocks[1..])
  }

  function PlayedCount(blocks: seq<Block>): nat {
    if blocks == [] then 0
    else (match blocks[0] case Silence(_) => 0 case Played(_, _, data) => |data|) + PlayedCount(blocks[1..])
  }

  function SkippedCount(blocks: seq<Block>): nat {
    if blocks == [] then 0
    else (match blocks[0] case Silence(_) => 0 case Played(skipped, _, _) => skipped) + SkippedCount(blocks[1..])
  }

  lemma {:induction false} InOrderCounts(stream: seq<real>, at: nat, end: nat, blocks: seq<Block>)
    requires InOrder(stream, at, end, blocks)
    ensures end == at + PlayedCount(blocks) + SkippedCount(blocks)
    decreases |blocks|
  {
    if blocks != [] {
      InOrderCounts(stream, Behind(at, blocks[0]), end, blocks[1..]);
    }
  }

  /** What one getOut plays is the front of the queue after an oldest-first trim. */
  lemma GetLineIsFront(s: Line, frames: GetSize, target: Target)
    ensures var (t, out) := GetLine(s, frames, target);
            if Plays(s, frames) then
              var over := Trim(|s.queue|, target);
              && over + frames <= |s.queue|
              && out == s.queue[over..over + frames] && t.queue == s.queue[over + frames..]
              && |t.queue| <= MAX_DEPTH - frames
            else out == Zeros(frames) && t.queue == s.queue
  {
    if Plays(s, frames) {
      var over := Trim(|s.queue|, target);
      assert s.queue[over..][..frames] == s.queue[over..over + frames];
      assert s.queue[over..][frames..] == s.queue[over + frames..];
    }
  }

  /** The queue is the part of the accepted stream from the position reached on, and the blocks put
      out are silence or the next contiguous parts of that stream after what was trimmed. */
  ghost predicate Fifo(s: Line, stream: seq<real>, at: nat, es: seq<Event>)
  {
    var (t, end, blocks) := Run(s, at, es);
    var all := stream + Accepted(s, es);
    end <= |all| && t.queue == all[end..] && InOrder(all, at, end, blocks)
  }

  /** The jitter buffer refines a FIFO queue, at every point of every run. */
  lemma {:induction false} FifoRun(s: Line, stream: seq<real>, at: nat, es: seq<Event>)
    requires at <= |stream| && s.queue == stream[at..]
    ensures Fifo(s, stream, at, es)
    decreases |es|, 1
  {
    if es == [] {
      assert stream + [] == stream;
    } else if es[0].Put? {
      var data, seqNo := es[0].data, es[0].seqNo;
      var more := if Accepts(s, seqNo) then data else [];
      assert (stream + more)[at..] == stream[at..] + more;
      FifoRun(PutLine(s, data, seqNo), stream + more, at, es[1..]);
      FifoPut(s, stream, at, es);
    } else {
      FifoRunGet(s, stream, at, es);
    }
  }

  lemma {:induction false} FifoRunGet(s: Line, stream: seq<real>, at: nat, es: seq<Event>)
    requires at <= |stream| && s.queue == stream[at..] && es != [] && es[0].Get?
    ensures Fifo(s, stream, at, es)
    decreases |es|, 0
  {
    var frames, target := es[0].frames, es[0].target;
    var t := GetLine(s, frames, target).0;
    var end := Reached(s, at, frames, target);
    NextSuffix(s, stream, at, frames, target);
    FifoRun(t, stream, end, es[1..]);
    FifoGet(s, stream, at, es);
  }

  lemma NextSuffix(s: Line, stream: seq<real>, at: nat, frames: GetSize, target: Target)
    requires at <= |stream| && s.queue == stream[at..]
    ensures var end := Reached(s, at, frames, target);
            end <= |stream| && GetLine(s, frames, target).0.queue == stream[end..]
  {
    GetLineIsFront(s, frames, target);
    if Plays(s, frames) {
      PlayedSuffix(s, stream, at, frames, target);
    }
  }

  lemma PlayedSuffix(s: Line, stream: seq<real>, at: nat, frames: GetSize, target: Target)
    requires at <= |stream| && s.queue == stream[at..] && Plays(s, frames)
    ensures var end := at + Trim(|s.queue|, target) + frames;
            end <= |stream| && GetLine(s, frames, target).0.queue == stream[end..]
  {
    GetLineIsFront(s, frames, target);
    var over := Trim(|s.queue|, target);
    assert s.queue[over + frames..] == stream[at + over + frames..];
  }

  lemma FifoPut(s: Line, stream: seq<real>, at: nat, es: seq<Event>)
    requires es != [] && es[0].Put?
    requires var t := PutLine(s, es[0].data, es[0].seqNo);
             Fifo(t, stream + if Accepts(s, es[0].seqNo) then es[0].data else [], at, es[1..])
    ensures Fifo(s, stream, at, es)
  {
    var more := if Accepts(s, es[0].seqNo) then es[0].data else [];
    var rest := Accepted(PutLine(s, es[0].data, es[0].seqNo), es[1..]);
    assert stream + (more + rest) == (stream + more) + rest;
  }

  lemma FifoGet(s: Line, stream: seq<real>, at: nat, es: seq<Event>)
    requires at <= |stream| && s.queue == stream[at..] && es != [] && es[0].Get?
    requires var (frames, target) := (es[0].frames, es[0].target);
             Fifo(GetLine(s, frames, target).0, stream, Reached(s, at, frames, target), es[1..])
    ensures Fifo(s, stream, at, es)
  {
    var frames, target := es[0].frames, es[0].target;
    var t := GetLine(s, frames, target).0;
    var b, next := BlockOf(s, at, frames, target), Reached(s, at, frames, target);
    var (u, end, blocks) := Run(t, next, es[1..]);
    var all := stream + Accepted(t, es[1..]);
    RunGetIs(s, at, es);
    BlockFollows(s, stream, at, frames, target, all);
    InOrderCons(all, at, b, end, blocks);
    FifoIs(s, stream, at, es, u, end, [b] + blocks, all);
  }

  lemma FifoIs(s: Line, stream: seq<real>, at: nat, es: seq<Event>, u: Line, end: nat, blocks: seq<Block>, all: seq<real>)
    requires Run(s, at, es) == (u, end, blocks) && all == stream + Accepted(s, es)
    requires end <= |all| && u.queue == all[end..] && InOrder(all, at, end, blocks)
    ensures Fifo(s, stream, at, es)
  {
  }

  lemma RunGetIs(s: Line, at: nat, es: seq<Event>)
    requires es != [] && es[0].Get?
    ensures var (frames, target) := (es[0].frames, es[0].target);
            var t := GetLine(s, frames, target).0;
            var (u, end, blocks) := Run(t, Reached(s, at, frames, target), es[1..]);
            && Run(s, at, es) == (u, end, [BlockOf(s, at, frames, target)] + blocks)
            && Accepted(s, es) == Accepted(t, es[1..])
  {
  }

  lemma BlockFollows(s: Line, stream: seq<real>, at: nat, frames: GetSize, target: Target, all: seq<real>)
    requires at <= |stream| && s.queue == stream[at..] && stream <= all
    ensures var b := BlockOf(s, at, frames, target);
            Follows(all, at, b) && Behind(at, b) == Reached(s, at, frames, target)
  {
    GetLineIsFront(s, frames, target);
    if Plays(s, frames) {
      var over := Trim(|s.queue|, target);
      var from := at + over;
      assert s.queue[over..over + frames] == stream[from..from + frames] == all[from..from + frames];
    }
  }

  lemma InOrderCons(all: seq<real>, at: nat, b: Block, end: nat, blocks: seq<Block>)
    requires Follows(all, at, b) && InOrder(all, Behind(at, b), end, blocks)
    ensures InOrder(all, at, end, [b] + blocks)
  {
    assert ([b] + blocks)[1..] == blocks;
  }

  /** Conservation: the depth is what was accepted, less what was played and what was trimmed. */
  lemma DepthConserved(s: Line, es: seq<Event>)
    ensures var (t, end, blocks) := Run(s, 0, es);
            |t.queue| == |s.queue| + |Accepted(s, es)| - PlayedCount(blocks) - SkippedCount(blocks)
  {
    assert s.queue == s.queue[0..];
    FifoRun(s, s.queue, 0, es);
    var (t, end, blocks) := Run(s, 0, es);
    InOrderCounts(s.queue + Accepted(s, es), 0, end, blocks);
  }

  // ---- the buffer's own runs ----

  /** What a mixer does with a buffer between two flushes. */
  datatype Operation = PutOp(data: PutBlock, seqNo: uint32) | GetOp(frames: GetSize)

  function Operate(s: Jitter, o: Operation): (t: Jitter)
    requires s.Valid() && |s.line.queue| < JITTER_SAMPLES
    ensures t.Valid() && |t.line.queue| < JITTER_SAMPLES
  {
    match o
    case PutOp(data, seqNo) => PutIn(s, data, seqNo)
    case GetOp(frames) => GetOut(s, frames).0
  }

  function OperateAll(s: Jitter, os: seq<Operation>): (t: Jitter)
    requires s.Valid() && |s.line.queue| < JITTER_SAMPLES
    ensures t.Valid() && |t.line.queue| < JITTER_SAMPLES
    decreases |os|
  {
    if os == [] then s else OperateAll(Operate(s, os[0]), os[1..])
  }

  function EventOf(s: Jitter, o: Operation): Event
    requires s.Valid()
  {
    match o
    case PutOp(data, seqNo) => Put(data, seqNo)
    case GetOp(frames) => TargetInRange(s); Get(frames, Measure(s).targetDepth)
  }

  /** The same operations with the target depths that the statistics produce. */
  function Events(s: Jitter, os: seq<Operation>): seq<Event>
    requires s.Valid() && |s.line.queue| < JITTER_SAMPLES
    decreases |os|
  {
    if os == [] then [] else [EventOf(s, os[0])] + Events(Operate(s, os[0]), os[1..])
  }

  function LineStep(l: Line, e: Event): Line {
    match e
    case Put(data, seqNo) => PutLine(l, data, seqNo)
    case Get(frames, target) => GetLine(l, frames, target).0
  }

  lemma OperateIsEvent(s: Jitter, o: Operation)
    requires s.Valid() && |s.line.queue| < JITTER_SAMPLES
    ensures Operate(s, o).line == LineStep(s.line, EventOf(s, o))
  {
  }

  /** Whatever the statistics do, a run of the buffer is a run of its queue with targets in range:
      all that holds of every such run holds of the buffer. */
  lemma {:induction false} OperationsAreEvents(s: Jitter, at: nat, os: seq<Operation>)
    requires s.Valid() && |s.line.queue| < JITTER_SAMPLES
    ensures OperateAll(s, os).line == Run(s.line, at, Events(s, os)).0
    decreases |os|
  {
    if os != [] {
      var e := EventOf(s, os[0]);
      var t := Operate(s, os[0]);
      OperateIsEvent(s, os[0]);
      var es := Events(t, os[1..]);
      assert ([e] + es)[1..] == es;
      if e.Get? && Plays(s.line, e.frames) {
        OperationsAreEvents(t, at + Trim(|s.line.queue|, e.target) + e.frames, os[1..]);
      } else {
        OperationsAreEvents(t, at, os[1..]);
      }
    }
  }
}
