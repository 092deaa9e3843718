/** What the jitter buffer puts out, statistics included, as blocks of the stream it accepted. */
module JitterOutputs {
  import opened Samples
  import opened JitterRing
  import opened JitterState
  import opened JitterRuns

  /** What a block sounds like. */
  function Heard(b: Block): seq<real> {
    match b
    case Silence(n) => Zeros(n)
    case Played(_, _, data) => data
  }

  function AllHeard(blocks: seq<Block>): seq<seq<real>> {
    if blocks == [] then [] else [Heard(blocks[0])] + AllHeard(blocks[1..])
  }

  /** The blocks the buffer puts out in a run. */
  function Outputs(s: Jitter, os: seq<Operation>): seq<seq<real>>
    requires s.Valid() && |s.line.queue| < JITTER_SAMPLES
    decreases |os|
  {
    if os == [] then []
    else (if os[0].GetOp? then [GetOut(s, os[0].frames).1] else []) + Outputs(Operate(s, os[0]), os[1..])
  }

  /** What the buffer puts out, statistics and all, are the blocks of that run of its queue. */
  lemma {:induction false} OutputsAreBlocks(s: Jitter, at: nat, os: seq<Operation>)
    requires s.Valid() && |s.line.queue| < JITTER_SAMPLES
    ensures Outputs(s, os) == AllHeard(Run(s.line, at, Events(s, os)).2)
    decreases |os|
  {
    if os != [] {
      var t := Operate(s, os[0]);
      forall next: nat
        ensures Outputs(t, os[1..]) == AllHeard(Run(t.line, next, Events(t, os[1..])).2)
      {
        OutputsAreBlocks(t, next, os[1..]);
      }
    }
  }

  /** The buffer as a whole, from a flush on and whatever its statistics make of the target: what it
      puts out are blocks of silence and contiguous parts of the accepted stream, each in order
      after what was trimmed, and what it holds is the rest of that stream. */
  lemma BufferIsFifo(s: Jitter, os: seq<Operation>) returns (end: nat, blocks: seq<Block>)
    requires s.Valid() && s.line.queue == []
    ensures var all := Accepted(s.line, Events(s, os));
            && Outputs(s, os) == AllHeard(blocks)
            && InOrder(all, 0, end, blocks)
            && end <= |all| && OperateAll(s, os).line.queue == all[end..]
            && |OperateAll(s, os).line.queue| == |all| - PlayedCount(blocks) - SkippedCount(blocks)
  {
    var es := Events(s, os);
    var r := Run(s.line, 0, es);
    end, blocks := r.1, r.2;
    OutputsAreBlocks(s, 0, os);
    OperationsAreEvents(s, 0, os);
    FifoRun(s.line, [], 0, es);
    assert [] + Accepted(s.line, es) == Accepted(s.line, es);
    InOrderCounts(Accepted(s.line, es), 0, end, blocks);
  }
}
