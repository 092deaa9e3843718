/** The mixer over whole runs, with packets, reads, expiries and the local input in any order: what
    each client's channel plays. */
module MixerRuns {
  import C = ChannelMap
  import opened JitterRing
  import opened JitterState
  import opened JamMixer
  import R = JitterRuns
  import O = JitterOutputs

  /** A packet whose blocks the overflow guard protects. */
  type Packet = p: Arrival | |p.left| <= 511 && |p.right| <= 511
    witness Arrival(0, 0, 0, [], [])

  datatype Event =
    | Arrive(p: Packet)
    | Read(frames: R.GetSize)
    | Expire(now: int)
    | Monitor(left: R.PutBlock, right: R.PutBlock, seqNo: uint32)

  /** Every buffer is one that puts of up to 511 samples can have led to. */
  ghost predicate Ready(m: Mixer) {
    m.Valid() && forall i :: 0 <= i < |m.buffers| ==> m.buffers[i].Valid() && |m.buffers[i].line.queue| < JITTER_SAMPLES
  }

  ghost function Step(m: Mixer, e: Event): (r: Mixer)
    requires Ready(m)
    ensures r.Valid()
  {
    match e
    case Arrive(p) => Added(m, p)
    case Read(frames) => ReadOut(m, frames)
    case Expire(now) => m.(slots := C.Prune(m.slots, now, 1))
    case Monitor(left, right, seqNo) => Monitored(m, left, right, seqNo)
  }

  /** The operations that a step makes on buffer 2k, or on 2k + 1 for the right channel, where client a
      is the one in slot k. */
  function Operations(e: Event, k: nat, a: nat, right: bool): seq<R.Operation> {
    match e
    case Arrive(p) =>
      if p.id == a && |p.left| > 0 then [R.PutOp(if right then p.right else p.left, p.seqNo)] else []
    case Read(frames) => [R.GetOp(frames)]
    case Expire(_) => []
    case Monitor(l, r, seqNo) => if k == 0 then [R.PutOp(if right then r else l, seqNo)] else []
  }

  function Index(k: nat, right: bool): nat {
    2 * k + if right then 1 else 0
  }

  lemma StepReady(m: Mixer, e: Event)
    requires Ready(m)
    ensures Ready(Step(m, e))
  {
    match e
    case Arrive(p) =>
      var slot := C.Lookup(m.slots, p.id, p.now).1;
    case Read(frames) =>
      forall i | 0 <= i < |m.buffers|
        ensures |GetOut(m.buffers[i], frames).0.line.queue| < JITTER_SAMPLES
      {
        assert GetOut(m.buffers[i], frames).0 == R.Operate(m.buffers[i], R.GetOp(frames));
      }
    case Expire(_) =>
    case Monitor(left, right, seqNo) =>
  }

  /** What a step does to one channel of a live client: its own operations, and nothing else. */
  lemma StepChannel(m: Mixer, myId: nat, e: Event, k: nat, a: nat, last: int, right: bool)
    requires Ready(m) && C.Injective(m.slots, myId) && myId != C.EMPTY_SLOT && a != C.EMPTY_SLOT
    requires C.Holds(m.slots, k, a, last) && (k == 0 || InTime(e, last))
    ensures Ready(Step(m, e))
    ensures var i := Index(k, right);
            Step(m, e).buffers[i] == R.OperateAll(m.buffers[i], Operations(e, k, a, right))
  {
    StepReady(m, e);
    var i := Index(k, right);
    match e
    case Arrive(p) => ArriveChannel(m, myId, p, k, a, last, right);
    case Read(frames) => OneOperation(m.buffers[i], R.GetOp(frames));
    case Expire(_) =>
    case Monitor(l, r, seqNo) => OneOperation(m.buffers[i], R.PutOp(if right then r else l, seqNo));
  }

  lemma ArriveChannel(m: Mixer, myId: nat, p: Packet, k: nat, a: nat, last: int, right: bool)
    requires Ready(m) && C.Injective(m.slots, myId) && myId != C.EMPTY_SLOT && a != C.EMPTY_SLOT
    requires C.Holds(m.slots, k, a, last) && (k == 0 || p.now - last <= C.EXPIRATION_IN_SECONDS)
    ensures var i := Index(k, right);
            Added(m, p).buffers[i] == R.OperateAll(m.buffers[i], Operations(Arrive(p), k, a, right))
  {
    var slot := C.Lookup(m.slots, p.id, p.now).1;
    C.StepHolds(m.slots, myId, C.Heard(p.id, p.now), k, a, last);
    RoutedChannel(m.buffers, slot, p, k, right);
    if slot == k && |p.left| > 0 {
      OneOperation(m.buffers[Index(k, right)], R.PutOp(if right then p.right else p.left, p.seqNo));
    }
  }

  lemma RoutedChannel(buffers: seq<Jitter>, slot: int, p: Packet, k: nat, right: bool)
    requires |buffers| == 2 * C.MAX_JAMMERS && slot < C.MAX_JAMMERS && k < C.MAX_JAMMERS
    ensures var i := Index(k, right);
            Routed(buffers, slot, p)[i]
            == if slot == k && |p.left| > 0 then PutIn(buffers[i], if right then p.right else p.left, p.seqNo) else buffers[i]
  {
  }

  lemma OneOperation(j: Jitter, o: R.Operation)
    requires j.Valid() && |j.line.queue| < JITTER_SAMPLES
    ensures R.OperateAll(j, [o]) == R.Operate(j, o)
  {
    assert [o][1..] == [];
    assert R.OperateAll(R.Operate(j, o), []) == R.Operate(j, o);
  }

  // ---- runs ----

  /** The time that the slot map sees in an event, if it does see it. */
  predicate InTime(e: Event, last: int) {
    match e
    case Arrive(p) => p.now - last <= C.EXPIRATION_IN_SECONDS
    case Expire(now) => now - last <= C.EXPIRATION_IN_SECONDS
    case Read(_) => true
    case Monitor(_, _, _) => true
  }

  function HeardAt(e: Event, a: nat, last: int): int {
    if e.Arrive? && e.p.id == a then e.p.now else last
  }

  /** Client a is heard at gaps of at most two seconds. */
  predicate Live(es: seq<Event>, a: nat, last: int)
    decreases |es|
  {
    es == [] || (InTime(es[0], last) && Live(es[1..], a, HeardAt(es[0], a, last)))
  }

  lemma StepSlots(m: Mixer, myId: nat, e: Event, k: nat, a: nat, last: int)
    requires Ready(m) && C.Injective(m.slots, myId) && myId != C.EMPTY_SLOT && a != C.EMPTY_SLOT
    requires C.Holds(m.slots, k, a, last) && (k == 0 || InTime(e, last))
    ensures C.Injective(Step(m, e).slots, myId) && C.Holds(Step(m, e).slots, k, a, HeardAt(e, a, last))
  {
    match e
    case Arrive(p) =>
      C.StepHolds(m.slots, myId, C.Heard(p.id, p.now), k, a, last);
      C.StepInjective(m.slots, myId, C.Heard(p.id, p.now));
    case Expire(now) =>
      C.StepHolds(m.slots, myId, C.Expire(now), k, a, last);
      C.StepInjective(m.slots, myId, C.Expire(now));
    case Read(_) =>
    case Monitor(_, _, _) =>
  }

  ghost function Run(m: Mixer, es: seq<Event>): (r: Mixer)
    requires Ready(m)
    ensures Ready(r)
    decreases |es|
  {
    if es == [] then m
    else
      StepReady(m, es[0]);
      Run(Step(m, es[0]), es[1..])
  }

  /** The blocks read from one buffer. */
  ghost function Played(m: Mixer, es: seq<Event>, i: nat): seq<seq<real>>
    requires Ready(m) && i < |m.buffers|
    decreases |es|
  {
    if es == [] then []
    else
      StepReady(m, es[0]);
      (if es[0].Read? then [GetOut(m.buffers[i], es[0].frames).1] else []) + Played(Step(m, es[0]), es[1..], i)
  }

  function AllOperations(es: seq<Event>, k: nat, a: nat, right: bool): seq<R.Operation> {
    if es == [] then [] else Operations(es[0], k, a, right) + AllOperations(es[1..], k, a, right)
  }

  lemma OperateCons(j: Jitter, first: seq<R.Operation>, rest: seq<R.Operation>)
    requires j.Valid() && |j.line.queue| < JITTER_SAMPLES && |first| <= 1
    ensures R.OperateAll(j, first + rest) == R.OperateAll(R.OperateAll(j, first), rest)
    ensures O.Outputs(j, first + rest) == O.Outputs(j, first) + O.Outputs(R.OperateAll(j, first), rest)
  {
    if first == [] {
      assert first + rest == rest;
    } else {
      OneOperation(j, first[0]);
      assert first == [first[0]] && (first + rest)[1..] == rest && (first + rest)[0] == first[0];
    }
  }

  /** Whatever the others send, and whenever the mix is read: each buffer of a live client's slot has
      gone through that client's own puts and the reads, and through nothing else. */
  lemma {:induction false} ChannelRun(m: Mixer, myId: nat, es: seq<Event>, k: nat, a: nat, last: int, right: bool)
    requires Ready(m) && C.Injective(m.slots, myId) && myId != C.EMPTY_SLOT && a != C.EMPTY_SLOT
    requires C.Holds(m.slots, k, a, last) && (k == 0 || Live(es, a, last))
    ensures var i, os := Index(k, right), AllOperations(es, k, a, right);
            && Run(m, es).buffers[i] == R.OperateAll(m.buffers[i], os)
            && Played(m, es, i) == O.Outputs(m.buffers[i], os)
    decreases |es|
  {
    if es != [] {
      var e, i := es[0], Index(k, right);
      var first := Operations(e, k, a, right);
      StepChannel(m, myId, e, k, a, last, right);
      StepSlots(m, myId, e, k, a, last);
      ChannelRun(Step(m, e), myId, es[1..], k, a, HeardAt(e, a, last), right);
      OperateCons(m.buffers[i], first, AllOperations(es[1..], k, a, right));
    }
  }

  /** So what a live client's channel plays is silence and contiguous parts of what was accepted of its
      own samples, in order, each after exactly what was trimmed. */
  lemma LiveClientPlays(m: Mixer, myId: nat, es: seq<Event>, k: nat, a: nat, last: int, right: bool)
    returns (end: nat, blocks: seq<R.Block>)
    requires Ready(m) && C.Injective(m.slots, myId) && myId != C.EMPTY_SLOT && a != C.EMPTY_SLOT
    requires C.Holds(m.slots, k, a, last) && (k == 0 || Live(es, a, last))
    requires m.buffers[Index(k, right)].line.queue == []
    ensures var i, os := Index(k, right), AllOperations(es, k, a, right);
            var j := m.buffers[i];
            var own := R.Accepted(j.line, R.Events(j, os));
            && Played(m, es, i) == O.AllHeard(blocks)
            && R.InOrder(own, 0, end, blocks)
            && end <= |own| && Run(m, es).buffers[i].line.queue == own[end..]
  {
    var i := Index(k, right);
    ChannelRun(m, myId, es, k, a, last, right);
    end, blocks := O.BufferIsFifo(m.buffers[i], AllOperations(es, k, a, right));
  }
}
