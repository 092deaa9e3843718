/** `addData` of the mixer: a packet goes to the two jitter buffers of its sender's slot. */
module JamMixer {
  import C = ChannelMap
  import opened JitterState

  /** A decoded packet as it arrives; both channels have the packet's sample count. */
  datatype Arrival = Arrival(id: nat, now: int, seqNo: uint32, left: seq<real>, right: seq<real>)

  /** The client's slots and two jitter buffers for each. */
  datatype Mixer = Mixer(slots: C.Slots, buffers: seq<Jitter>)
  {
    predicate Valid() {
      |buffers| == 2 * C.MAX_JAMMERS
    }

    /** Every buffer in a state that a jitter buffer can be in. */
    predicate Playable() {
      forall i :: 0 <= i < |buffers| ==> buffers[i].Valid()
    }
  }

  /** A block for each of two neighbouring buffers. */
  function PutBoth(buffers: seq<Jitter>, i: nat, left: seq<real>, right: seq<real>, seqNo: uint32): (r: seq<Jitter>)
    requires i + 1 < |buffers|
    ensures |r| == |buffers|
  {
    buffers[i := PutIn(buffers[i], left, seqNo)][i + 1 := PutIn(buffers[i + 1], right, seqNo)]
  }

  /** The buffers after a packet for some slot; none for a negative one or an empty packet. */
  function Routed(buffers: seq<Jitter>, slot: int, p: Arrival): (r: seq<Jitter>)
    requires |buffers| == 2 * C.MAX_JAMMERS && slot < C.MAX_JAMMERS
    ensures |r| == |buffers|
  {
    var locChan := slot * 2;
    if locChan >= 0 && |p.left| > 0 then PutBoth(buffers, locChan, p.left, p.right, p.seqNo) else buffers
  }

  function Added(m: Mixer, p: Arrival): (r: Mixer)
    requires m.Valid()
    ensures r.Valid() && r.slots == C.Lookup(m.slots, p.id, p.now).0
  {
    var (slots, slot) := C.Lookup(m.slots, p.id, p.now);
    Mixer(slots, Routed(m.buffers, slot, p))
  }

  /** The local input, into the buffers of slot 0. */
  function Monitored(m: Mixer, left: seq<real>, right: seq<real>, seqNo: uint32): (r: Mixer)
    requires m.Valid()
    ensures r.Valid()
  {
    m.(buffers := PutBoth(m.buffers, 0, left, right, seqNo))
  }

  /** One block from every buffer. */
  function ReadOut(m: Mixer, frames: nat): (r: Mixer)
    requires m.Valid() && m.Playable() && frames <= MIN_DEPTH
    ensures r.Valid() && r.Playable()
  {
    m.(buffers := seq(|m.buffers|, i requires 0 <= i < |m.buffers| => GetOut(m.buffers[i], frames).0))
  }

  function AddAll(m: Mixer, ps: seq<Arrival>): (r: Mixer)
    requires m.Valid()
    ensures r.Valid()
    decreases |ps|
  {
    if ps == [] then m else AddAll(Added(m, ps[0]), ps[1..])
  }

  /** The packets of one client with samples in them. */
  function From(ps: seq<Arrival>, a: nat): seq<Arrival> {
    if ps == [] then [] else (if ps[0].id == a && |ps[0].left| > 0 then [ps[0]] else []) + From(ps[1..], a)
  }

  function PutLefts(j: Jitter, ps: seq<Arrival>): Jitter
    decreases |ps|
  {
    if ps == [] then j else PutLefts(PutIn(j, ps[0].left, ps[0].seqNo), ps[1..])
  }

  function PutRights(j: Jitter, ps: seq<Arrival>): Jitter
    decreases |ps|
  {
    if ps == [] then j else PutRights(PutIn(j, ps[0].right, ps[0].seqNo), ps[1..])
  }

  /** The arrivals as the slot map sees them. */
  function Hearings(ps: seq<Arrival>): (es: seq<C.Event>)
    ensures |es| == |ps|
  {
    if ps == [] then [] else [C.Heard(ps[0].id, ps[0].now)] + Hearings(ps[1..])
  }

  /** A packet of another client leaves the buffers of slot k alone; one of the client in slot k is
      put into both of them. */
  lemma OneArrival(m: Mixer, myId: nat, p: Arrival, k: nat, a: nat, last: int)
    requires m.Valid() && C.Injective(m.slots, myId) && myId != C.EMPTY_SLOT && a != C.EMPTY_SLOT
    requires C.Holds(m.slots, k, a, last) && (k == 0 || p.now - last <= C.EXPIRATION_IN_SECONDS)
    ensures var r := Added(m, p);
            && C.Injective(r.slots, myId) && C.Holds(r.slots, k, a, if p.id == a then p.now else last)
            && r.buffers[2 * k] == PutLefts(m.buffers[2 * k], From([p], a))
            && r.buffers[2 * k + 1] == PutRights(m.buffers[2 * k + 1], From([p], a))
  {
    var e := C.Heard(p.id, p.now);
    C.StepHolds(m.slots, myId, e, k, a, last);
    C.StepInjective(m.slots, myId, e);
    C.GetChannelMeaning(m.slots, myId, p.id, p.now);
  }

  lemma {:induction false} PutLeftsAppend(j: Jitter, ps: seq<Arrival>, qs: seq<Arrival>)
    ensures PutLefts(j, ps + qs) == PutLefts(PutLefts(j, ps), qs)
    ensures PutRights(j, ps + qs) == PutRights(PutRights(j, ps), qs)
    decreases |ps|
  {
    if ps == [] {
      assert ps + qs == qs;
    } else {
      assert (ps + qs)[1..] == ps[1..] + qs;
      PutLeftsAppend(PutIn(j, ps[0].left, ps[0].seqNo), ps[1..], qs);
      PutLeftsAppend(PutIn(j, ps[0].right, ps[0].seqNo), ps[1..], qs);
    }
  }

  /** Whatever other clients send in between: the two jitter buffers of a live client get exactly its
      own packets, in order, each channel in its own buffer. */
  lemma {:induction false} LiveClientStream(m: Mixer, myId: nat, ps: seq<Arrival>, k: nat, a: nat, last: int)
    requires m.Valid() && C.Injective(m.slots, myId) && myId != C.EMPTY_SLOT && a != C.EMPTY_SLOT
    requires C.Holds(m.slots, k, a, last) && (k == 0 || C.HeardInTime(Hearings(ps), a, last))
    ensures AddAll(m, ps).buffers[2 * k] == PutLefts(m.buffers[2 * k], From(ps, a))
    ensures AddAll(m, ps).buffers[2 * k + 1] == PutRights(m.buffers[2 * k + 1], From(ps, a))
    decreases |ps|
  {
    if ps != [] {
      var p, rest := ps[0], ps[1..];
      assert ([C.Heard(p.id, p.now)] + Hearings(rest))[1..] == Hearings(rest);
      OneArrival(m, myId, p, k, a, last);
      LiveClientStream(Added(m, p), myId, rest, k, a, if p.id == a then p.now else last);
      PutLeftsAppend(m.buffers[2 * k], From([p], a), From(rest, a));
      PutLeftsAppend(m.buffers[2 * k + 1], From([p], a), From(rest, a));
      assert [p][1..] == [] && From([p], a) + [] == From([p], a);
      assert From(ps, a) == From([p], a) + From(rest, a);
    }
  }
}
