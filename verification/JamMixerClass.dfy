/** The class `JamMixer`: twenty-four jitter buffers, fed by slot and read all at once. */
module JamMixerClass {
  import C = ChannelMap
  import opened JitterState
  import opened M = JamMixer
  import JitterBuffers

  ghost function ObjectsOf(j: JitterBuffers.JitterBuffer): set<object> {
    {j, j.myBuffer, j.bufferStats, j.m_depthFilter}
  }

  /** The next sequence number of 32 bits. */
  function Successor(n: uint32): uint32 {
    if n + 1 == TWO32 then 0 else n + 1
  }

  /** No two buffers share an object. */
  ghost predicate Apart(js: seq<JitterBuffers.JitterBuffer>, repr: set<object>) {
    && (forall i :: 0 <= i < |js| ==> ObjectsOf(js[i]) <= repr)
    && (forall i, k :: 0 <= i < k < |js| ==> ObjectsOf(js[i]) !! ObjectsOf(js[k]))
  }

  /** Empty buffers, all objects of them new. */
  method NewBuffers(count: nat, attack: real, release: real)
    returns (js: seq<JitterBuffers.JitterBuffer>, ghost repr: set<object>)
    requires 0.0 <= attack <= 1.0 && 0.0 <= release <= 1.0
    ensures |js| == count && Apart(js, repr) && fresh(repr)
    ensures forall i :: 0 <= i < count ==> js[i].Valid() && js[i].View().line.queue == []
  {
    js, repr := [], {};
    for n := 0 to count
      invariant |js| == n && Apart(js, repr) && fresh(repr)
      invariant forall i :: 0 <= i < n ==> js[i].Valid() && js[i].View().line.queue == []
    {
      var j := new JitterBuffers.JitterBuffer(attack, release);
      assert ObjectsOf(j) !! repr;
      js, repr := js + [j], repr + ObjectsOf(j);
    }
  }

  method NewMixBuffers(count: nat) returns (mix: seq<array<real>>)
    ensures |mix| == count
    ensures forall i :: 0 <= i < count ==> fresh(mix[i]) && mix[i].Length == 1024
    ensures forall i, k :: 0 <= i < k < count ==> mix[i] != mix[k]
  {
    mix := [];
    for n := 0 to count
      invariant |mix| == n
      invariant forall i :: 0 <= i < n ==> fresh(mix[i]) && mix[i].Length == 1024
      invariant forall i, k :: 0 <= i < k < n ==> mix[i] != mix[k]
    {
      var next := new real[1024];
      mix := mix + [next];
    }
  }

  /** Two jitter buffers for each of the twelve slots, each with its own array and statistics. */
  class JamMixer {
    const channelMap: C.ChannelMap
    const jitterBuffers: seq<JitterBuffers.JitterBuffer>
    const mixBuffers: seq<array<real>>
    var m_seqNo: uint32
    ghost const repr: set<object>

    ghost predicate Separate() {
      && |jitterBuffers| == 2 * C.MAX_JAMMERS
      && Apart(jitterBuffers, repr)
      && channelMap !in repr && channelMap.channels !in repr && this !in repr
      && |mixBuffers| == |jitterBuffers|
      && (forall i :: 0 <= i < |mixBuffers| ==> mixBuffers[i].Length == 1024 && mixBuffers[i] !in repr)
      && (forall i, k :: 0 <= i < k < |mixBuffers| ==> mixBuffers[i] != mixBuffers[k])
    }

    ghost predicate Valid()
      reads channelMap, repr
    {
      && Separate()
      && channelMap.Valid()
      && forall i :: 0 <= i < |jitterBuffers| ==>
           ObjectsOf(jitterBuffers[i]) <= repr && jitterBuffers[i].Valid()
    }

    ghost function View(): (m: Mixer)
      requires Valid()
      reads channelMap, channelMap.channels, repr
      ensures m.Valid()
    {
      Mixer(channelMap.channels[..], BufferViews())
    }

    ghost function BufferView(i: nat): Jitter
      requires Valid() && i < |jitterBuffers|
      reads channelMap, repr
    {
      assert ObjectsOf(jitterBuffers[i]) <= repr;
      jitterBuffers[i].View()
    }

    ghost function BufferViews(): (vs: seq<Jitter>)
      requires Valid()
      reads channelMap, repr
      ensures |vs| == |jitterBuffers|
      ensures forall i :: 0 <= i < |vs| ==> vs[i] == BufferView(i)
    {
      seq(|jitterBuffers|, i requires 0 <= i < |jitterBuffers| && Valid() reads channelMap, repr => BufferView(i))
    }

    constructor (myId: nat, now: int, attack: real, release: real)
      requires 0.0 <= attack <= 1.0 && 0.0 <= release <= 1.0
      ensures Valid() && View().slots == C.Cleared(myId, now)
      ensures forall i :: 0 <= i < 2 * C.MAX_JAMMERS ==> View().buffers[i].line.queue == []
    {
      var slots := new C.ChannelMap(now);
      slots.ClearFor(myId, now);
      var js, all := NewBuffers(2 * C.MAX_JAMMERS, attack, release);
      var mix := NewMixBuffers(2 * C.MAX_JAMMERS);
      channelMap, jitterBuffers, repr, mixBuffers, m_seqNo := slots, js, all, mix, 0;
    }

    /** The slot of the sender, and a put into the slot's two buffers. Blocks of up to 511 samples are
        queued; a longer one, which the overflow guard does not protect, still leaves the other buffers
        as they were. */
    method AddData(p: Arrival)
      requires Valid() && |p.left| == |p.right| <= 1024
      modifies channelMap.channels, repr
      ensures Valid()
      ensures |p.left| <= 511 ==> View() == Added(old(View()), p)
      ensures var (slots, slot) := C.Lookup(old(View()).slots, p.id, p.now);
              && View().slots == slots
              && forall i :: 0 <= i < |jitterBuffers| && i !in C.Fed(slot) ==> View().buffers[i] == old(View()).buffers[i]
    {
      var slot := channelMap.GetChannel(p.id, p.now);
      BuffersUntouched();
      Route(slot, p);
    }

    method Route(slot: int, p: Arrival)
      requires Valid() && |p.left| == |p.right| <= 1024 && slot < C.MAX_JAMMERS
      modifies repr
      ensures Valid() && channelMap.channels[..] == old(channelMap.channels[..])
      ensures |p.left| <= 511 ==> BufferViews() == Routed(old(BufferViews()), slot, p)
      ensures forall i :: 0 <= i < |jitterBuffers| && i !in C.Fed(slot) ==> BufferViews()[i] == old(BufferViews())[i]
    {
      var locChan := slot * 2;
      if locChan >= 0 && |p.left| > 0 {
        PutBoth(locChan, p.left, p.right, p.seqNo);
      }
    }

    /** The local input goes to the buffers of slot 0 under the mixer's own numbers. */
    method AddLocalMonitor(left: seq<real>, right: seq<real>)
      requires Valid() && |left| == |right| <= 1024
      modifies this`m_seqNo, repr
      ensures Valid() && m_seqNo == Successor(old(m_seqNo)) && View().slots == old(View()).slots
      ensures |left| <= 511 ==> View() == Monitored(old(View()), left, right, old(m_seqNo))
      ensures forall i :: 2 <= i < |jitterBuffers| ==> View().buffers[i] == old(View()).buffers[i]
    {
      MonitorAs(left, right, m_seqNo);
      NextNumber();
    }

    method MonitorAs(left: seq<real>, right: seq<real>, seqNo: uint32)
      requires Valid() && |left| == |right| <= 1024
      modifies repr
      ensures Valid() && View().slots == old(View()).slots
      ensures |left| <= 511 ==> View() == Monitored(old(View()), left, right, seqNo)
      ensures forall i :: 2 <= i < |jitterBuffers| ==> View().buffers[i] == old(View()).buffers[i]
    {
      PutBoth(0, left, right, seqNo);
    }

    method NextNumber()
      requires Valid()
      modifies this`m_seqNo
      ensures Valid() && View() == old(View()) && m_seqNo == Successor(old(m_seqNo))
    {
      m_seqNo := if m_seqNo + 1 == TWO32 then 0 else m_seqNo + 1;
    }

    /** Two neighbouring buffers, one after the other. */
    method PutBoth(k: nat, left: seq<real>, right: seq<real>, seqNo: uint32)
      requires Valid() && k + 1 < |jitterBuffers| && |left| <= 1024 && |right| <= 1024
      modifies repr
      ensures Valid() && channelMap.channels[..] == old(channelMap.channels[..])
      ensures forall i :: 0 <= i < |jitterBuffers| && i != k && i != k + 1 ==> BufferViews()[i] == old(BufferViews())[i]
      ensures |left| <= 511 && |right| <= 511 ==> BufferViews() == M.PutBoth(old(BufferViews()), k, left, right, seqNo)
    {
      PutInto(k, left, seqNo);
      PutInto(k + 1, right, seqNo);
    }

    /** A put changes one buffer and leaves the 23 others as they were. */
    method PutInto(k: nat, data: seq<real>, seqNo: uint32)
      requires Valid() && k < |jitterBuffers| && |data| <= 1024
      modifies repr
      ensures Valid() && channelMap.channels[..] == old(channelMap.channels[..])
      ensures BufferViews() == old(BufferViews())[k := BufferViews()[k]]
      ensures |data| <= 511 ==> BufferViews()[k] == PutIn(old(BufferViews())[k], data, seqNo)
    {
      jitterBuffers[k].PutIn(data, seqNo);
      forall i | 0 <= i < |jitterBuffers| && i != k
        ensures jitterBuffers[i].Valid() && jitterBuffers[i].View() == old(jitterBuffers[i].View())
      {
        assert ObjectsOf(jitterBuffers[i]) !! ObjectsOf(jitterBuffers[k]);
      }
    }

    /** The read loop of `getMix`: a block from every jitter buffer into its mix buffer. */
    method GetMix(frames: nat)
      requires Valid() && frames <= MIN_DEPTH
      modifies repr, mixBuffers
      ensures Valid() && old(View()).Playable() && View() == ReadOut(old(View()), frames)
      ensures forall i :: 0 <= i < |mixBuffers| ==>
        mixBuffers[i][..frames] == GetOut(old(View()).buffers[i], frames).1
    {
      ghost var vs := BufferViews();
      for i := 0 to |jitterBuffers|
        invariant Valid() && channelMap.channels[..] == old(channelMap.channels[..])
        invariant forall k :: 0 <= k < |vs| ==> BufferViews()[k] == if k < i then GetOut(vs[k], frames).0 else vs[k]
        invariant forall k :: 0 <= k < i ==> mixBuffers[k][..frames] == GetOut(vs[k], frames).1
      {
        GetInto(i, frames);
      }
    }

    method GetInto(k: nat, frames: nat)
      requires Valid() && k < |jitterBuffers| && frames <= MIN_DEPTH
      modifies repr, mixBuffers[k]
      ensures Valid() && channelMap.channels[..] == old(channelMap.channels[..])
      ensures BufferViews() == old(BufferViews())[k := GetOut(old(BufferViews())[k], frames).0]
      ensures mixBuffers[k][..frames] == GetOut(old(BufferViews())[k], frames).1
    {
      jitterBuffers[k].GetOut(mixBuffers[k], frames);
      forall i | 0 <= i < |jitterBuffers| && i != k
        ensures jitterBuffers[i].Valid() && jitterBuffers[i].View() == old(jitterBuffers[i].View())
      {
        assert ObjectsOf(jitterBuffers[i]) !! ObjectsOf(jitterBuffers[k]);
      }
    }

    /** What happens outside the buffers does not change them. */
    twostate lemma BuffersUntouched()
      requires old(Valid()) && channelMap.Valid()
      requires forall o :: o in repr ==> unchanged(o)
      ensures Valid() && BufferViews() == old(BufferViews())
    {
    }
  }
}
