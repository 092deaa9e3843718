/** Packets over whole runs: the numbers of a client's blocks through the relay, what a jitter buffer makes
    of them, and the server time that a client echoes. */
module PacketRuns {
  import opened Bytes
  import opened JamPacket
  import L = JitterLiveness

  // ---- a client's packets ----

  /** What a client does with its packet: send a block, or take in what the server sent. */
  datatype ClientEvent = SendBlock(left: seq<real>, right: seq<real>, now: uint64) | Got(d: Datagram)
  {
    predicate Valid() {
      match this
      case SendBlock(left, right, _) => Frames(left, right)
      case Got(d) => d.Valid()
    }
  }

  ghost predicate AllValid(es: seq<ClientEvent>) {
    forall i :: 0 <= i < |es| ==> es[i].Valid()
  }

  function ClientStep(p: Packet, e: ClientEvent): (q: Packet)
    requires p.Valid() && e.Valid()
    ensures q.Valid()
  {
    match e
    case SendBlock(left, right, now) => EncodeHeader(EncodeAudio(p, left, right), now)
    case Got(d) => Receive(p, d)
  }

  /** The datagrams of a run. */
  ghost function Emitted(p: Packet, es: seq<ClientEvent>): seq<Datagram>
    requires p.Valid() && AllValid(es)
    decreases |es|
  {
    if es == [] then []
    else (if es[0].SendBlock? then [Sent(p, es[0].left, es[0].right, es[0].now)] else [])
         + Emitted(ClientStep(p, es[0]), es[1..])
  }

  /** The blocks that the run sends. */
  ghost function Blocks(es: seq<ClientEvent>): seq<ClientEvent> {
    if es == [] then [] else (if es[0].SendBlock? then [es[0]] else []) + Blocks(es[1..])
  }

  /** The number that is n after first, in 32 bits. */
  function Later(first: uint32, n: nat): uint32 {
    (first + n) % 0x1_0000_0000
  }

  lemma LaterStep(first: uint32, n: nat)
    ensures Later(Later(first, n), 1) == Later(first, n + 1)
  {
    var m: nat := Later(first, n);
    assert first + n == (first + n) / 0x1_0000_0000 * 0x1_0000_0000 + m;
    if m + 1 < 0x1_0000_0000 {
      assert Later(first, n + 1) == m + 1;
    } else {
      assert Later(first, n + 1) == 0;
    }
  }

  /** What a datagram with block b and number n carries, to whoever knows its sender. */
  ghost predicate Carries(d: Datagram, client: uint32, rate: nat, n: uint32, b: ClientEvent) {
    && d.Valid() && b.SendBlock? && Frames(b.left, b.right)
    && d.header.clientId == Swap32(client) && d.header.sequenceNumber == Swap32(n) && d.header.sampleRate == rate
    && d.audio == EncodeBlock(b.left) + EncodeBlock(b.right)
  }

  lemma SendFields(p: Packet, left: seq<real>, right: seq<real>, now: uint64)
    requires p.Valid() && p.isClient && Frames(left, right)
    ensures var q := EncodeHeader(EncodeAudio(p, left, right), now);
            && q.isClient && q.clientId == p.clientId && q.sampleRate == p.sampleRate
            && q.sequenceNo == Later(p.sequenceNo, 1)
  {
  }

  lemma GotFields(p: Packet, d: Datagram)
    requires p.Valid() && d.Valid()
    ensures var q := Receive(p, d);
            && q.isClient == p.isClient && q.clientId == p.clientId && q.sampleRate == p.sampleRate
            && q.sequenceNo == p.sequenceNo
  {
  }

  lemma ClientStepFields(p: Packet, e: ClientEvent)
    requires p.Valid() && p.isClient && e.Valid()
    ensures var q := ClientStep(p, e);
            && q.isClient && q.clientId == p.clientId && q.sampleRate == p.sampleRate
            && q.sequenceNo == if e.SendBlock? then Later(p.sequenceNo, 1) else p.sequenceNo
  {
    match e
    case SendBlock(left, right, now) => SendFields(p, left, right, now);
    case Got(d) => GotFields(p, d);
  }

  /** The k-th datagram carries the k-th block and the number that is at + k after the first. */
  ghost predicate CarryAll(ds: seq<Datagram>, client: uint32, rate: nat, first: uint32, at: nat, bs: seq<ClientEvent>) {
    |ds| == |bs| && forall k :: 0 <= k < |ds| ==> Carries(ds[k], client, rate, Later(first, at + k), bs[k])
  }

  lemma CarryCons(d: Datagram, ds: seq<Datagram>, client: uint32, rate: nat, first: uint32, at: nat, b: ClientEvent, bs: seq<ClientEvent>)
    requires Carries(d, client, rate, Later(first, at), b) && CarryAll(ds, client, rate, first, at + 1, bs)
    ensures CarryAll([d] + ds, client, rate, first, at, [b] + bs)
  {
    var all, blocks := [d] + ds, [b] + bs;
    forall k | 0 <= k < |all|
      ensures Carries(all[k], client, rate, Later(first, at + k), blocks[k])
    {
      if k > 0 {
        assert Carries(ds[k - 1], client, rate, Later(first, at + 1 + (k - 1)), bs[k - 1]);
      }
    }
  }

  /** Whatever arrives in between. */
  lemma {:induction false} EmittedCarry(p: Packet, es: seq<ClientEvent>, first: uint32, at: nat)
    requires p.Valid() && p.isClient && AllValid(es) && p.sequenceNo == Later(first, at)
    ensures CarryAll(Emitted(p, es), p.clientId, p.sampleRate, first, at, Blocks(es))
    decreases |es|
  {
    if es != [] {
      var e, q := es[0], ClientStep(p, es[0]);
      ClientStepFields(p, e);
      LaterStep(first, at);
      EmittedCarry(q, es[1..], first, if e.SendBlock? then at + 1 else at);
      EmittedFirst(p, es);
      EmittedOnce(p, e, first, at, Emitted(q, es[1..]), Blocks(es[1..]), Emitted(p, es), Blocks(es));
    }
  }

  lemma EmittedOnce(p: Packet, e: ClientEvent, first: uint32, at: nat,
                    ds: seq<Datagram>, bs: seq<ClientEvent>, all: seq<Datagram>, blocks: seq<ClientEvent>)
    requires p.Valid() && p.isClient && e.Valid() && p.sequenceNo == Later(first, at)
    requires CarryAll(ds, p.clientId, p.sampleRate, first, if e.SendBlock? then at + 1 else at, bs)
    requires if e.SendBlock? then all == [Sent(p, e.left, e.right, e.now)] + ds && blocks == [e] + bs
             else all == ds && blocks == bs
    ensures CarryAll(all, p.clientId, p.sampleRate, first, at, blocks)
  {
    if e.SendBlock? {
      SentFields(p, e.left, e.right, e.now);
      CarryCons(Sent(p, e.left, e.right, e.now), ds, p.clientId, p.sampleRate, first, at, e, bs);
    }
  }

  lemma EmittedFirst(p: Packet, es: seq<ClientEvent>)
    requires p.Valid() && AllValid(es) && es != []
    ensures var e, ds, bs := es[0], Emitted(ClientStep(p, es[0]), es[1..]), Blocks(es[1..]);
            if e.SendBlock? then Emitted(p, es) == [Sent(p, e.left, e.right, e.now)] + ds && Blocks(es) == [e] + bs
            else Emitted(p, es) == ds && Blocks(es) == bs
  {
  }

  // ---- through the relay ----

  /** What the server stamps on one packet. */
  datatype Hop = Hop(channel: byte, beat: byte, serverTime: uint64, now: uint64)

  ghost predicate Relays(server: Packet, ds: seq<Datagram>) {
    && server.Valid() && !server.isClient
    && forall i :: 0 <= i < |ds| ==> ds[i].Valid() && ds[i].header.sampleRate == server.sampleRate
  }

  function ServerStep(server: Packet, d: Datagram, h: Hop): Packet
    requires server.Valid() && d.Valid()
  {
    EncodeHeader(SetServerFields(Receive(server, d), h.channel, h.beat, h.serverTime), h.now)
  }

  /** The receiver's packet after each datagram that the server relays to it. */
  ghost function Arrivals(server: Packet, receiver: Packet, ds: seq<Datagram>, hs: seq<Hop>): (rs: seq<Packet>)
    requires Relays(server, ds) && receiver.Valid() && |hs| == |ds|
    ensures |rs| == |ds|
    decreases |ds|
  {
    if ds == [] then []
    else
      var r := Delivered(server, receiver, ds[0], hs[0]);
      [r] + Arrivals(ServerStep(server, ds[0], hs[0]), r, ds[1..], hs[1..])
  }

  /** What the receiver knows of a block. */
  ghost predicate Arrived(r: Packet, client: uint32, n: uint32, b: ClientEvent)
    requires b.SendBlock?
  {
    && r.Valid() && r.header.clientId == client && r.header.sequenceNumber == n
    && |b.left| == |b.right| == r.numSamples && 4 * r.numSamples <= JAM_BUF_SIZE
    && forall i :: 0 <= i < r.numSamples ==>
         && Clamp(b.left[i]) - 5.0 / 32768.0 < DecodeLeft(r)[i] <= Clamp(b.left[i])
         && Clamp(b.right[i]) - 5.0 / 32768.0 < DecodeRight(r)[i] <= Clamp(b.right[i])
  }

  lemma OneHop(server: Packet, receiver: Packet, d: Datagram, h: Hop, client: uint32, n: uint32, b: ClientEvent)
    requires server.Valid() && !server.isClient && receiver.Valid() && receiver.sampleRate == server.sampleRate
    requires Carries(d, client, server.sampleRate, n, b)
    ensures Arrived(Delivered(server, receiver, d, h), client, n, b)
  {
    var e := Relayed(server, d, h.channel, h.beat, h.serverTime, h.now);
    RelayKeeps(server, d, h.channel, h.beat, h.serverTime, h.now);
    ReceivedFields(receiver, e, client, n, |b.left|);
    SamplesArrive(Receive(receiver, e), b.left, b.right);
  }

  lemma SamplesArrive(r: Packet, left: seq<real>, right: seq<real>)
    requires r.Valid() && Frames(left, right) && r.numSamples == |left|
    requires r.buffer[..4 * |left|] == EncodeBlock(left) + EncodeBlock(right)
    ensures forall i :: 0 <= i < |left| ==>
      && Clamp(left[i]) - 5.0 / 32768.0 < DecodeLeft(r)[i] <= Clamp(left[i])
      && Clamp(right[i]) - 5.0 / 32768.0 < DecodeRight(r)[i] <= Clamp(right[i])
  {
    forall i | 0 <= i < |left|
      ensures && Clamp(left[i]) - 5.0 / 32768.0 < DecodeLeft(r)[i] <= Clamp(left[i])
              && Clamp(right[i]) - 5.0 / 32768.0 < DecodeRight(r)[i] <= Clamp(right[i])
    {
      DecodedBlocks(r, left, right, i);
      SampleFidelity(left[i]);
      SampleFidelity(right[i]);
    }
  }

  lemma ServerStepKeeps(server: Packet, d: Datagram, h: Hop)
    requires server.Valid() && d.Valid()
    ensures var t := ServerStep(server, d, h);
            t.Valid() && t.isClient == server.isClient && t.sampleRate == server.sampleRate
  {
  }

  lemma DeliveredKeeps(server: Packet, receiver: Packet, d: Datagram, h: Hop)
    requires server.Valid() && d.Valid() && d.header.sampleRate == server.sampleRate && receiver.Valid()
    ensures var r := Delivered(server, receiver, d, h);
            r.Valid() && r.isClient == receiver.isClient && r.sampleRate == receiver.sampleRate
  {
  }

  ghost predicate ArrivedAll(rs: seq<Packet>, client: uint32, first: uint32, at: nat, bs: seq<ClientEvent>) {
    |rs| == |bs| && forall k :: 0 <= k < |rs| ==> bs[k].SendBlock? && Arrived(rs[k], client, Later(first, at + k), bs[k])
  }

  lemma CarryTail(ds: seq<Datagram>, client: uint32, rate: nat, first: uint32, at: nat, bs: seq<ClientEvent>)
    requires CarryAll(ds, client, rate, first, at, bs) && ds != []
    ensures Carries(ds[0], client, rate, Later(first, at), bs[0]) && CarryAll(ds[1..], client, rate, first, at + 1, bs[1..])
  {
    assert Carries(ds[0], client, rate, Later(first, at + 0), bs[0]);
    forall k | 0 <= k < |ds| - 1
      ensures Carries(ds[1..][k], client, rate, Later(first, at + 1 + k), bs[1..][k])
    {
      assert Carries(ds[k + 1], client, rate, Later(first, at + (k + 1)), bs[k + 1]);
    }
  }

  function Delivered(server: Packet, receiver: Packet, d: Datagram, h: Hop): Packet
    requires server.Valid() && d.Valid() && d.header.sampleRate == server.sampleRate && receiver.Valid()
  {
    Receive(receiver, Relayed(server, d, h.channel, h.beat, h.serverTime, h.now))
  }

  lemma {:induction false} HopsCarry(server: Packet, receiver: Packet, ds: seq<Datagram>, hs: seq<Hop>,
                                     client: uint32, first: uint32, at: nat, bs: seq<ClientEvent>)
    requires Relays(server, ds) && receiver.Valid() && receiver.sampleRate == server.sampleRate && |hs| == |ds|
    requires CarryAll(ds, client, server.sampleRate, first, at, bs)
    ensures ArrivedAll(Arrivals(server, receiver, ds, hs), client, first, at, bs)
    decreases |ds|
  {
    if ds != [] {
      var r, t := Delivered(server, receiver, ds[0], hs[0]), ServerStep(server, ds[0], hs[0]);
      CarryTail(ds, client, server.sampleRate, first, at, bs);
      ServerStepKeeps(server, ds[0], hs[0]);
      DeliveredKeeps(server, receiver, ds[0], hs[0]);
      HopsCarry(t, r, ds[1..], hs[1..], client, first, at + 1, bs[1..]);
      ArrivalsFirst(server, receiver, ds, hs);
      OneHop(server, receiver, ds[0], hs[0], client, Later(first, at), bs[0]);
      ArrivedOnce(r, Arrivals(t, r, ds[1..], hs[1..]), client, first, at, bs, Arrivals(server, receiver, ds, hs));
    }
  }

  lemma ArrivalsFirst(server: Packet, receiver: Packet, ds: seq<Datagram>, hs: seq<Hop>)
    requires Relays(server, ds) && receiver.Valid() && |hs| == |ds| && ds != []
    ensures var r, t := Delivered(server, receiver, ds[0], hs[0]), ServerStep(server, ds[0], hs[0]);
            Relays(t, ds[1..]) && r.Valid() && Arrivals(server, receiver, ds, hs) == [r] + Arrivals(t, r, ds[1..], hs[1..])
  {
  }

  lemma ArrivedOnce(r: Packet, rs: seq<Packet>, client: uint32, first: uint32, at: nat, bs: seq<ClientEvent>, all: seq<Packet>)
    requires bs != [] && bs[0].SendBlock? && Arrived(r, client, Later(first, at), bs[0]) && all == [r] + rs
    requires ArrivedAll(rs, client, first, at + 1, bs[1..])
    ensures ArrivedAll(all, client, first, at, bs)
  {
    forall k | 0 <= k < |all|
      ensures bs[k].SendBlock? && Arrived(all[k], client, Later(first, at + k), bs[k])
    {
      if k > 0 {
        assert bs[1..][k - 1] == bs[k] && all[k] == rs[k - 1];
        assert Arrived(rs[k - 1], client, Later(first, at + 1 + (k - 1)), bs[1..][k - 1]);
      }
    }
  }

  /** End to end over a run: the k-th block that a client sends arrives under its id with the k-th number from
      the first on, in 32 bits, and with its samples. */
  lemma RunArrives(p: Packet, es: seq<ClientEvent>, server: Packet, receiver: Packet, hs: seq<Hop>)
    requires p.Valid() && p.isClient && AllValid(es)
    requires server.Valid() && !server.isClient && receiver.Valid()
    requires p.sampleRate == server.sampleRate == receiver.sampleRate && |hs| == |Blocks(es)|
    ensures |Emitted(p, es)| == |Blocks(es)| && Relays(server, Emitted(p, es))
    ensures ArrivedAll(Arrivals(server, receiver, Emitted(p, es), hs), p.clientId, p.sequenceNo, 0, Blocks(es))
  {
    assert Later(p.sequenceNo, 0) == p.sequenceNo;
    EmittedCarry(p, es, p.sequenceNo, 0);
    HopsCarry(server, receiver, Emitted(p, es), hs, p.clientId, p.sequenceNo, 0, Blocks(es));
  }

  // ---- into a jitter buffer ----

  lemma LaterDiffers(first: uint32, n: nat)
    ensures Later(first, n) != Later(first, n + 1)
  {
    LaterStep(first, n);
  }

  /** Blocks of one size with those numbers are what the playback theorems ask for: none repeats the number
      before it, if the first does not repeat the last one the buffer has seen. */
  lemma {:induction false} NumbersMakeStream(first: uint32, last: uint32, f: nat, ps: seq<L.Packet>)
    requires first != last
    requires forall k :: 0 <= k < |ps| ==> |ps[k].data| == f && ps[k].seqNo == Later(first, k)
    ensures L.Stream(last, f, ps)
    decreases |ps|
  {
    if ps != [] {
      var n := |ps| - 1;
      NumbersMakeStream(first, last, f, ps[..n]);
      if n > 0 {
        LaterDiffers(first, n - 1);
        assert ps[..n][n - 1] == ps[n - 1];
      } else {
        assert Later(first, 0) == first;
      }
    }
  }

  /** A new client starts with the number 0, which a buffer just flushed has seen: its first block is taken for a
      duplicate, and its stream starts with the second. */
  lemma NewClientStream(f: nat, ps: seq<L.Packet>)
    requires ps != [] && forall k :: 0 <= k < |ps| ==> |ps[k].data| == f && ps[k].seqNo == Later(0, k)
    ensures ps[0].seqNo == 0 && L.Stream(0, f, ps[1..])
  {
    forall k | 0 <= k < |ps| - 1
      ensures ps[1..][k].seqNo == Later(1, k)
    {
      assert 1 + k == 0 + (k + 1);
      assert ps[1..][k] == ps[k + 1];
    }
    NumbersMakeStream(1, 0, f, ps[1..]);
  }

  /** One channel of a received packet, as the mixer hands it to a jitter buffer. */
  function Incoming(r: Packet, right: bool): L.Packet
    requires r.Valid() && r.numSamples <= 511
  {
    L.Packet(if right then DecodeRight(r) else DecodeLeft(r), r.header.sequenceNumber)
  }

  /** So the run of a client that sends blocks of f samples, through the relay into the buffer of a channel, is
      such a stream. A buffer just flushed has seen the number 0. */
  lemma RunIsStream(p: Packet, es: seq<ClientEvent>, server: Packet, receiver: Packet, hs: seq<Hop>,
                    last: uint32, f: nat, right: bool, ps: seq<L.Packet>)
    requires p.Valid() && p.isClient && AllValid(es) && p.sequenceNo != last && f <= 511
    requires server.Valid() && !server.isClient && receiver.Valid()
    requires p.sampleRate == server.sampleRate == receiver.sampleRate && |hs| == |Blocks(es)| == |Emitted(p, es)|
    requires Relays(server, Emitted(p, es))
    requires forall k :: 0 <= k < |Blocks(es)| ==> Blocks(es)[k].SendBlock? && |Blocks(es)[k].left| == f
    requires |ps| == |Blocks(es)|
    requires var rs := Arrivals(server, receiver, Emitted(p, es), hs);
             forall k :: 0 <= k < |ps| ==> rs[k].Valid() && rs[k].numSamples <= 511 && ps[k] == Incoming(rs[k], right)
    ensures L.Stream(last, f, ps)
  {
    forall k | 0 <= k < |ps|
      ensures |ps[k].data| == f && ps[k].seqNo == Later(p.sequenceNo, k)
    {
      RunArrives(p, es, server, receiver, hs);
    }
    NumbersMakeStream(p.sequenceNo, last, f, ps);
  }

  // ---- the echo of the server time ----

  lemma Swap64Twice(x: uint64)
    ensures Swap64(Swap64(x)) == x
  {
    Pow256Values();
    SwapTwice(x, 8);
  }

  /** A sequence of times, each the last one converted. */
  predicate Converted(ts: seq<uint64>) {
    forall i :: 0 < i < |ts| ==> ts[i] == Swap64(ts[i - 1])
  }

  lemma {:induction false} ConvertedAlternates(ts: seq<uint64>, n: nat)
    requires n < |ts| && Converted(ts)
    ensures ts[n] == if n % 2 == 0 then ts[0] else Swap64(ts[0])
    decreases n
  {
    if n >= 2 {
      ConvertedTwice(ts, n);
      ConvertedAlternates(ts, n - 2);
    }
  }

  lemma ConvertedTwice(ts: seq<uint64>, n: nat)
    requires 2 <= n < |ts| && Converted(ts)
    ensures ts[n] == ts[n - 2]
  {
    Swap64Twice(ts[n - 2]);
    assert ts[n - 1] == Swap64(ts[n - 2]);
  }

  /** A client's packet before and after each of some blocks, with nothing received in between. */
  ghost predicate SentOneByOne(qs: seq<Packet>, bs: seq<ClientEvent>) {
    && |qs| == |bs| + 1 && (forall i :: 0 <= i < |qs| ==> qs[i].Valid())
    && forall i :: 0 <= i < |bs| ==> bs[i].SendBlock? && bs[i].Valid() && qs[i + 1] == ClientStep(qs[i], bs[i])
  }

  lemma SendSwaps(q: Packet, b: ClientEvent)
    requires q.Valid() && b.SendBlock? && b.Valid()
    ensures ClientStep(q, b).header.serverTime == Swap64(q.header.serverTime)
  {
  }

  lemma TimesHeld(qs: seq<Packet>, bs: seq<ClientEvent>) returns (ts: seq<uint64>)
    requires SentOneByOne(qs, bs)
    ensures |ts| == |qs| && Converted(ts) && ts[0] == qs[0].header.serverTime && ts[|bs|] == qs[|bs|].header.serverTime
  {
    ts := seq(|qs|, i requires 0 <= i < |qs| => qs[i].header.serverTime);
    forall i | 0 < i < |ts|
      ensures ts[i] == Swap64(ts[i - 1])
    {
      assert qs[(i - 1) + 1] == ClientStep(qs[i - 1], bs[i - 1]);
      SendSwaps(qs[i - 1], bs[i - 1]);
    }
  }

  /** A client converts the server time in its packet in place at every block it sends. So after n blocks with
      nothing received in between, the next block echoes that time to the server exactly if n is even, or the
      time reads the same backwards. */
  lemma EchoIff(qs: seq<Packet>, bs: seq<ClientEvent>, left: seq<real>, right: seq<real>, now: uint64, server: Packet)
    requires SentOneByOne(qs, bs) && Frames(left, right) && server.Valid()
    ensures var d, x := Sent(qs[|bs|], left, right, now), qs[0].header.serverTime;
            d.Valid() && (Receive(server, d).header.serverTime == x <==> |bs| % 2 == 0 || Swap64(x) == x)
  {
    var ts := TimesHeld(qs, bs);
    ConvertedAlternates(ts, |bs|);
    EchoOnce(qs[|bs|], left, right, now, server, qs[0].header.serverTime, |bs|);
  }

  /** A time that does not read the same backwards: the second block after a packet stamped 1 does not echo it. */
  lemma OneReversed()
    ensures Swap64(1) != 1
  {
    SwappedIsBigEndian(1, 8);
    ReverseAt(BE(1, 8), 7);
    ByteNat(1);
    FirstDigit();
    assert BE(1, 8)[7] == 1 as byte;
  }

  lemma FirstDigit()
    ensures BE(1, 8)[0] == 0
  {
    assert BE(1, 8)[..7] == BE(0, 7);
    assert BE(0, 7)[0] == 0;
  }

  lemma EchoOnce(q: Packet, left: seq<real>, right: seq<real>, now: uint64, server: Packet, x: uint64, n: nat)
    requires q.Valid() && Frames(left, right) && server.Valid()
    requires q.header.serverTime == if n % 2 == 0 then x else Swap64(x)
    ensures var d := Sent(q, left, right, now);
            d.Valid() && (Receive(server, d).header.serverTime == x <==> n % 2 == 0 || Swap64(x) == x)
  {
    SentTime(q, left, right, now, server);
    SwappedBack(x, n, q.header.serverTime);
  }

  lemma SwappedBack(x: uint64, n: nat, y: uint64)
    requires y == if n % 2 == 0 then x else Swap64(x)
    ensures Swap64(Swap64(y)) == x <==> n % 2 == 0 || Swap64(x) == x
  {
    Swap64Twice(y);
  }

  lemma SentTime(p: Packet, left: seq<real>, right: seq<real>, now: uint64, server: Packet)
    requires p.Valid() && Frames(left, right) && server.Valid()
    ensures var d := Sent(p, left, right, now);
            d.Valid() && Receive(server, d).header.serverTime == Swap64(Swap64(p.header.serverTime))
  {
  }

  /** The server's time, channel and beat as a client reads them. */
  lemma ServerFieldsArrive(server: Packet, d: Datagram, h: Hop, receiver: Packet)
    requires server.Valid() && !server.isClient && d.Valid() && server.sampleRate == d.header.sampleRate && receiver.Valid()
    ensures var r := Receive(receiver, Relayed(server, d, h.channel, h.beat, h.serverTime, h.now));
            r.header.serverTime == h.serverTime && r.header.channel == h.channel && r.header.beat == h.beat
  {
    Swap64Twice(h.serverTime);
  }
}
