/** The audio packet: samples to 16-bit codes and back, the header's byte order, and the relay. */
module JamPacket {
  import opened Bytes

  const JAM_BUF_SIZE: nat := 14400
  const HEADER_SIZE: nat := 28
  const FORTY_EIGHT_K: nat := 0

  type uint32 = n: nat | n < 0x1_0000_0000
  type uint64 = n: nat | n < 0x1_0000_0000_0000_0000

  // ---- byte order ----

  function Reverse(s: ByteString): (r: ByteString)
    ensures |r| == |s|
  {
    if s == [] then [] else Reverse(s[1..]) + [s[0]]
  }

  lemma {:induction false} ReverseSnoc(s: ByteString, b: byte)
    ensures Reverse(s + [b]) == [b] + Reverse(s)
  {
    if s != [] {
      assert (s + [b])[1..] == s[1..] + [b];
      ReverseSnoc(s[1..], b);
    } else {
      assert [] + [b] == [b] && Reverse([b]) == [b];
    }
  }

  lemma {:induction false} ReverseAt(s: ByteString, i: nat)
    requires i < |s|
    ensures Reverse(s)[i] == s[|s| - 1 - i]
  {
    if i < |s| - 1 {
      ReverseAt(s[1..], i);
    }
  }

  lemma {:induction false} ReverseTwice(s: ByteString)
    ensures Reverse(Reverse(s)) == s
  {
    if s != [] {
      ReverseSnoc(Reverse(s[1..]), s[0]);
      ReverseTwice(s[1..]);
    }
  }

  /** The bytes of an integer in the memory of a little-endian host. */
  function InMemory(x: nat, len: nat): (s: ByteString)
    ensures |s| == len
  {
    Reverse(BE(x, len))
  }

  /** htonl, htobe64 and their inverses on such a host: the integer with the bytes reversed. */
  function Swap(x: nat, len: nat): (y: nat)
    ensures y < Pow256(len)
  {
    FromBE(InMemory(x, len))
  }

  lemma SwapTwice(x: nat, len: nat)
    requires x < Pow256(len)
    ensures Swap(Swap(x, len), len) == x
  {
    ToFromBE(InMemory(x, len));
    ReverseTwice(BE(x, len));
    BERoundTrip(x, len);
  }

  /** What goes over the network is big-endian. */
  lemma SwappedIsBigEndian(x: nat, len: nat)
    ensures InMemory(Swap(x, len), len) == BE(x, len)
  {
    ToFromBE(InMemory(x, len));
    ReverseTwice(BE(x, len));
  }

  function Swap32(x: uint32): uint32 {
    Pow256Values();
    Swap(x, 4)
  }

  function Swap64(x: uint64): uint64 {
    Pow256Values();
    Swap(x, 8)
  }

  lemma Swap32Twice(x: uint32)
    ensures Swap32(Swap32(x)) == x
  {
    Pow256Values();
    SwapTwice(x, 4);
  }

  // ---- samples ----

  type Code = n: nat | n < 0x1_0000

  function Clamp(s: real): (r: real)
    ensures -1.0 <= r <= 1.0
  {
    if s > 1.0 then 1.0 else if s < -1.0 then -1.0 else s
  }

  /** Offset, scale and cut to an unsigned integer. */
  function EncodeSample(s: real): (c: Code)
    ensures c <= 65532
  {
    ((Clamp(s) + 1.0) * 32766.0).Floor
  }

  function DecodeSample(c: Code): real {
    1.0 / 32768.0 * c as real - 1.0
  }

  /** Decoding gives back the clamped sample from just below: never above it, and less than five
      steps of 1/32768 under it. */
  lemma SampleFidelity(s: real)
    ensures Clamp(s) - 5.0 / 32768.0 < DecodeSample(EncodeSample(s)) <= Clamp(s)
  {
  }

  /** So for a sample in range; louder ones are cut to the largest and the smallest code. */
  lemma SampleInRange(s: real)
    ensures -1.0 <= s <= 1.0 ==> s - 5.0 / 32768.0 < DecodeSample(EncodeSample(s)) <= s
    ensures s > 1.0 ==> EncodeSample(s) == 65532
    ensures s < -1.0 ==> EncodeSample(s) == 0 && DecodeSample(0) == -1.0
  {
    SampleFidelity(s);
  }

  /** Louder in, not softer out. */
  lemma SampleMonotone(s: real, t: real)
    requires s <= t
    ensures DecodeSample(EncodeSample(s)) <= DecodeSample(EncodeSample(t))
  {
    var a, b := (Clamp(s) + 1.0) * 32766.0, (Clamp(t) + 1.0) * 32766.0;
    assert a <= b;
    assert a.Floor <= b.Floor;
  }

  /** One channel as bytes, two per sample, high byte first. */
  function EncodeBlock(ss: seq<real>): (b: ByteString)
    ensures |b| == 2 * |ss|
  {
    if ss == [] then [] else EncodeBlock(ss[..|ss| - 1]) + BE(EncodeSample(ss[|ss| - 1]), 2)
  }

  function CodeAt(b: ByteString, i: nat): Code
    requires 2 * i + 2 <= |b|
  {
    Pow256Values();
    FromBE(b[2 * i..2 * i + 2])
  }

  function DecodeBlock(b: ByteString, n: nat): (ss: seq<real>)
    requires 2 * n <= |b|
    ensures |ss| == n
  {
    seq(n, i requires 0 <= i < n => DecodeSample(CodeAt(b, i)))
  }

  lemma SameCodes(b: ByteString, c: ByteString, i: nat)
    requires 2 * i + 2 <= |b| && 2 * i + 2 <= |c| && b[2 * i..2 * i + 2] == c[2 * i..2 * i + 2]
    ensures CodeAt(b, i) == CodeAt(c, i)
  {
  }

  lemma BackSlice<T>(a: seq<T>, b: seq<T>)
    ensures (a + b)[|a|..] == b
  {
  }

  lemma {:induction false} CodesSurvive(ss: seq<real>, i: nat)
    requires i < |ss|
    ensures CodeAt(EncodeBlock(ss), i) == EncodeSample(ss[i])
    decreases |ss|
  {
    var init, last := ss[..|ss| - 1], EncodeSample(ss[|ss| - 1]);
    var front, back := EncodeBlock(init), BE(last, 2);
    if i == |ss| - 1 {
      BackSlice(front, back);
      assert (front + back)[2 * i..2 * i + 2] == (front + back)[|front|..];
      CodeRead(last);
    } else {
      SliceStable(front, back, 2 * i, 2 * i + 2);
      SameCodes(front + back, front, i);
      CodesSurvive(init, i);
    }
  }

  /** On the wire a sample is two bytes, the more significant one first, and the channel follows in order. */
  lemma SampleBytes(ss: seq<real>, i: nat)
    requires i < |ss|
    ensures var b, code := EncodeBlock(ss), EncodeSample(ss[i]);
            b[2 * i] as nat == code / 256 && b[2 * i + 1] as nat == code % 256
  {
    var b := EncodeBlock(ss);
    CodesSurvive(ss, i);
    assert b[2 * i..2 * i + 2] == [b[2 * i], b[2 * i + 1]];
    TwoBytes(b[2 * i], b[2 * i + 1]);
    CodeDigits(b[2 * i], b[2 * i + 1], EncodeSample(ss[i]));
  }

  lemma CodeDigits(a: byte, b: byte, code: nat)
    requires 256 * a as nat + b as nat == code
    ensures a as nat == code / 256 && b as nat == code % 256
  {
    ByteBelow(b);
  }

  lemma ByteBelow(b: byte)
    ensures b as nat < 256
  {
  }

  lemma CodeRead(c: Code)
    ensures FromBE(BE(c, 2)) == c
  {
    Pow256Values();
    BERoundTrip(c, 2);
  }

  // ---- packets ----

  /** The message header as it lies in memory. */
  datatype Header = Header(channel: byte, sampleRate: nat, chunks: byte, beat: byte,
                           serverTime: uint64, timeStamp: uint64, clientId: uint32, sequenceNumber: uint32)

  datatype Packet = Packet(header: Header, buffer: ByteString, isClient: bool, clientId: uint32, bufferSize: int,
                           sequenceNo: uint32, sampleRate: nat, numSamples: nat)
  {
    predicate Valid() {
      |buffer| == JAM_BUF_SIZE
    }
  }

  /** Two channels of equal size that the message buffer can hold. */
  predicate Frames(left: seq<real>, right: seq<real>) {
    |left| == |right| && 4 * |left| <= JAM_BUF_SIZE
  }

  function EncodeAudio(p: Packet, left: seq<real>, right: seq<real>): (r: Packet)
    requires p.Valid() && Frames(left, right)
    ensures r.Valid()
  {
    var bytes := EncodeBlock(left) + EncodeBlock(right);
    p.(buffer := bytes + p.buffer[|bytes|..], bufferSize := |bytes|, numSamples := |left|)
  }

  /** A client stamps its own id and the next sequence number; a server passes them through. */
  function EncodeHeader(p: Packet, now: uint64): Packet {
    var h := p.header;
    p.(header := h.(sampleRate := p.sampleRate, timeStamp := Swap64(now), serverTime := Swap64(h.serverTime),
                    sequenceNumber := Swap32(if p.isClient then p.sequenceNo else h.sequenceNumber),
                    clientId := Swap32(if p.isClient then p.clientId else h.clientId)),
       sequenceNo := if p.isClient then (p.sequenceNo + 1) % 0x1_0000_0000 else p.sequenceNo)
  }

  predicate ValidPacket(p: Packet, nBytes: nat) {
    p.sampleRate == p.header.sampleRate && HEADER_SIZE <= nBytes
  }

  function DecodeHeader(p: Packet, nBytes: nat): Packet {
    var h := p.header;
    var q := p.(header := h.(timeStamp := Swap64(h.timeStamp), serverTime := Swap64(h.serverTime),
                             sequenceNumber := Swap32(h.sequenceNumber), clientId := Swap32(h.clientId)));
    if ValidPacket(p, nBytes) then
      q.(bufferSize := nBytes - HEADER_SIZE, numSamples := (nBytes - HEADER_SIZE) / 4)
    else q
  }

  function DecodeLeft(p: Packet): seq<real>
    requires p.Valid() && 4 * p.numSamples <= JAM_BUF_SIZE
  {
    DecodeBlock(p.buffer, p.numSamples)
  }

  function DecodeRight(p: Packet): seq<real>
    requires p.Valid() && 4 * p.numSamples <= JAM_BUF_SIZE
  {
    DecodeBlock(p.buffer[2 * p.numSamples..], p.numSamples)
  }

  /** What the server changes before it relays: channel, beat and server time. */
  function SetServerFields(p: Packet, channel: byte, beat: byte, serverTime: uint64): Packet {
    p.(header := p.header.(channel := channel, beat := beat, serverTime := serverTime), clientId := p.header.clientId)
  }

  // ---- the network ----

  /** A datagram: a header and the audio bytes behind it. */
  datatype Datagram = Datagram(header: Header, audio: ByteString)
  {
    predicate Valid() {
      |audio| <= JAM_BUF_SIZE
    }

    function Size(): nat {
      HEADER_SIZE + |audio|
    }
  }

  /** sendto with getSize bytes of the message. */
  function Send(p: Packet, headerOnly: bool): Datagram
    requires p.Valid() && 0 <= p.bufferSize <= JAM_BUF_SIZE
  {
    Datagram(p.header, if headerOnly then [] else p.buffer[..p.bufferSize])
  }

  /** recvfrom into the message, whose buffer keeps its old tail, then decodeHeader. */
  function Receive(p: Packet, d: Datagram): (r: Packet)
    requires p.Valid() && d.Valid()
    ensures r.Valid()
  {
    DecodeHeader(p.(header := d.header, buffer := d.audio + p.buffer[|d.audio|..]), d.Size())
  }

  /** Client to server to client. */
  function Sent(client: Packet, left: seq<real>, right: seq<real>, now: uint64): Datagram
    requires client.Valid() && Frames(left, right)
  {
    Send(EncodeHeader(EncodeAudio(client, left, right), now), false)
  }

  function Relayed(server: Packet, d: Datagram, channel: byte, beat: byte, serverTime: uint64, now: uint64): Datagram
    requires server.Valid() && d.Valid() && ValidPacket(server.(header := d.header), d.Size())
  {
    Send(EncodeHeader(SetServerFields(Receive(server, d), channel, beat, serverTime), now), false)
  }

  /** A datagram of another sample rate leaves the counts of the last good one; any other one sets them. */
  lemma CountsOfGoodPackets(p: Packet, d: Datagram)
    requires p.Valid() && d.Valid()
    ensures var r := Receive(p, d);
            if d.header.sampleRate == p.sampleRate then r.bufferSize == |d.audio| && r.numSamples == |d.audio| / 4
            else r.bufferSize == p.bufferSize && r.numSamples == p.numSamples
  {
  }

  /** The relay forwards the sender's id, its sequence number and all of its audio bytes. */
  lemma RelayKeeps(server: Packet, d: Datagram, channel: byte, beat: byte, serverTime: uint64, now: uint64)
    requires server.Valid() && !server.isClient && d.Valid() && server.sampleRate == d.header.sampleRate
    ensures var r := Relayed(server, d, channel, beat, serverTime, now);
            && r.Valid() && r.audio == d.audio
            && r.header.clientId == d.header.clientId && r.header.sequenceNumber == d.header.sequenceNumber
            && r.header.sampleRate == d.header.sampleRate
            && r.header.channel == channel && r.header.beat == beat
  {
    Swap32Twice(d.header.clientId);
    Swap32Twice(d.header.sequenceNumber);
  }

  /** The sender's id, number, sample count and bytes, as a receiver reads them. */
  lemma ReceivedFields(receiver: Packet, d: Datagram, id: uint32, seqNo: uint32, n: nat)
    requires receiver.Valid() && d.Valid() && receiver.sampleRate == d.header.sampleRate
    requires d.header.clientId == Swap32(id) && d.header.sequenceNumber == Swap32(seqNo) && |d.audio| == 4 * n
    ensures var r := Receive(receiver, d);
            && r.header.clientId == id && r.header.sequenceNumber == seqNo
            && r.numSamples == n && r.buffer[..4 * n] == d.audio
  {
    Swap32Twice(id);
    Swap32Twice(seqNo);
  }

  lemma SentFields(client: Packet, left: seq<real>, right: seq<real>, now: uint64)
    requires client.Valid() && client.isClient && Frames(left, right)
    ensures var d := Sent(client, left, right, now);
            && d.Valid() && d.audio == EncodeBlock(left) + EncodeBlock(right)
            && d.header.clientId == Swap32(client.clientId) && d.header.sequenceNumber == Swap32(client.sequenceNo)
            && d.header.sampleRate == client.sampleRate
  {
  }

  lemma DecodedLeft(p: Packet, l: ByteString, rest: ByteString, i: nat)
    requires p.Valid() && 4 * p.numSamples <= JAM_BUF_SIZE && i < p.numSamples
    requires |l| == 2 * p.numSamples && p.buffer == l + rest
    ensures DecodeLeft(p)[i] == DecodeSample(CodeAt(l, i))
  {
    SliceStable(l, rest, 2 * i, 2 * i + 2);
    SameCodes(p.buffer, l, i);
  }

  lemma DecodedRight(p: Packet, l: ByteString, r: ByteString, rest: ByteString, i: nat)
    requires p.Valid() && 4 * p.numSamples <= JAM_BUF_SIZE && i < p.numSamples
    requires |l| == |r| == 2 * p.numSamples && p.buffer == l + (r + rest)
    ensures DecodeRight(p)[i] == DecodeSample(CodeAt(r, i))
  {
    BackSlice(l, r + rest);
    SliceStable(r, rest, 2 * i, 2 * i + 2);
    SameCodes(r + rest, r, i);
  }

  lemma DecodedBlocks(p: Packet, left: seq<real>, right: seq<real>, i: nat)
    requires p.Valid() && Frames(left, right) && p.numSamples == |left| && i < |left|
    requires p.buffer[..4 * |left|] == EncodeBlock(left) + EncodeBlock(right)
    ensures DecodeLeft(p)[i] == DecodeSample(EncodeSample(left[i]))
    ensures DecodeRight(p)[i] == DecodeSample(EncodeSample(right[i]))
  {
    var l, r, rest := EncodeBlock(left), EncodeBlock(right), p.buffer[4 * |left|..];
    assert p.buffer == p.buffer[..4 * |left|] + rest;
    assert p.buffer == l + (r + rest);
    CodesSurvive(left, i);
    CodesSurvive(right, i);
    DecodedLeft(p, l, r + rest, i);
    DecodedRight(p, l, r, rest, i);
  }

  /** From client to server to receiver: the id, the sequence number and the sample count are
      preserved, and every sample comes back as SampleFidelity says, on its own channel. */
  lemma EndToEnd(client: Packet, left: seq<real>, right: seq<real>, sentAt: uint64,
                 server: Packet, channel: byte, beat: byte, serverTime: uint64, relayedAt: uint64, receiver: Packet)
    requires client.Valid() && client.isClient && Frames(left, right)
    requires server.Valid() && !server.isClient && receiver.Valid()
    requires client.sampleRate == server.sampleRate == receiver.sampleRate
    ensures var d := Sent(client, left, right, sentAt);
            d.Valid() && server.sampleRate == d.header.sampleRate
    ensures var r := Receive(receiver, Relayed(server, Sent(client, left, right, sentAt), channel, beat, serverTime, relayedAt));
            && r.header.clientId == client.clientId
            && r.header.sequenceNumber == client.sequenceNo
            && r.numSamples == |left|
            && forall i :: 0 <= i < |left| ==>
                 && DecodeLeft(r)[i] == DecodeSample(EncodeSample(left[i]))
                 && DecodeRight(r)[i] == DecodeSample(EncodeSample(right[i]))
                 && Clamp(left[i]) - 5.0 / 32768.0 < DecodeLeft(r)[i] <= Clamp(left[i])
                 && Clamp(right[i]) - 5.0 / 32768.0 < DecodeRight(r)[i] <= Clamp(right[i])
  {
    var d := Sent(client, left, right, sentAt);
    SentFields(client, left, right, sentAt);
    RelayKeeps(server, d, channel, beat, serverTime, relayedAt);
    var e := Relayed(server, d, channel, beat, serverTime, relayedAt);
    ReceivedFields(receiver, e, client.clientId, client.sequenceNo, |left|);
    var r := Receive(receiver, e);
    forall i | 0 <= i < |left|
      ensures && DecodeLeft(r)[i] == DecodeSample(EncodeSample(left[i]))
              && DecodeRight(r)[i] == DecodeSample(EncodeSample(right[i]))
              && Clamp(left[i]) - 5.0 / 32768.0 < DecodeLeft(r)[i] <= Clamp(left[i])
              && Clamp(right[i]) - 5.0 / 32768.0 < DecodeRight(r)[i] <= Clamp(right[i])
    {
      DecodedBlocks(r, left, right, i);
      SampleFidelity(left[i]);
      SampleFidelity(right[i]);
    }
  }
}
