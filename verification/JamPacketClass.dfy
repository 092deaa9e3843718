/** The class `JamPacket`: a message buffer written and read in place. */
module JamPacketClass {
  import opened Bytes
  import P = JamPacket

  class JamPacket {
    var header: P.Header
    const buffer: array<byte>
    var isClient: bool
    var clientId: P.uint32
    var bufferSize: int
    var sequenceNo: P.uint32
    const sampleRate: nat := P.FORTY_EIGHT_K
    var numSamples: nat

    ghost predicate Valid()
      reads this
    {
      buffer.Length == P.JAM_BUF_SIZE
    }

    ghost function View(): (p: P.Packet)
      requires Valid()
      reads this, buffer
      ensures p.Valid()
    {
      P.Packet(header, buffer[..], isClient, clientId, bufferSize, sequenceNo, sampleRate, numSamples)
    }

    constructor (clientId: P.uint32, header: P.Header)
      ensures Valid() && fresh(buffer) && isClient && this.clientId == clientId
      ensures bufferSize == 0 && sequenceNo == 0 && numSamples == 0
    {
      this.header := header;
      buffer := new byte[P.JAM_BUF_SIZE];
      isClient := true;
      this.clientId := clientId;
      bufferSize, sequenceNo, numSamples := 0, 0, 0;
    }

    method EncodeAudio(left: seq<real>, right: seq<real>)
      requires Valid() && P.Frames(left, right)
      modifies this`numSamples, this`bufferSize, buffer
      ensures Valid() && View() == P.EncodeAudio(old(View()), left, right)
    {
      numSamples := |left|;
      EncodeJamBuffer(0, left);
      ghost var mid := buffer[..];
      EncodeJamBuffer(2 * |left|, right);
      bufferSize := |left| * 2 * 2;
      assert mid[..2 * |left|] == P.EncodeBlock(left);
      assert buffer[..] == P.EncodeBlock(left) + P.EncodeBlock(right) + old(buffer[..])[4 * |left|..];
    }

    /** One channel of samples to codes in network order, from byte `at` on. */
    method EncodeJamBuffer(at: nat, samples: seq<real>)
      requires Valid() && at + 2 * |samples| <= P.JAM_BUF_SIZE
      modifies buffer
      ensures buffer[..] == old(buffer[..at]) + P.EncodeBlock(samples) + old(buffer[at + 2 * |samples|..])
    {
      ghost var b := buffer[..];
      for i := 0 to |samples|
        invariant buffer[..] == b[..at] + P.EncodeBlock(samples[..i]) + b[at + 2 * i..]
      {
        ghost var before := buffer[..];
        var code := P.EncodeSample(samples[i]);
        var bytes := BE(code, 2);
        buffer[at + 2 * i] := bytes[0];
        buffer[at + 2 * i + 1] := bytes[1];
        assert samples[..i + 1][..i] == samples[..i];
        OneMore(b, before, at, P.EncodeBlock(samples[..i]), bytes, buffer[..]);
      }
      assert samples[..|samples|] == samples;
    }

    /** Stamp the header for sending; `now` is the clock. */
    method EncodeHeader(now: P.uint64)
      requires Valid()
      modifies this`header, this`sequenceNo
      ensures Valid() && View() == P.EncodeHeader(old(View()), now)
    {
      header := header.(sampleRate := sampleRate, timeStamp := P.Swap64(now));
      header := header.(serverTime := P.Swap64(header.serverTime));
      if isClient {
        header := header.(sequenceNumber := P.Swap32(sequenceNo), clientId := P.Swap32(clientId));
        sequenceNo := (sequenceNo + 1) % 0x1_0000_0000;
      } else {
        header := header.(sequenceNumber := P.Swap32(header.sequenceNumber), clientId := P.Swap32(header.clientId));
      }
    }

    /** A packet with another sample rate, or shorter than a header, keeps the old counts. */
    method DecodeHeader(nBytes: nat) returns (n: nat)
      requires Valid()
      modifies this`header, this`bufferSize, this`numSamples
      ensures Valid() && View() == P.DecodeHeader(old(View()), nBytes)
      ensures n == if P.ValidPacket(old(View()), nBytes) then numSamples else 0
    {
      header := header.(timeStamp := P.Swap64(header.timeStamp), serverTime := P.Swap64(header.serverTime));
      header := header.(sequenceNumber := P.Swap32(header.sequenceNumber), clientId := P.Swap32(header.clientId));
      if sampleRate != header.sampleRate || P.HEADER_SIZE > nBytes {
        return 0;
      }
      bufferSize := nBytes - P.HEADER_SIZE;
      numSamples := bufferSize / 4;
      return numSamples;
    }

    method DecodeJamBuffer(left: array<real>, right: array<real>) returns (n: nat)
      requires Valid() && 4 * numSamples <= P.JAM_BUF_SIZE && left != right
      requires numSamples <= left.Length && numSamples <= right.Length
      requires buffer as object != left as object && buffer as object != right as object
      modifies left, right
      ensures n == numSamples
      ensures left[..n] == P.DecodeLeft(View()) && right[..n] == P.DecodeRight(View())
      ensures left[n..] == old(left[n..]) && right[n..] == old(right[n..])
    {
      n := numSamples;
      DecodeChannel(0, left);
      assert buffer[0..] == buffer[..];
      ghost var l := left[..];
      DecodeChannel(2 * n, right);
      assert left[..] == l && left[..n] == l[..n] && left[n..] == l[n..];
      assert buffer[..][2 * n..] == buffer[2 * n..];
    }

    /** One loop of the decoder: codes from byte `at` on, back to samples. */
    method DecodeChannel(at: nat, out: array<real>)
      requires Valid() && at + 2 * numSamples <= P.JAM_BUF_SIZE && numSamples <= out.Length
      requires buffer as object != out as object
      modifies out
      ensures out[..numSamples] == P.DecodeBlock(buffer[at..], numSamples)
      ensures out[numSamples..] == old(out[numSamples..])
    {
      ghost var b := buffer[at..];
      for i := 0 to numSamples
        invariant forall k :: 0 <= k < i ==> out[k] == P.DecodeSample(P.CodeAt(b, k))
        invariant out[numSamples..] == old(out[numSamples..])
        invariant buffer[at..] == b
      {
        Pow256Values();
        var code := FromBE(buffer[at + 2 * i..at + 2 * i + 2]);
        DropSlice(buffer[..], at, 2 * i, 2 * i + 2);
        assert code == P.CodeAt(b, i);
        out[i] := P.DecodeSample(code);
      }
      assert buffer[at..] == b;
    }

    method SetServerChannel(channel: byte)
      requires Valid()
      modifies this`header, this`clientId
      ensures Valid() && View() == old(View()).(header := old(header).(channel := channel), clientId := old(header).clientId)
    {
      header := header.(channel := channel);
      clientId := header.clientId;
    }

    method GetSize(headerOnly: bool) returns (n: int)
      requires Valid() && 0 <= bufferSize <= P.JAM_BUF_SIZE
      ensures n == P.Send(View(), headerOnly).Size()
    {
      n := P.HEADER_SIZE + if headerOnly then 0 else bufferSize;
    }
  }

  lemma DropSlice<T>(s: seq<T>, at: nat, i: nat, j: nat)
    requires at <= |s| && i <= j <= |s| - at
    ensures s[at..][i..j] == s[at + i..at + j]
  {
  }

  lemma OneMore(b: ByteString, before: ByteString, at: nat, front: ByteString, bytes: ByteString, after: ByteString)
    requires |bytes| == 2 && at + |front| + 2 <= |b|
    requires before == b[..at] + front + b[at + |front|..]
    requires after == before[at + |front| := bytes[0]][at + |front| + 1 := bytes[1]]
    ensures after == b[..at] + (front + bytes) + b[at + |front| + 2..]
  {
  }
}
