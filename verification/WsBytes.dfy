/** The frame format byte by byte: what masking does to each byte of a payload, and the example frames
    of section 5.7 of RFC 6455. */
module WsBytes {
  import opened Bytes
  import opened WsFrame
  import opened WsState

  // ---- masking ----

  lemma ModShift(i: nat, n: nat)
    requires n <= i && n % 4 == 0
    ensures (i - n) % 4 == i % 4
  {
  }

  /** Masking works on blocks of four bytes, one after the other, each with the whole key. */
  lemma MaskedAppend(p: ByteString, q: ByteString, key: ByteString)
    requires |key| == 4 && |p| % 4 == 0
    ensures Masked(p + q, key) == Masked(p, key) + Masked(q, key)
  {
    forall i | 0 <= i < |p| + |q|
      ensures Masked(p + q, key)[i] == (Masked(p, key) + Masked(q, key))[i]
    {
      if i >= |p| {
        ModShift(i, |p|);
      }
    }
  }

  /** A block of four bytes, or the last and shorter one, meets the bytes of the key in turn. */
  lemma MaskedRest(p: ByteString, key: ByteString)
    requires |key| == 4 && |p| <= 4
    ensures forall i :: 0 <= i < |p| ==> Masked(p, key)[i] == p[i] ^ key[i]
  {
  }

  function Repeated(b: ByteString, n: nat): ByteString {
    if n == 0 then [] else b + Repeated(b, n - 1)
  }

  /** A message of zeros shows the key, over and over. */
  lemma {:induction false} ZerosShowKey(n: nat, key: ByteString)
    requires |key| == 4
    ensures Masked(Repeated([0, 0, 0, 0], n), key) == Repeated(key, n)
  {
    if n > 0 {
      ZerosShowKey(n - 1, key);
      ZeroBlock(Repeated([0, 0, 0, 0], n - 1), key);
    }
  }

  lemma ZeroBlock(rest: ByteString, key: ByteString)
    requires |key| == 4
    ensures Masked([0, 0, 0, 0] + rest, key) == key + Masked(rest, key)
  {
    MaskedAppend([0, 0, 0, 0], rest, key);
    assert Masked([0, 0, 0, 0], key) == key by {
      forall i | 0 <= i < 4
        ensures Masked([0, 0, 0, 0], key)[i] == key[i]
      {
        XorZero(key[i]);
      }
    }
  }

  lemma XorZero(b: byte)
    ensures 0 ^ b == b
  {
  }

  // ---- the bytes that are sent ----

  /** Where the payload of a message frame starts. */
  function PayloadAt(n: nat, useMask: bool): nat {
    2 + (if n < 126 then 0 else if n < 65536 then 2 else 8) + if useMask then 4 else 0
  }

  /** A message sent while OPEN: its bytes are the last of the transmit buffer, each as it is or, with
      masking, differing from it by exactly the byte of the key whose turn it is; and the key is in front
      of them. */
  lemma SentByte(s: Ws, opcode: SendOpcode, message: Message, i: nat)
    requires s.ready == OPEN && i < |message|
    ensures var b := SendData(s, opcode, message).tx[|s.tx|..];
            var at := PayloadAt(|message|, s.useMask);
            && |b| == at + |message|
            && b[at + i] == (if s.useMask then message[i] ^ [0x12, 0x34, 0x56, 0x78][i % 4] else message[i])
            && (s.useMask ==> b[at - 4..at] == [0x12, 0x34, 0x56, 0x78])
  {
    var w := Outgoing(opcode, message, s.useMask);
    var b, at := Wire(w), PayloadAt(|message|, s.useMask);
    SentWire(s, opcode, message);
    SliceAt(b, at, at + |message|, i);
    if s.useMask {
      MaskedAt(message, SEND_KEY, i);
    }
  }

  /** What is appended to the transmit buffer, and its parts. */
  lemma SentWire(s: Ws, opcode: SendOpcode, message: Message)
    requires s.ready == OPEN
    ensures var w := Outgoing(opcode, message, s.useMask);
            var b, at := Wire(w), PayloadAt(|message|, s.useMask);
            && w.Valid() && w.Head().Valid() && SendData(s, opcode, message).tx[|s.tx|..] == b
            && |b| == at + |message| && at >= 2 && [b[0], b[1]] == HeaderBytes(w.Head())
            && at >= 2 + |w.Ext()| && b[2..2 + |w.Ext()|] == w.Ext()
            && b[at..at + |message|] == w.mask.Apply(message)
            && (s.useMask ==> at >= 6 && b[at - 4..at] == SEND_KEY)
  {
    var w := Outgoing(opcode, message, s.useMask);
    OutgoingValid(opcode, message, s.useMask);
    WireSlices(w, []);
    ExtLength(w);
    assert Wire(w) + [] == Wire(w);
    assert (s.tx + Wire(w))[|s.tx|..] == Wire(w);
  }

  /** The first byte says that the frame is final and what it is, the second whether it is masked and its length
      or how many bytes that takes. */
  lemma SentFirstBytes(s: Ws, opcode: SendOpcode, message: Message)
    requires s.ready == OPEN
    ensures var b := SendData(s, opcode, message).tx[|s.tx|..];
            var n := if |message| < 126 then |message| else if |message| < 65536 then 126 else 127;
            && |b| >= 2 && b[0] == 0x80 | opcode
            && b[1] == (n as byte) | (if s.useMask then 0x80 else 0)
  {
    SentWire(s, opcode, message);
    FirstBytesOf(opcode, Outgoing(opcode, message, s.useMask).Head());
  }

  /** Longer lengths stand behind, in two or in eight bytes. */
  lemma SentLength(s: Ws, opcode: SendOpcode, message: Message)
    requires s.ready == OPEN && |message| >= 126
    ensures var b, k := SendData(s, opcode, message).tx[|s.tx|..], if |message| < 65536 then 2 else 8;
            |b| >= 2 + k && FromBE(b[2..2 + k]) == |message|
  {
    var w := Outgoing(opcode, message, s.useMask);
    SentWire(s, opcode, message);
    ExtLength(w);
    ExtValue(w);
  }

  lemma FirstBytesOf(opcode: byte, h: Header)
    requires h.Valid() && h.fin && h.rsv == 0 && h.opcode == opcode
    ensures HeaderBytes(h)[0] == 0x80 | opcode && HeaderBytes(h)[1] == (h.n0 as byte) | (if h.mask then 0x80 else 0)
  {
    NoReserved(opcode);
  }

  lemma NoReserved(opcode: byte)
    ensures 0x80 | 0 | opcode == 0x80 | opcode
  {
  }

  // ---- the bytes that are read ----

  /** Byte i of a payload is byte i behind the header, as it is or, in a masked frame, differing from it
      by exactly byte i mod 4 of the four in front of it. */
  lemma ReadByte(rx: ByteString, i: nat)
    requires PeekFrame(rx).Whole? && i < |PeekFrame(rx).frame.payload|
    ensures var p := PeekFrame(rx);
            var at := p.size - |p.frame.payload|;
            && (rx[1] & 0x80 == 0x80 ==> at >= 6 && p.frame.payload[i] == rx[at + i] ^ rx[at - 4 + i % 4])
            && (rx[1] & 0x80 != 0x80 ==> at >= 2 && p.frame.payload[i] == rx[at + i])
  {
    var h := HeaderOf(rx[0], rx[1]);
    BodyByte(h, rx, PayloadLength(rx, h), i);
  }

  lemma BodyByte(h: Header, rx: ByteString, n: nat, i: nat)
    requires |rx| >= h.Size() && (h.n0 == 127 || n < TWO63) && PeekBody(h, rx, n).Whole? && i < n
    ensures var p := PeekBody(h, rx, n);
            var at := h.Size();
            && p.size == at + n && |p.frame.payload| == n
            && (h.mask ==> at >= 6 && p.frame.payload[i] == rx[at + i] ^ rx[at - 4 + i % 4])
            && (!h.mask ==> p.frame.payload[i] == rx[at + i])
  {
    var at := h.Size();
    SliceAt(rx, at, at + n, i);
    if h.mask {
      SliceAt(rx, at - 4, at, i % 4);
      MaskedAt(rx[at..at + n], rx[at - 4..at], i);
    }
  }

  lemma SliceAt(rx: ByteString, from: nat, to: nat, i: nat)
    requires from + i < to <= |rx|
    ensures rx[from..to][i] == rx[from + i]
  {
  }

  lemma MaskedAt(p: ByteString, key: ByteString, i: nat)
    requires |key| == 4 && i < |p|
    ensures Masked(p, key)[i] == p[i] ^ key[i % 4]
  {
  }

  // ---- section 5.7 of RFC 6455 ----

  const HELLO: ByteString := [0x48, 0x65, 0x6c, 0x6c, 0x6f]

  lemma ShortPeek(b0: byte, b1: byte, fin: bool, opcode: byte, body: ByteString, rest: ByteString)
    requires |body| < 126
    requires b1 & 0x80 == 0 && (b1 & 0x7f) as nat == |body|
    requires (b0 & 0x80 == 0x80 <==> fin) && b0 & 0x0f == opcode
    ensures PeekFrame([b0, b1] + body + rest) == Whole(Frame(fin, opcode, body), 2 + |body|)
  {
    var rx := [b0, b1] + body + rest;
    var h := Header(fin, b0 & 0x70, opcode, false, |body|);
    FirstTwo(b0, b1, body + rest);
    assert rx == [b0, b1] + (body + rest) == [b0, b1] + [] + body + rest;
    ShortBody(h, rx, [b0, b1], [], body, body, rest);
    assert HeaderOf(b0, b1) == h;
  }

  lemma ShortMaskedPeek(b0: byte, b1: byte, fin: bool, opcode: byte, key: ByteString, body: ByteString, plain: ByteString, rest: ByteString)
    requires |key| == 4 && |body| < 126 && plain == Masked(body, key)
    requires b1 & 0x80 == 0x80 && (b1 & 0x7f) as nat == |body|
    requires (b0 & 0x80 == 0x80 <==> fin) && b0 & 0x0f == opcode
    ensures PeekFrame([b0, b1] + key + body + rest) == Whole(Frame(fin, opcode, plain), 6 + |body|)
  {
    var rx := [b0, b1] + key + body + rest;
    var h := Header(fin, b0 & 0x70, opcode, true, |body|);
    FirstTwo(b0, b1, key + body + rest);
    assert rx == [b0, b1] + (key + body + rest);
    ShortBody(h, rx, [b0, b1], key, body, plain, rest);
    assert HeaderOf(b0, b1) == h;
  }

  lemma FirstTwo(b0: byte, b1: byte, more: ByteString)
    ensures ([b0, b1] + more)[0] == b0 && ([b0, b1] + more)[1] == b1
  {
  }

  lemma ShortBody(h: Header, rx: ByteString, first: ByteString, key: ByteString, body: ByteString, plain: ByteString, rest: ByteString)
    requires |first| == 2 && h.n0 == |body| < 126 && rx == first + key + body + rest
    requires if h.mask then |key| == 4 && plain == Masked(body, key) else key == [] && plain == body
    ensures PeekWith(h, rx) == Whole(Frame(h.fin, h.opcode, plain), h.Size() + |body|)
  {
    var at := h.Size();
    Slices(first, [], key, body, rest);
    assert first + [] + key + body + rest == rx;
    assert rx[at..at + |body|] == body;
    if h.mask {
      assert rx[at - 4..at] == key;
    }
  }

  lemma HelloMasked()
    ensures Masked([0x7f, 0x9f, 0x4d, 0x51, 0x58], [0x37, 0xfa, 0x21, 0x3d]) == HELLO
  {
    var key: ByteString := [0x37, 0xfa, 0x21, 0x3d];
    var body: ByteString := [0x7f, 0x9f, 0x4d, 0x51, 0x58];
    MaskedAt(body, key, 0);
    MaskedAt(body, key, 1);
    MaskedAt(body, key, 2);
    MaskedAt(body, key, 3);
    MaskedAt(body, key, 4);
  }

  /** "Hello" in one text frame, masked and not; in two fragments; and as a ping and its masked pong. */
  lemma SectionExamples()
    ensures PeekFrame([0x81, 0x05] + HELLO + []) == Whole(Frame(true, TEXT, HELLO), 7)
    ensures PeekFrame([0x81, 0x85] + [0x37, 0xfa, 0x21, 0x3d] + [0x7f, 0x9f, 0x4d, 0x51, 0x58] + [])
            == Whole(Frame(true, TEXT, HELLO), 11)
    ensures PeekFrame([0x01, 0x03] + [0x48, 0x65, 0x6c] + []) == Whole(Frame(false, TEXT, [0x48, 0x65, 0x6c]), 5)
    ensures PeekFrame([0x80, 0x02] + [0x6c, 0x6f] + []) == Whole(Frame(true, CONTINUATION, [0x6c, 0x6f]), 4)
    ensures PeekFrame([0x89, 0x05] + HELLO + []) == Whole(Frame(true, PING, HELLO), 7)
    ensures PeekFrame([0x8a, 0x85] + [0x37, 0xfa, 0x21, 0x3d] + [0x7f, 0x9f, 0x4d, 0x51, 0x58] + [])
            == Whole(Frame(true, PONG, HELLO), 11)
  {
    var key: ByteString := [0x37, 0xfa, 0x21, 0x3d];
    var body: ByteString := [0x7f, 0x9f, 0x4d, 0x51, 0x58];
    HelloMasked();
    ShortPeek(0x81, 0x05, true, TEXT, HELLO, []);
    ShortMaskedPeek(0x81, 0x85, true, TEXT, key, body, HELLO, []);
    ShortPeek(0x01, 0x03, false, TEXT, [0x48, 0x65, 0x6c], []);
    ShortPeek(0x80, 0x02, true, CONTINUATION, [0x6c, 0x6f], []);
    ShortPeek(0x89, 0x05, true, PING, HELLO, []);
    ShortMaskedPeek(0x8a, 0x85, true, PONG, key, body, HELLO, []);
  }

  /** 256 bytes of binary data unmasked have the length in two bytes, 65536 in eight. */
  lemma LongExamples(body: Message)
    ensures |body| == 256 ==> PeekFrame([0x82, 0x7e, 0x01, 0x00] + body) == Whole(Frame(true, BINARY, body), 260)
    ensures |body| == 65536 ==>
      PeekFrame([0x82, 0x7f, 0, 0, 0, 0, 0, 0x01, 0, 0] + body) == Whole(Frame(true, BINARY, body), 65546)
  {
    if |body| == 256 {
      var rx := [0x82, 0x7e, 0x01, 0x00] + body;
      assert rx[2..4] == [0x01, 0x00] && rx[4..260] == body;
      TwoBytes(0x01, 0x00);
      assert HeaderOf(0x82, 0x7e) == Header(true, 0, BINARY, false, 126);
    } else if |body| == 65536 {
      var rx := [0x82, 0x7f, 0, 0, 0, 0, 0, 0x01, 0, 0] + body;
      assert rx[2..10] == [0, 0, 0, 0, 0, 0x01, 0, 0] && rx[10..65546] == body;
      EightBytes();
      assert HeaderOf(0x82, 0x7f) == Header(true, 0, BINARY, false, 127);
    }
  }

  lemma EightBytes()
    ensures FromBE([0, 0, 0, 0, 0, 0x01, 0, 0]) == 65536
  {
    FromBESnoc([0, 0, 0, 0, 0, 0x01, 0], 0);
    FromBESnoc([0, 0, 0, 0, 0, 0x01], 0);
    FromBESnoc([0, 0, 0, 0, 0], 0x01);
    ZerosAreZero([0, 0, 0, 0, 0]);
    assert [0, 0, 0, 0, 0] + [0x01 as byte] == [0, 0, 0, 0, 0, 0x01];
    assert [0, 0, 0, 0, 0, 0x01] + [0 as byte] == [0, 0, 0, 0, 0, 0x01, 0];
    assert [0, 0, 0, 0, 0, 0x01, 0] + [0 as byte] == [0, 0, 0, 0, 0, 0x01, 0, 0];
  }

  lemma {:induction false} ZerosAreZero(s: ByteString)
    requires forall i :: 0 <= i < |s| ==> s[i] == 0
    ensures FromBE(s) == 0
    decreases |s|
  {
    if s != [] {
      ZerosAreZero(s[..|s| - 1]);
    }
  }
}
