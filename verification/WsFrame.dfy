/** The frame format of section 5.2 of RFC 6455: the wire grammar on values, the header peek of
    `_dispatchBinary` and the frame that `sendData` writes. */
module WsFrame {
  import opened Bytes

  const CONTINUATION: byte := 0x0
  const TEXT: byte := 0x1
  const BINARY: byte := 0x2
  const CLOSE: byte := 0x8
  const PING: byte := 0x9
  const PONG: byte := 0xa

  const TWO63: nat := 0x8000_0000_0000_0000

  /** A payload: `uint64_t` lengths below the bit that section 5.2 of RFC 6455 reserves. */
  type Message = m: ByteString | |m| < TWO63

  /** What a complete frame means to the receiver: masking and length form are gone. */
  datatype Frame = Frame(fin: bool, opcode: byte, payload: Message)

  /** The fields of the two first bytes; `rsv` holds the three reserved bits in place. */
  datatype Header = Header(fin: bool, rsv: byte, opcode: byte, mask: bool, n0: nat)
  {
    predicate Valid() {
      rsv & 0x70 == rsv && opcode & 0x0f == opcode && n0 <= 127
    }

    function Size(): (h: nat)
      ensures 2 <= h <= 14
    {
      2 + Extension() + (if mask then 4 else 0)
    }

    function Extension(): nat {
      (if n0 == 126 then 2 else 0) + (if n0 == 127 then 8 else 0)
    }
  }

  function HeaderOf(b0: byte, b1: byte): (h: Header)
    ensures h.n0 <= 127
  {
    Header(b0 & 0x80 == 0x80, b0 & 0x70, b0 & 0x0f, b1 & 0x80 == 0x80, (b1 & 0x7f) as nat)
  }

  function HeaderBytes(h: Header): (b: ByteString)
    requires h.Valid()
    ensures |b| == 2
  {
    [(if h.fin then 0x80 else 0) | h.rsv | h.opcode, (h.n0 as byte) | (if h.mask then 0x80 else 0)]
  }

  lemma SecondByteFields(n0: nat, mask: bool)
    requires n0 <= 127
    ensures var b := (n0 as byte) | (if mask then 0x80 else 0);
            (b & 0x80 == 0x80 <==> mask) && (b & 0x7f) as nat == n0
  {
    var x := n0 as byte;
    ByteNat(n0);
    assert x <= 127;
  }

  lemma HeaderOfBytes(h: Header)
    requires h.Valid()
    ensures HeaderOf(HeaderBytes(h)[0], HeaderBytes(h)[1]) == h
  {
    SecondByteFields(h.n0, h.mask);
  }

  lemma SecondByteBack(b: byte)
    ensures (((b & 0x7f) as nat) as byte) | (if b & 0x80 == 0x80 then 0x80 else 0) == b
  {
    var x := b & 0x7f;
    assert (x as nat) as byte == x;
    Rejoin(b);
  }

  lemma Rejoin(b: byte)
    ensures (b & 0x7f) | (if b & 0x80 == 0x80 then 0x80 else 0) == b
  {
  }

  lemma BytesOfHeader(b0: byte, b1: byte)
    ensures HeaderOf(b0, b1).Valid() && HeaderBytes(HeaderOf(b0, b1)) == [b0, b1]
  {
    SecondByteBack(b1);
  }

  function Masked(p: ByteString, key: ByteString): (r: ByteString)
    requires |key| == 4
    ensures |r| == |p|
  {
    seq(|p|, i requires 0 <= i < |p| => p[i] ^ key[i % 4])
  }

  lemma MaskedTwice(p: ByteString, key: ByteString)
    requires |key| == 4
    ensures Masked(Masked(p, key), key) == p
  {
    forall i | 0 <= i < |p|
      ensures Masked(Masked(p, key), key)[i] == p[i]
    {
      assert (p[i] ^ key[i % 4]) ^ key[i % 4] == p[i];
    }
  }

  // ---- the grammar ----

  datatype LengthForm = Len7 | Len16 | Len64

  datatype Mask = NoMask | Key(key: ByteString)
  {
    predicate Valid() {
      Key? ==> |key| == 4
    }

    function KeyBytes(): ByteString {
      if Key? then key else []
    }

    /** XOR with the key; its own inverse. */
    function Apply(p: ByteString): (r: ByteString)
      requires Valid()
      ensures |r| == |p|
    {
      if Key? then Masked(p, key) else p
    }
  }

  function Extension(form: LengthForm, n: nat): ByteString {
    match form
    case Len7 => []
    case Len16 => BE(n, 2)
    case Len64 => BE(n, 8)
  }

  /** A frame as section 5.2 of RFC 6455 draws it. Any length form that can hold the length of
      the payload makes a wire frame. */
  datatype WireFrame = WireFrame(fin: bool, rsv: byte, opcode: byte, form: LengthForm, mask: Mask, payload: Message)
  {
    predicate Valid() {
      && rsv & 0x70 == rsv
      && opcode & 0x0f == opcode
      && mask.Valid()
      && match form
         case Len7 => |payload| < 126
         case Len16 => |payload| < 0x1_0000
         case Len64 => true
    }

    function Meaning(): Frame {
      Frame(fin, opcode, payload)
    }

    function Head(): Header {
      Header(fin, rsv, opcode, mask.Key?, match form case Len7 => |payload| case Len16 => 126 case Len64 => 127)
    }

    function Ext(): ByteString {
      Extension(form, |payload|)
    }
  }

  function Wire(w: WireFrame): (r: ByteString)
    requires w.Valid()
  {
    HeaderBytes(w.Head()) + w.Ext() + w.mask.KeyBytes() + w.mask.Apply(w.payload)
  }

  // ---- the peek ----

  /** The outcome of peeking at the receive buffer. */
  datatype Peek =
    | NeedMore
    | BadLength
    | Whole(frame: Frame, size: nat)

  function PayloadLength(rx: ByteString, h: Header): (n: nat)
    requires |rx| >= h.Size() && h.n0 <= 127
    ensures h.n0 != 127 ==> n < 0x1_0000
  {
    Pow256Values();
    if h.n0 == 126 then FromBE(rx[2..4])
    else if h.n0 == 127 then FromBE(rx[2..10])
    else h.n0
  }

  function PeekWith(h: Header, rx: ByteString): (r: Peek)
    requires h.n0 <= 127
    ensures r.Whole? ==> 2 <= r.size <= |rx|
  {
    if |rx| < h.Size() then NeedMore else PeekBody(h, rx, PayloadLength(rx, h))
  }

  /** The rest of the peek, once the header is there and says n. */
  function PeekBody(h: Header, rx: ByteString, n: nat): (r: Peek)
    requires |rx| >= h.Size() && (h.n0 == 127 || n < TWO63)
    ensures r.Whole? ==> 2 <= r.size <= |rx|
  {
    if h.n0 == 127 && n >= TWO63 then BadLength
    else if |rx| < h.Size() + n then NeedMore
    else
      var body := rx[h.Size()..h.Size() + n];
      var payload := if h.mask then Masked(body, rx[h.Size() - 4..h.Size()]) else body;
      Whole(Frame(h.fin, h.opcode, payload), h.Size() + n)
  }

  function PeekFrame(rx: ByteString): (r: Peek)
    ensures r.Whole? ==> 2 <= r.size <= |rx|
  {
    if |rx| < 2 then NeedMore else PeekWith(HeaderOf(rx[0], rx[1]), rx)
  }

  // ---- the peek and the grammar are inverse ----

  /** Five consecutive pieces of a sequence are the slices between their offsets. */
  lemma Slices<T>(head: seq<T>, ext: seq<T>, key: seq<T>, body: seq<T>, rest: seq<T>)
    ensures var rx := head + ext + key + body + rest;
            var e := |head| + |ext|;
            var h := e + |key|;
            && rx[..|head|] == head
            && rx[|head|..e] == ext
            && rx[e..h] == key
            && rx[h..h + |body|] == body
            && rx[h + |body|..] == rest
  {
  }

  lemma Pieces<T>(s: seq<T>, i: nat, j: nat, k: nat, n: nat)
    requires i <= j <= k <= n <= |s|
    ensures s[..n] == s[..i] + s[i..j] + s[j..k] + s[k..n]
  {
  }

  lemma ExtensionRead(form: LengthForm, n: nat)
    requires match form case Len7 => n < 126 case Len16 => n < 0x1_0000 case Len64 => n < TWO63
    ensures !form.Len7? ==> FromBE(Extension(form, n)) == n
  {
    match form
    case Len7 =>
    case Len16 => Pow256Values(); BERoundTrip(n, 2);
    case Len64 => Pow256Values(); BERoundTrip(n, 8);
  }

  lemma ExtLength(w: WireFrame)
    requires w.Valid()
    ensures w.Head().Valid() && |w.Ext()| == w.Head().Extension()
  {
  }

  lemma ExtValue(w: WireFrame)
    requires w.Valid() && !w.form.Len7?
    ensures FromBE(w.Ext()) == |w.payload|
  {
    ExtensionRead(w.form, |w.payload|);
  }

  lemma WireSlices(w: WireFrame, rest: ByteString)
    requires w.Valid()
    ensures w.Head().Valid()
    ensures var h := w.Head();
            var rx := Wire(w) + rest;
            && |Wire(w)| == h.Size() + |w.payload|
            && [rx[0], rx[1]] == HeaderBytes(h)
            && rx[2..2 + h.Extension()] == w.Ext()
            && rx[h.Size()..h.Size() + |w.payload|] == w.mask.Apply(w.payload)
            && (h.mask ==> rx[h.Size() - 4..h.Size()] == w.mask.key)
  {
    ExtLength(w);
    Slices(HeaderBytes(w.Head()), w.Ext(), w.mask.KeyBytes(), w.mask.Apply(w.payload), rest);
    var rx := Wire(w) + rest;
    assert [rx[0], rx[1]] == rx[..2];
  }

  lemma PeekWithWire(w: WireFrame, rest: ByteString)
    requires w.Valid()
    ensures PeekWith(w.Head(), Wire(w) + rest) == Whole(w.Meaning(), |Wire(w)|)
  {
    WireSlices(w, rest);
    if !w.form.Len7? {
      ExtValue(w);
    }
    if w.mask.Key? {
      MaskedTwice(w.payload, w.mask.key);
    }
  }

  /** Every wire frame, followed by anything, is peeked as its meaning and its exact size. */
  lemma PeekWire(w: WireFrame, rest: ByteString)
    requires w.Valid()
    ensures PeekFrame(Wire(w) + rest) == Whole(w.Meaning(), |Wire(w)|)
  {
    WireSlices(w, rest);
    HeaderOfBytes(w.Head());
    PeekWithWire(w, rest);
  }

  /** The frame that the grammar of section 5.2 of RFC 6455 assigns to a completed peek. */
  function FrameRead(h: Header, rx: ByteString): WireFrame
    requires h.n0 <= 127 && PeekWith(h, rx).Whole?
  {
    WireFrame(h.fin, h.rsv, h.opcode,
              if h.n0 < 126 then Len7 else if h.n0 == 126 then Len16 else Len64,
              if h.mask then Key(rx[h.Size() - 4..h.Size()]) else NoMask,
              PeekWith(h, rx).frame.payload)
  }

  lemma ExtensionWritten(h: Header, rx: ByteString)
    requires h.n0 <= 127 && |rx| >= h.Size()
    ensures var n := PayloadLength(rx, h);
            && (h.n0 == 126 ==> n < 0x1_0000 && BE(n, 2) == rx[2..4])
            && (h.n0 == 127 ==> BE(n, 8) == rx[2..10])
  {
    if h.n0 == 126 {
      Pow256Values();
      ToFromBE(rx[2..4]);
    } else if h.n0 == 127 {
      ToFromBE(rx[2..10]);
    }
  }

  lemma FrameReadHead(h: Header, rx: ByteString)
    requires h.Valid() && PeekWith(h, rx).Whole?
    ensures FrameRead(h, rx).Valid() && FrameRead(h, rx).Head() == h
    ensures |FrameRead(h, rx).payload| == PayloadLength(rx, h)
  {
    ExtensionWritten(h, rx);
  }

  lemma FrameReadValid(h: Header, rx: ByteString)
    requires h.Valid() && PeekWith(h, rx).Whole?
    ensures FrameRead(h, rx).Valid() && FrameRead(h, rx).Head() == h
    ensures FrameRead(h, rx).Ext() == rx[2..2 + h.Extension()]
  {
    FrameReadHead(h, rx);
    ExtensionWritten(h, rx);
    assert rx[2..2] == [];
  }

  lemma FrameReadBody(h: Header, rx: ByteString)
    requires h.Valid() && PeekWith(h, rx).Whole?
    ensures var w := FrameRead(h, rx);
            w.mask.Valid() && w.mask.Apply(w.payload) == rx[h.Size()..PeekWith(h, rx).size]
  {
    if h.mask {
      MaskedTwice(rx[h.Size()..PeekWith(h, rx).size], rx[h.Size() - 4..h.Size()]);
    }
  }

  /** Conversely, whatever is peeked as a whole frame is the wire form of one. */
  lemma WirePeek(rx: ByteString) returns (w: WireFrame)
    requires PeekFrame(rx).Whole?
    ensures w.Valid() && Wire(w) == rx[..PeekFrame(rx).size] && w.Meaning() == PeekFrame(rx).frame
  {
    var h := HeaderOf(rx[0], rx[1]);
    BytesOfHeader(rx[0], rx[1]);
    w := FrameRead(h, rx);
    FrameReadValid(h, rx);
    FrameReadBody(h, rx);
    assert rx[..2] == [rx[0], rx[1]];
    Rejoined(w, rx, PeekFrame(rx).size);
  }

  lemma Rejoined(w: WireFrame, rx: ByteString, n: nat)
    requires w.Valid() && w.Head().Valid() && w.Head().Size() <= n <= |rx|
    requires var h := w.Head();
             && rx[..2] == HeaderBytes(h) && rx[2..2 + h.Extension()] == w.Ext()
             && rx[2 + h.Extension()..h.Size()] == w.mask.KeyBytes() && rx[h.Size()..n] == w.mask.Apply(w.payload)
    ensures Wire(w) == rx[..n]
  {
    var h := w.Head();
    Pieces(rx, 2, 2 + h.Extension(), h.Size(), n);
  }

  lemma LengthStable(h: Header, rx: ByteString, more: ByteString)
    requires h.n0 <= 127 && |rx| >= h.Size()
    ensures PayloadLength(rx + more, h) == PayloadLength(rx, h)
  {
    if h.n0 == 126 {
      SliceStable(rx, more, 2, 4);
    } else if h.n0 == 127 {
      SliceStable(rx, more, 2, 10);
    }
  }

  lemma PeekWithStable(h: Header, rx: ByteString, more: ByteString)
    requires h.n0 <= 127 && !PeekWith(h, rx).NeedMore?
    ensures PeekWith(h, rx + more) == PeekWith(h, rx)
  {
    LengthStable(h, rx, more);
    PeekBodyStable(h, rx, more, PayloadLength(rx, h));
  }

  lemma PeekBodyStable(h: Header, rx: ByteString, more: ByteString, n: nat)
    requires |rx| >= h.Size() && (h.n0 == 127 || n < TWO63) && !PeekBody(h, rx, n).NeedMore?
    ensures PeekBody(h, rx + more, n) == PeekBody(h, rx, n)
  {
    if |rx| >= h.Size() + n {
      BodyStable(h, rx, more, n);
    }
  }

  lemma BodyStable(h: Header, rx: ByteString, more: ByteString, n: nat)
    requires |rx| >= h.Size() + n
    ensures (rx + more)[h.Size()..h.Size() + n] == rx[h.Size()..h.Size() + n]
    ensures h.mask ==> (rx + more)[h.Size() - 4..h.Size()] == rx[h.Size() - 4..h.Size()]
  {
    SliceStable(rx, more, h.Size(), h.Size() + n);
    if h.mask {
      SliceStable(rx, more, h.Size() - 4, h.Size());
    }
  }

  /** A frame that is complete, or a length that is refused, stays so whatever arrives later. */
  lemma PeekStable(rx: ByteString, more: ByteString)
    requires !PeekFrame(rx).NeedMore?
    ensures PeekFrame(rx + more) == PeekFrame(rx)
  {
    PeekWithStable(HeaderOf(rx[0], rx[1]), rx, more);
  }

  // ---- the encoder ----

  /** The fixed masking key of `sendData`. */
  const SEND_KEY: ByteString := [0x12, 0x34, 0x56, 0x78]

  function Shortest(n: nat): LengthForm {
    if n < 126 then Len7 else if n < 0x1_0000 then Len16 else Len64
  }

  function Outgoing(opcode: byte, message: Message, useMask: bool): WireFrame {
    WireFrame(true, 0, opcode, Shortest(|message|), if useMask then Key(SEND_KEY) else NoMask, message)
  }

  /** No frame with the same payload length and masking is shorter than the one `sendData` writes. */
  lemma OutgoingIsShortest(w: WireFrame, opcode: byte, message: Message)
    requires w.Valid() && |w.payload| == |message| && opcode & 0x0f == opcode
    ensures var o := Outgoing(opcode, message, w.mask.Key?);
            o.Valid() && |Wire(o)| <= |Wire(w)|
  {
    var o := Outgoing(opcode, message, w.mask.Key?);
    assert 0 & 0x70 == 0 as byte;
    WireSlices(w, []);
    WireSlices(o, []);
  }
}
