/** The class `_RealWebSocket`: fields updated in place, refining the operations of WsState. */
module WsSocket {
  import opened Bytes
  import opened WsFrame
  import opened S = WsState

  /** The two bytes that every header starts with. */
  function FirstBytes(opcode: byte, n0: nat, useMask: bool): (b: ByteString)
    requires n0 <= 127
    ensures |b| == 2
  {
    [0x80 | opcode, (n0 as byte) | (if useMask then 0x80 else 0)]
  }

  lemma HeaderOfOutgoing(opcode: SendOpcode, message: Message, useMask: bool, n0: nat)
    requires n0 == if |message| < 126 then |message| else if |message| < 65536 then 126 else 127
    ensures var w := Outgoing(opcode, message, useMask);
            && w.Valid() && w.Head() == Header(true, 0, opcode, useMask, n0)
            && HeaderBytes(w.Head()) == FirstBytes(opcode, n0, useMask)
  {
    OutgoingValid(opcode, message, useMask);
  }

  class WebSocket {
    var rxbuf: ByteString
    var txbuf: ByteString
    var receivedData: ByteString
    var readyState: Ready
    const useMask: bool
    var isRxBad: bool
    var delivered: seq<ByteString>
    ghost var queued: seq<Out>
    ghost var accepted: ByteString

    ghost function View(): Ws
      reads this
    {
      Ws(rxbuf, txbuf, receivedData, readyState, useMask, isRxBad, delivered, queued, accepted)
    }

    constructor (useMask: bool)
      ensures View() == Fresh(useMask)
    {
      this.useMask := useMask;
      rxbuf, txbuf, receivedData, readyState, isRxBad := [], [], [], OPEN, false;
      delivered, queued, accepted := [], [], [];
    }

    method SendData(opcode: SendOpcode, message: Message)
      modifies this
      ensures View() == S.SendData(old(View()), opcode, message)
    {
      if readyState == CLOSING || readyState == CLOSED {
        return;
      }
      var header := MakeHeader(opcode, message);
      ghost var w := Outgoing(opcode, message, useMask);
      txbuf := txbuf + header + message;
      if useMask {
        assert txbuf[|txbuf| - |message|..] == message && txbuf[..|txbuf| - |message|] == old(txbuf) + header;
        MaskTx(|txbuf| - |message|);
      }
      queued := queued + [Data(opcode, message)];
      assert txbuf == old(txbuf) + (header + w.mask.Apply(message));
    }

    /** Header vector of `sendData`: two bytes, the extended length, the masking key. */
    method MakeHeader(opcode: SendOpcode, message: Message) returns (header: ByteString)
      ensures var w := Outgoing(opcode, message, useMask);
              w.Valid() && header == HeaderBytes(w.Head()) + w.Ext() + w.mask.KeyBytes()
    {
      var size := |message|;
      var n0 := if size < 126 then size else if size < 65536 then 126 else 127;
      HeaderOfOutgoing(opcode, message, useMask, n0);
      header := FirstBytes(opcode, n0, useMask);
      if size >= 65536 {
        header := header + BE(size, 8);
      } else if size >= 126 {
        header := header + BE(size, 2);
      }
      if useMask {
        header := header + SEND_KEY;
      }
    }

    /** The masking loop: XOR of everything from `offset` on. */
    method MaskTx(offset: nat)
      requires offset <= |txbuf|
      modifies this`txbuf
      ensures txbuf == old(txbuf)[..offset] + Masked(old(txbuf)[offset..], SEND_KEY)
    {
      var i := 0;
      while i != |txbuf| - offset
        invariant |txbuf| == |old(txbuf)| && 0 <= i <= |txbuf| - offset
        invariant forall k :: 0 <= k < offset + i ==>
          txbuf[k] == if k < offset then old(txbuf)[k] else old(txbuf)[k] ^ SEND_KEY[(k - offset) % 4]
        invariant txbuf[offset + i..] == old(txbuf)[offset + i..]
      {
        assert txbuf[offset + i] == txbuf[offset + i..][0];
        txbuf := txbuf[offset + i := txbuf[offset + i] ^ SEND_KEY[i % 4]];
        i := i + 1;
      }
    }

    method Close()
      modifies this
      ensures View() == S.Close(old(View()))
    {
      if readyState == CLOSING || readyState == CLOSED {
        return;
      }
      readyState := CLOSING;
      txbuf := txbuf + [0x88, 0x80, 0x00, 0x00, 0x00, 0x00];
      queued := queued + [CloseFrame];
    }

    /** The unmasking loop over the payload at `from`, in the receive buffer itself. */
    method UnmaskRx(from: nat, n: nat, key: ByteString)
      requires from + n <= |rxbuf| && |key| == 4
      modifies this`rxbuf
      ensures |rxbuf| == |old(rxbuf)|
      ensures rxbuf[from..from + n] == Masked(old(rxbuf)[from..from + n], key)
      ensures rxbuf[from + n..] == old(rxbuf)[from + n..]
    {
      var i := 0;
      while i != n
        invariant 0 <= i <= n && |rxbuf| == |old(rxbuf)|
        invariant forall k :: 0 <= k < i ==> rxbuf[from + k] == old(rxbuf)[from + k] ^ key[k % 4]
        invariant rxbuf[from + i..] == old(rxbuf)[from + i..]
      {
        assert rxbuf[from + i] == rxbuf[from + i..][0];
        rxbuf := rxbuf[from + i := rxbuf[from + i] ^ key[i % 4]];
        i := i + 1;
      }
      assert rxbuf[from + n..] == old(rxbuf)[from + n..];
    }

    /** The branches on the opcode, for a frame that is complete in the receive buffer. */
    method HandleFrame(fin: bool, opcode: byte, mask: bool, key: ByteString, headerSize: nat, n: nat, ghost f: Frame)
      requires headerSize + n <= |rxbuf| && |key| == 4 && n < TWO63
      requires var body := rxbuf[headerSize..headerSize + n];
               f == Frame(fin, opcode, if mask then Masked(body, key) else body)
      modifies this
      ensures |rxbuf| == |old(rxbuf)| && rxbuf[headerSize + n..] == old(rxbuf)[headerSize + n..]
      ensures View() == Handle(old(View()), f).(rx := rxbuf)
    {
      if opcode == TEXT || opcode == BINARY || opcode == CONTINUATION {
        if mask {
          UnmaskRx(headerSize, n, key);
        }
        receivedData := receivedData + rxbuf[headerSize..headerSize + n];
        if fin {
          delivered := delivered + [receivedData];
          receivedData := [];
        }
      } else if opcode == PING {
        if mask {
          UnmaskRx(headerSize, n, key);
        }
        SendData(PONG, rxbuf[headerSize..headerSize + n]);
      } else if opcode == PONG {
      } else if opcode == CLOSE {
        Close();
      } else {
        Close();
      }
    }

    /** The payload length N of the frame whose header starts the receive buffer. */
    method DecodeLength(n0: nat) returns (n: nat)
      requires n0 <= 127 && |rxbuf| >= 2 + (if n0 == 126 then 2 else 0) + (if n0 == 127 then 8 else 0)
      ensures n == if n0 == 126 then FromBE(rxbuf[2..4]) else if n0 == 127 then FromBE(rxbuf[2..10]) else n0
    {
      if n0 < 126 {
        n := n0;
      } else if n0 == 126 {
        n := FromBE(rxbuf[2..4]);
      } else {
        n := FromBE(rxbuf[2..10]);
      }
    }

    method DispatchBinary()
      modifies this
      ensures View() == S.Dispatch(old(View()))
    {
      if isRxBad {
        return;
      }
      var more := true;
      while more
        invariant if more then !isRxBad && S.Dispatch(View()) == S.Dispatch(old(View()))
                  else View() == S.Dispatch(old(View()))
        decreases more, |rxbuf|
      {
        more := DispatchFrame();
      }
    }

    /** One round of the dispatch loop: false where the source returns. */
    method DispatchFrame() returns (more: bool)
      requires !isRxBad
      modifies this
      ensures more ==> !isRxBad && |rxbuf| < |old(rxbuf)| && S.Dispatch(View()) == S.Dispatch(old(View()))
      ensures !more ==> View() == S.Dispatch(old(View()))
    {
      if |rxbuf| < 2 {
        return false;
      }
      var h := HeaderOf(rxbuf[0], rxbuf[1]);
      if |rxbuf| < h.Size() {
        return false;
      }
      var n := DecodeLength(h.n0);
      if h.n0 == 127 && n >= TWO63 {
        isRxBad := true;
        Close();
        return false;
      }
      if |rxbuf| < h.Size() + n {
        return false;
      }
      Consume(h, n);
      return true;
    }

    /** Handle the frame at the front of the receive buffer and erase it. */
    method Consume(h: Header, n: nat)
      requires h.n0 <= 127 && |rxbuf| >= h.Size() + n && n == PayloadLength(rxbuf, h) && n < TWO63
      modifies this
      ensures old(PeekWith(h, rxbuf)).Whole?
      ensures var p := old(PeekWith(h, rxbuf));
              View() == Handle(old(View()), p.frame).(rx := old(rxbuf)[p.size..])
    {
      var key := if h.mask then rxbuf[h.Size() - 4..h.Size()] else [0, 0, 0, 0];
      HandleFrame(h.fin, h.opcode, h.mask, key, h.Size(), n, PeekWith(h, rxbuf).frame);
      rxbuf := rxbuf[h.Size() + n..];
    }

    method Poll(recvs: seq<Recv>, sents: seq<Sent>)
      modifies this
      ensures View() == S.Poll(old(View()), recvs, sents)
    {
      if readyState == CLOSED {
        return;
      }
      ReceiveLoop(recvs);
      TransmitLoop(sents);
      if txbuf == [] && readyState == CLOSING {
        readyState := CLOSED;
      }
    }

    /** The recv loop: it ends at the first answer that is not data. */
    method ReceiveLoop(recvs: seq<Recv>)
      modifies this
      ensures View() == ReceiveAll(old(View()), recvs)
    {
      var i := 0;
      while i < |recvs|
        invariant 0 <= i <= |recvs|
        invariant ReceiveAll(View(), recvs[i..]) == ReceiveAll(old(View()), recvs)
      {
        match recvs[i] {
          case RecvWouldBlock => return;
          case RecvFailed =>
            readyState := CLOSED;
            return;
          case Received(data) =>
            if data == [] {
              readyState := CLOSED;
              return;
            }
            rxbuf := rxbuf + data;
        }
        i := i + 1;
      }
    }

    /** The send loop: it ends when the transmit buffer is empty or the socket refuses. */
    method TransmitLoop(sents: seq<Sent>)
      modifies this
      ensures View() == TransmitAll(old(View()), sents)
    {
      var i := 0;
      while txbuf != [] && i < |sents|
        invariant 0 <= i <= |sents|
        invariant TransmitAll(View(), sents[i..]) == TransmitAll(old(View()), sents)
        decreases |sents| - i
      {
        match sents[i] {
          case SendWouldBlock => return;
          case SendFailed =>
            readyState := CLOSED;
            return;
          case Room(n) =>
            var ret := Min(n, |txbuf|);
            if ret <= 0 {
              readyState := CLOSED;
              return;
            }
            accepted := accepted + txbuf[..ret];
            txbuf := txbuf[ret..];
        }
        i := i + 1;
      }
    }
  }
}
