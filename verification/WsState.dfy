/** The state of `_RealWebSocket` and what each of its operations does to it, on values. */
module WsState {
  import opened Bytes
  import opened WsFrame

  /** The ready states the class uses, in the order they are passed through. */
  datatype Ready = OPEN | CLOSING | CLOSED
  {
    function Rank(): nat {
      match this case OPEN => 0 case CLOSING => 1 case CLOSED => 2
    }
  }

  /** The opcodes `sendData` is called with. */
  type SendOpcode = b: byte | b == TEXT || b == BINARY || b == PING || b == PONG witness TEXT

  /** A frame that was put on the transmit buffer. */
  datatype Out = Data(opcode: SendOpcode, message: Message) | CloseFrame

  /** `rx`, `tx`, `partial`, `ready`, `useMask` and `bad` are the fields rxbuf, txbuf, receivedData,
      readyState, useMask and isRxBad. `delivered` records the callbacks, `queued` the frames put
      on the transmit buffer and `accepted` the bytes the socket took. */
  datatype Ws = Ws(rx: ByteString, tx: ByteString, partial: ByteString, ready: Ready, useMask: bool, bad: bool,
                   delivered: seq<ByteString>, queued: seq<Out>, accepted: ByteString)

  function Fresh(useMask: bool): Ws {
    Ws([], [], [], OPEN, useMask, false, [], [], [])
  }

  /** An empty close frame, masked with a zero key whatever useMask is. */
  const CLOSE_FRAME: ByteString := [0x88, 0x80, 0, 0, 0, 0]

  function OutWire(o: Out, useMask: bool): ByteString {
    match o
    case Data(opcode, message) => OutgoingValid(opcode, message, useMask); Wire(Outgoing(opcode, message, useMask))
    case CloseFrame => CLOSE_FRAME
  }

  lemma OutgoingValid(opcode: SendOpcode, message: Message, useMask: bool)
    ensures Outgoing(opcode, message, useMask).Valid()
  {
  }

  function Queue(s: Ws, o: Out): Ws {
    s.(tx := s.tx + OutWire(o, s.useMask), queued := s.queued + [o])
  }

  function SendData(s: Ws, opcode: SendOpcode, message: Message): Ws {
    if s.ready != OPEN then s else Queue(s, Data(opcode, message))
  }

  function Close(s: Ws): Ws {
    if s.ready != OPEN then s else Queue(s, CloseFrame).(ready := CLOSING)
  }

  predicate IsData(f: Frame) {
    f.opcode == TEXT || f.opcode == BINARY || f.opcode == CONTINUATION
  }

  /** Whether the frame is answered with a close frame: CLOSE and every unknown opcode. */
  predicate IsClosing(f: Frame) {
    !IsData(f) && f.opcode != PING && f.opcode != PONG
  }

  /** What one complete frame does. */
  function Handle(s: Ws, f: Frame): (t: Ws)
    ensures t.rx == s.rx && t.bad == s.bad && t.useMask == s.useMask
  {
    if IsData(f) then
      var whole := s.partial + f.payload;
      if f.fin then s.(partial := [], delivered := s.delivered + [whole]) else s.(partial := whole)
    else if f.opcode == PING then SendData(s, PONG, f.payload)
    else if f.opcode == PONG then s
    else Close(s)
  }

  function Dispatch(s: Ws): (t: Ws)
    ensures t.useMask == s.useMask
    decreases |s.rx|
  {
    if s.bad then s
    else
      match PeekFrame(s.rx)
      case NeedMore => s
      case BadLength => Close(s).(bad := true)
      case Whole(f, n) => var t := Handle(s, f); Dispatch(t.(rx := t.rx[n..]))
  }

  // ---- poll ----

  /** One answer of recv: at most 1500 bytes, none of them when the peer has closed. */
  datatype Recv = Received(data: Chunk) | RecvWouldBlock | RecvFailed
  type Chunk = c: ByteString | |c| <= 1500

  /** One answer of send: room for some bytes, or an error. */
  datatype Sent = Room(n: nat) | SendWouldBlock | SendFailed

  function ReceiveAll(s: Ws, recvs: seq<Recv>): Ws
    decreases |recvs|
  {
    if recvs == [] then s
    else
      match recvs[0]
      case RecvWouldBlock => s
      case RecvFailed => s.(ready := CLOSED)
      case Received(data) =>
        if data == [] then s.(ready := CLOSED) else ReceiveAll(s.(rx := s.rx + data), recvs[1..])
  }

  function Min(a: nat, b: nat): nat {
    if a < b then a else b
  }

  function TransmitAll(s: Ws, sents: seq<Sent>): Ws
    decreases |sents|
  {
    if sents == [] || s.tx == [] then s
    else
      match sents[0]
      case SendWouldBlock => s
      case SendFailed => s.(ready := CLOSED)
      case Room(n) =>
        var k := Min(n, |s.tx|);
        if k == 0 then s.(ready := CLOSED)
        else TransmitAll(s.(tx := s.tx[k..], accepted := s.accepted + s.tx[..k]), sents[1..])
  }

  function Poll(s: Ws, recvs: seq<Recv>, sents: seq<Sent>): Ws {
    if s.ready == CLOSED then s
    else
      var t := TransmitAll(ReceiveAll(s, recvs), sents);
      if t.tx == [] && t.ready == CLOSING then t.(ready := CLOSED) else t
  }

  /** Everything a program can do with a connected socket. */
  datatype Event =
    | DoSend(opcode: SendOpcode, message: Message)
    | DoClose
    | DoPoll(recvs: seq<Recv>, sents: seq<Sent>)
    | DoDispatch

  function Step(s: Ws, e: Event): Ws {
    match e
    case DoSend(opcode, message) => SendData(s, opcode, message)
    case DoClose => Close(s)
    case DoPoll(recvs, sents) => Poll(s, recvs, sents)
    case DoDispatch => Dispatch(s)
  }

  function Run(s: Ws, es: seq<Event>): Ws
    decreases |es|
  {
    if es == [] then s else Run(Step(s, es[0]), es[1..])
  }
}
