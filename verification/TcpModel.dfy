/**
  The TCP connection state machine on values: one step of `handle_frame` and one step of
  `OutgoingPoller::poll` for the state kept under one address/port key.

  Sequence numbers are modulo 2^32, as in a release build.
 */
module TcpModel {
  import opened Options
  import opened Memory
  import opened Checksum
  import opened Frames
  import opened TcpFrame

  datatype TcpKey = TcpKey(remoteIp: IpAddr, localIp: IpAddr, remotePort: u16, localPort: u16)

  function Add32(a: int, b: int): u32
  {
    (a + b) % 0x1_0000_0000
  }

  const ACK: Flags := Flags(false, false, false, true, false, false, false, false)
  const SYN_ACK: Flags := Flags(false, false, false, true, false, false, true, false)

  /** `ConnectedState`.  `inbox` is the channel to the application, `outbox` the one from it. */
  datatype Conn = Conn(
    seqNum: u32, outgoingAck: u32, incomingAck: u32, windowSize: u16, dupAcks: byte,
    unacked: seq<Params>, toSend: seq<seq<byte>>, inbox: seq<seq<byte>>, outbox: seq<seq<byte>>)

  datatype State =
    | Uninit
    | SynAckSent(seqNum: u32, ackNum: u32, timeout: nat, sentFrame: Params)
    | Connected(conn: Conn)

  // ---------------------------------------------------------------- receiving

  function Response(key: TcpKey, seqNum: u32, ackNum: u32, flags: Flags, windowSize: u16): Params
  {
    Params(key.localIp, key.remoteIp, key.localPort, key.remotePort, seqNum, ackNum, flags, windowSize, 0, [])
  }

  /** A frame for a connected key: the next state and the acknowledgement to send, if any. */
  function HandleConnected(key: TcpKey, c: Conn, f: Fields): (Conn, Option<Params>)
  {
    if c.outgoingAck != f.seqNum then (c, None)
    else
      var c' := c.(
        outgoingAck := Add32(f.seqNum, |f.payload|),
        dupAcks := if f.ackNum != c.incomingAck then 0 else if c.dupAcks < 255 then c.dupAcks + 1 else 255,
        incomingAck := f.ackNum,
        unacked := if c.unacked != [] && c.unacked[0].seqNum < f.ackNum then c.unacked[1..] else c.unacked,
        windowSize := f.windowSize);
      if f.flags.psh
      then (c'.(inbox := c.inbox + [f.payload]), Some(Response(key, c.seqNum, c'.outgoingAck, ACK, f.windowSize)))
      else (c', None)
  }

  /** What `handle_frame` draws from its surroundings: whether a listener is registered for the
      local address, the random initial sequence number, and the timeout of the SYN-ACK. */
  datatype Env = Env(listening: bool, iss: u32, timeout: nat)

  /** One frame: next state, response, and whether a connection was handed to the listener. */
  datatype Handled = Handled(state: State, response: Option<Params>, accepted: bool)

  function Handle(key: TcpKey, s: State, f: Fields, env: Env): Handled
    decreases if s.SynAckSent? then 1 else 0
  {
    match s
    case Uninit =>
      if !f.flags.syn then Handled(s, None, false)
      else
        var reply := Response(key, env.iss, Add32(f.seqNum, 1), SYN_ACK, f.windowSize);
        Handled(SynAckSent(env.iss, Add32(f.seqNum, 1), env.timeout, reply), Some(reply), false)
    case SynAckSent(seqNum, ackNum, _, _) =>
      if f.flags.syn then Handle(key, Uninit, f, env)
      else if f.flags.psh || !f.flags.ack || f.seqNum != ackNum || !env.listening then Handled(s, None, false)
      else
        var c := Conn(Add32(seqNum, 1), Add32(ackNum, |f.payload|), f.ackNum, f.windowSize, 0, [], [], [], []);
        Handled(Connected(c), None, true)
    case Connected(c) =>
      var (c', response) := HandleConnected(key, c, f);
      Handled(Connected(c'), response, false)
  }

  /** Whether `handle_frame` gets to its end, where it wakes the sending service: the other branches
      return before. */
  predicate Notifies(s: State, f: Fields, env: Env)
  {
    match s
    case Uninit => f.flags.syn
    case SynAckSent(_, ackNum, _, _) =>
      f.flags.syn || (!f.flags.psh && f.flags.ack && f.seqNum == ackNum && env.listening)
    case Connected(c) => c.outgoingAck == f.seqNum && !f.flags.psh
  }

  // ---------------------------------------------------------------- sending

  /** `generate_tcp_push`: the parameters of the next data segment. */
  function PushParams(key: TcpKey, c: Conn, data: seq<byte>): Params
  {
    Params(key.localIp, key.remoteIp, key.localPort, key.remotePort, c.seqNum, c.outgoingAck, ACK, 512, 0, data)
  }

  /** `write_request_to_outgoing_packet` */
  function Push(key: TcpKey, c: Conn, data: seq<byte>): Conn
  {
    c.(seqNum := Add32(c.seqNum, |data|), unacked := c.unacked + [PushParams(key, c, data)])
  }

  function Payloads(ps: seq<Params>): (r: seq<seq<byte>>)
    ensures |r| == |ps| && forall i :: 0 <= i < |ps| ==> r[i] == ps[i].payload
  {
    seq(|ps|, i requires 0 <= i < |ps| => ps[i].payload)
  }

  /** Retransmit the oldest packet and move the others back to the send queue. */
  function GoBack(c: Conn): Conn
    requires c.unacked != []
  {
    var p := c.unacked[0];
    c.(seqNum := Add32(p.seqNum, |p.payload|), unacked := [], toSend := c.toSend + Payloads(c.unacked[1..]))
  }

  predicate GoesBack(c: Conn)
  {
    c.dupAcks >= 2 && c.unacked != []
  }

  /** The poll of one connection; `rxReady` says whether its outbox channel can be read. */
  function PollConnected(key: TcpKey, c: Conn, rxReady: bool): (Conn, Option<Params>)
  {
    if GoesBack(c) then (GoBack(c), Some(c.unacked[0]))
    else if c.toSend != [] then
      (Push(key, c.(toSend := c.toSend[1..]), c.toSend[0]), Some(PushParams(key, c, c.toSend[0])))
    else if rxReady && c.outbox != [] then
      (Push(key, c.(outbox := c.outbox[1..]), c.outbox[0]), Some(PushParams(key, c, c.outbox[0])))
    else (c, None)
  }

  /** The poll of one key at time `now`; `period` is the number of ticks in a second. */
  function Poll(key: TcpKey, s: State, rxReady: bool, now: nat, period: nat): (State, Option<Params>)
  {
    match s
    case Uninit => (s, None)
    case SynAckSent(_, _, timeout, frame) =>
      if now > timeout then (s.(timeout := timeout + period), Some(frame)) else (s, None)
    case Connected(c) =>
      var (c', out) := PollConnected(key, c, rxReady);
      (Connected(c'), out)
  }

  /** A poll that sends nothing changes nothing. */
  lemma SilentPoll(key: TcpKey, s: State, rxReady: bool, now: nat, period: nat)
    ensures Poll(key, s, rxReady, now, period).1.None? ==> Poll(key, s, rxReady, now, period).0 == s
  {
  }
}
