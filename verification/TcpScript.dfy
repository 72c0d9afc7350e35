/** Building concrete runs of a TCP key step by step. */
module TcpScript {
  import opened Memory
  import opened Checksum
  import opened TcpFrame
  import opened TcpModel
  import opened TcpRuns

  const PEER_SYN: Fields := Fields(5, 80, 100, 0, Flags(false, false, false, false, false, false, true, false), 0, 0, 0, [])
  const POLL: Event := PollOut(true, 0, 0)

  /** The SYN of a peer with initial sequence number 100; the answer uses `iss`. */
  function PeerSyn(iss: u32): Event
  {
    Recv(PEER_SYN, Env(true, iss, 0))
  }

  /** An acknowledgement of that peer, which has sent no data. */
  function PeerAck(ackNum: u32): Event
  {
    Recv(Fields(5, 80, 101, ackNum, ACK, 0, 0, 0, []), Env(true, 0, 0))
  }

  /** A data packet to that peer. */
  function Packet(key: TcpKey, seqNum: u32, data: seq<byte>): Params
  {
    Params(key.localIp, key.remoteIp, key.localPort, key.remotePort, seqNum, 101, ACK, 512, 0, data)
  }

  /** A connected world in which that peer has sent no data. */
  function Snapshot(iss: u32, seqNum: u32, ack: u32, dup: byte, unacked: seq<Params>, toSend: seq<seq<byte>>,
                    outbox: seq<seq<byte>>, taken: seq<byte>, sent: seq<Params>): World
  {
    World(Connected(Conn(seqNum, 101, ack, 0, dup, unacked, toSend, [], outbox)), 1, iss, taken, [], sent)
  }

  // Equality of two connected worlds, field by field.
  predicate Same(w: World, v: World)
  {
    && w.state.Connected? && v.state.Connected?
    && var c, d := w.state.conn, v.state.conn;
    && c.seqNum == d.seqNum && c.outgoingAck == d.outgoingAck && c.incomingAck == d.incomingAck
    && c.windowSize == d.windowSize && c.dupAcks == d.dupAcks
    && c.unacked == d.unacked && c.toSend == d.toSend && c.inbox == d.inbox && c.outbox == d.outbox
    && w.accepted == v.accepted && w.iss == v.iss
    && w.taken == v.taken && w.delivered == v.delivered && w.sent == v.sent
  }

  /** One more event, with the world it leads to. */
  lemma Extend(key: TcpKey, es: seq<Event>, e: Event, w: World) returns (es': seq<Event>)
    requires Same(Step(key, Run(key, es), e), w)
    ensures es' == es + [e] && Run(key, es') == w
  {
    es' := es + [e];
    assert es'[..|es' | - 1] == es;
  }

  /** The handshake. */
  lemma Connects(key: TcpKey, iss: u32) returns (es: seq<Event>)
    ensures Run(key, es) == Snapshot(iss, Add32(iss, 1), Add32(iss, 1), 0, [], [], [], [], [])
    ensures es == [PeerSyn(iss), PeerAck(Add32(iss, 1))]
  {
    es := [PeerSyn(iss)];
    assert es[..0] == [] && Run(key, es) == Step(key, START, es[0]);
    es := Extend(key, es, PeerAck(Add32(iss, 1)), Snapshot(iss, Add32(iss, 1), Add32(iss, 1), 0, [], [], [], [], []));
  }
}
