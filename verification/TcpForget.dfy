/**
  Runs in which the sender gives up bytes that were never acknowledged.

  In the first an acknowledgement ends inside the oldest packet, which is dropped whole; that lets the
  oldest held byte pass the wrap of the sequence numbers, and a repetition of the same acknowledgement
  drops the next packet too.  In the second an acknowledgement number beyond everything sent drops
  the oldest packet.
 */
module TcpForget {
  import opened Memory
  import opened Checksum
  import opened TcpFrame
  import opened TcpModel
  import opened TcpRuns
  import opened TcpScript
  import opened TcpRetention

  const ISS: u32 := 0xffff_fffd

  lemma AckedSnoc(key: TcpKey, es: seq<Event>, e: Event)
    ensures Acked(key, es + [e]) == AckedAfter(Run(key, es), e, Acked(key, es))
  {
    assert (es + [e])[..|es|] == es;
  }

  // An event that is not an accepted frame.
  lemma ExtendQuietly(key: TcpKey, es: seq<Event>, e: Event, w: World) returns (es': seq<Event>)
    requires Same(Step(key, Run(key, es), e), w) && !e.Recv?
    ensures Run(key, es') == w && Acked(key, es') == Acked(key, es)
  {
    es' := Extend(key, es, e, w);
    AckedSnoc(key, es, e);
  }

  // An accepted acknowledgement of one byte.
  lemma AckOneByte(key: TcpKey, es: seq<Event>, w: World) returns (es': seq<Event>)
    requires Accepts(Run(key, es), PeerAck(0xffff_ffff)) && Run(key, es).iss == ISS && Acked(key, es) <= 1
    requires |Run(key, es).taken| == 3 && Same(Step(key, Run(key, es), PeerAck(0xffff_ffff)), w)
    ensures Run(key, es') == w && Acked(key, es') == 1
  {
    hide Run, Acked, Step, NewAcked;
    es' := Extend(key, es, PeerAck(0xffff_ffff), w);
    AckedSnoc(key, es, PeerAck(0xffff_ffff));
    NewAckedShort(0xffff_ffff, ISS, Run(key, es).taken, Acked(key, es));
    assert AckOffset(0xffff_ffff, ISS) == 1;
  }

  lemma SynPending(key: TcpKey, iss: u32)
    ensures Run(key, []) == START && !Run(key, [PeerSyn(iss)]).state.Connected?
  {
    assert [PeerSyn(iss)][..0] == [];
  }

  lemma HandshakeAcked(key: TcpKey, iss: u32)
    ensures Acked(key, [PeerSyn(iss), PeerAck(Add32(iss, 1))]) == 0
  {
    hide Run, Step;
    SynPending(key, iss);
    AckedSnoc(key, [], PeerSyn(iss));
    AckedSnoc(key, [PeerSyn(iss)], PeerAck(Add32(iss, 1)));
    assert [] + [PeerSyn(iss)] == [PeerSyn(iss)];
    assert [PeerSyn(iss)] + [PeerAck(Add32(iss, 1))] == [PeerSyn(iss), PeerAck(Add32(iss, 1))];
  }

  /** Handshake and two packets, the first of which ends where sequence numbers wrap. */
  lemma TwoPackets(key: TcpKey, a: Params, b: Params) returns (es: seq<Event>)
    requires a == Packet(key, 0xffff_fffe, [1, 2]) && b == Packet(key, 0, [3])
    ensures Run(key, es) == Snapshot(ISS, 1, 0xffff_fffe, 0, [a, b], [], [], [1, 2, 3], [a, b])
    ensures Acked(key, es) == 0
  {
    hide Run, Acked, Handle, HandleConnected;
    es := Connects(key, ISS);
    HandshakeAcked(key, ISS);
    var n: u32 := 0xffff_fffe;
    es := ExtendQuietly(key, es, Write([1, 2]), Snapshot(ISS, n, n, 0, [], [], [[1, 2]], [], []));
    es := ExtendQuietly(key, es, Write([3]), Snapshot(ISS, n, n, 0, [], [], [[1, 2], [3]], [], []));
    es := TwoPolls(key, es, a, b);
  }

  lemma TwoPolls(key: TcpKey, es0: seq<Event>, a: Params, b: Params) returns (es: seq<Event>)
    requires a == Packet(key, 0xffff_fffe, [1, 2]) && b == Packet(key, 0, [3])
    requires Run(key, es0) == Snapshot(ISS, 0xffff_fffe, 0xffff_fffe, 0, [], [], [[1, 2], [3]], [], [])
    ensures Run(key, es) == Snapshot(ISS, 1, 0xffff_fffe, 0, [a, b], [], [], [1, 2, 3], [a, b])
    ensures Acked(key, es) == Acked(key, es0)
  {
    hide Run, Acked, Handle, HandleConnected;
    var n: u32 := 0xffff_fffe;
    es := ExtendQuietly(key, es0, POLL, Snapshot(ISS, 0, n, 0, [a], [], [[3]], [1, 2], [a]));
    es := ExtendQuietly(key, es, POLL, Snapshot(ISS, 1, n, 0, [a, b], [], [], [1, 2, 3], [a, b]));
  }

  /** Three bytes were taken and one acknowledged, but both queues are empty. */
  lemma ForgetExample(key: TcpKey) returns (es: seq<Event>)
    ensures
      var w := Run(key, es);
      && w.state.Connected? && w.taken == [1, 2, 3] && Acked(key, es) == 1
      && w.state.conn.unacked == [] && w.state.conn.toSend == []
      && !HoldsAt(w, Acked(key, es))
  {
    hide Run, Acked;
    var a, b := Packet(key, 0xffff_fffe, [1, 2]), Packet(key, 0, [3]);
    es := TwoPackets(key, a, b);
    es := AckOneByte(key, es, Snapshot(ISS, 1, 0xffff_ffff, 0, [b], [], [], [1, 2, 3], [a, b]));
    es := AckOneByte(key, es, Snapshot(ISS, 1, 0xffff_ffff, 1, [], [], [], [1, 2, 3], [a, b]));
    NothingHeld(Run(key, es).state.conn, [1, 2, 3], 1);
  }

  lemma NothingHeld(c: Conn, taken: seq<byte>, acked: nat)
    requires c.unacked == [] && c.toSend == [] && acked < |taken|
    ensures !Holds(c, taken, acked)
  {
    EmptyHeld(c);
  }

  /** The acknowledgement of a byte that was never sent drops the only packet: two bytes were taken and
      none acknowledged, but both queues are empty. */
  lemma BeyondSentExample(key: TcpKey) returns (es: seq<Event>)
    ensures
      var w := Run(key, es);
      && w.state.Connected? && w.taken == [1, 2] && Acked(key, es) == 0
      && w.state.conn.unacked == [] && w.state.conn.toSend == []
      && !HoldsAt(w, Acked(key, es))
  {
    hide Run, Acked, NewAcked;
    var a := Packet(key, 1001, [1, 2]);
    es := Connects(key, 1000);
    HandshakeAcked(key, 1000);
    es := ExtendQuietly(key, es, Write([1, 2]), Snapshot(1000, 1001, 1001, 0, [], [], [[1, 2]], [], []));
    es := ExtendQuietly(key, es, POLL, Snapshot(1000, 1003, 1001, 0, [a], [], [], [1, 2], [a]));
    AckedSnoc(key, es, PeerAck(5000));
    NewAckedShort(5000, 1000, [1, 2], 0);
    es := Extend(key, es, PeerAck(5000), Snapshot(1000, 1003, 5000, 0, [], [], [], [1, 2], [a]));
    NothingHeld(Run(key, es).state.conn, [1, 2], 0);
  }
}
