/**
  Whether the sending service hears of a frame that leaves it something to do.

  Two duplicate acknowledgements make the service go back.  The frame handler wakes the service at its
  end, but a frame with PSH returns before that.
 */
module TcpNotice {
  import opened TcpFrame
  import opened TcpModel
  import opened TcpRuns
  import opened TcpScript

  /** The service has nothing to send for this key. */
  predicate Silent(key: TcpKey, s: State, rxReady: bool, now: nat, period: nat)
  {
    TcpModel.Poll(key, s, rxReady, now, period).1.None?
  }

  /** The frame leaves the service, which had nothing to send, something to send, and does not wake it. */
  predicate Unheard(key: TcpKey, s: State, f: Fields, env: Env, rxReady: bool, now: nat, period: nat)
  {
    Silent(key, s, rxReady, now, period) && !Silent(key, Handle(key, s, f, env).state, rxReady, now, period)
    && !Notifies(s, f, env)
  }

  /** The frame is the second duplicate acknowledgement, comes with PSH and leaves a packet unacknowledged. */
  predicate PushedDuplicate(c: Conn, f: Fields)
  {
    && c.outgoingAck == f.seqNum && f.flags.psh && f.ackNum == c.incomingAck && c.dupAcks == 1
    && c.unacked != [] && (|c.unacked| > 1 || f.ackNum <= c.unacked[0].seqNum)
  }

  /** A frame is unheard if and only if it is a second duplicate acknowledgement with PSH on a connection
      with nothing waiting to be sent. */
  lemma NoticeExact(key: TcpKey, s: State, f: Fields, env: Env, rxReady: bool, now: nat, period: nat)
    ensures Unheard(key, s, f, env, rxReady, now, period) <==>
              && s.Connected? && PushedDuplicate(s.conn, f)
              && s.conn.toSend == [] && !(rxReady && s.conn.outbox != [])
  {
    if s.SynAckSent? && f.flags.syn {
      assert Handle(key, s, f, env) == Handle(key, Uninit, f, env);
    }
  }

  /** On a key that is not connected the service is woken exactly for the frames that are answered or make
      the connection. */
  lemma HandshakeNotices(key: TcpKey, s: State, f: Fields, env: Env)
    requires !s.Connected?
    ensures Notifies(s, f, env) <==> Handle(key, s, f, env).response.Some? || Handle(key, s, f, env).accepted
  {
    if s.SynAckSent? && f.flags.syn {
      assert Handle(key, s, f, env) == Handle(key, Uninit, f, env);
    }
  }

  /** The handshake, one byte sent, and one duplicate acknowledgement. */
  lemma OneDuplicate(key: TcpKey) returns (es: seq<Event>)
    ensures
      var p := Packet(key, 1001, [1]);
      Run(key, es) == Snapshot(1000, 1002, 1001, 1, [p], [], [], [1], [p])
  {
    hide Run;
    var p := Packet(key, 1001, [1]);
    es := Connects(key, 1000);
    es := Extend(key, es, Write([1]), Snapshot(1000, 1001, 1001, 0, [], [], [[1]], [], []));
    es := Extend(key, es, POLL, Snapshot(1000, 1002, 1001, 0, [p], [], [], [1], [p]));
    es := Extend(key, es, PeerAck(1001), Snapshot(1000, 1002, 1001, 1, [p], [], [], [1], [p]));
  }

  /** A run after which a data segment with PSH makes a go-back due that the service does not hear of. */
  lemma UnheardExample(key: TcpKey) returns (es: seq<Event>, f: Fields)
    ensures f.flags == Flags(false, false, false, true, true, false, false, false)
    ensures Unheard(key, Run(key, es).state, f, Env(true, 0, 0), true, 0, 0)
  {
    hide Run;
    es := OneDuplicate(key);
    f := Fields(5, 80, 101, 1001, Flags(false, false, false, true, true, false, false, false), 0, 0, 0, [7]);
    NoticeExact(key, Run(key, es).state, f, Env(true, 0, 0), true, 0, 0);
  }
}
