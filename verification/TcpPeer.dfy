/** The handshake and the receiving side of a TCP key, over every run. */
module TcpPeer {
  import opened Options
  import opened Memory
  import opened Checksum
  import opened TcpFrame
  import opened TcpModel
  import opened TcpRuns

  // ---------------------------------------------------------------- handshake

  predicate SynAt(es: seq<Event>, i: nat, s: u32)
    requires i < |es|
  {
    es[i].Recv? && es[i].f.flags.syn && es[i].f.seqNum == s
  }

  /** A plain acknowledgement that follows a SYN with sequence number `s`, while someone listens. */
  predicate AckAt(es: seq<Event>, j: nat, s: u32)
    requires j < |es|
  {
    && es[j].Recv? && es[j].env.listening && es[j].f.seqNum == Add32(s, 1)
    && es[j].f.flags.ack && !es[j].f.flags.syn && !es[j].f.flags.psh
  }

  /** The SYN that the pending SYN-ACK answers. */
  ghost predicate AnswersSyn(es: seq<Event>, ackNum: u32)
  {
    exists i, s: u32 :: 0 <= i < |es| && SynAt(es, i, s) && ackNum == Add32(s, 1)
  }

  /** Event `j` completed the handshake that event `i` began. */
  ghost predicate Completed(key: TcpKey, es: seq<Event>, i: nat, j: nat)
  {
    && i < j < |es| && es[i].Recv? && SynAt(es, i, es[i].f.seqNum) && AckAt(es, j, es[i].f.seqNum)
    && Run(key, es[..j]).state.SynAckSent? && Run(key, es[..j + 1]).state.Connected?
  }

  /** A connection, once made, is never given up, and it is made from a pending SYN-ACK only. */
  lemma ConnectedStays(key: TcpKey, w: World, e: Event)
    ensures w.state.Connected? ==> Step(key, w, e).state.Connected?
    ensures Step(key, w, e).accepted == w.accepted + if !w.state.Connected? && Step(key, w, e).state.Connected? then 1 else 0
    ensures !w.state.Connected? && Step(key, w, e).state.Connected? <==>
              w.state.SynAckSent? && e.Recv? && e.f.seqNum == w.state.ackNum && e.env.listening
              && e.f.flags.ack && !e.f.flags.syn && !e.f.flags.psh
    ensures Step(key, w, e).state.SynAckSent? ==>
              (w.state.SynAckSent? && w.state.ackNum == Step(key, w, e).state.ackNum)
              || (e.Recv? && e.f.flags.syn && Step(key, w, e).state.ackNum == Add32(e.f.seqNum, 1))
  {
    if e.Recv? && w.state.SynAckSent? && e.f.flags.syn {
      assert Handle(key, w.state, e.f, e.env) == Handle(key, Uninit, e.f, e.env);
    }
  }

  /** A SYN in place of the expected acknowledgement restarts the handshake: the re-entrant call
      finds the key reset and does not re-enter again. */
  lemma SynRestarts(key: TcpKey, s: State, f: Fields, env: Env)
    requires !s.Connected? && f.flags.syn
    ensures
      var h := Handle(key, s, f, env);
      && h == Handle(key, Uninit, f, env) && !h.accepted
      && h.state.SynAckSent? && h.state.seqNum == env.iss && h.state.ackNum == Add32(f.seqNum, 1)
      && h.response == Some(h.state.sentFrame) && h.state.sentFrame.seqNum == env.iss
      && h.state.sentFrame.ackNum == Add32(f.seqNum, 1)
  {
    if s.SynAckSent? {
      assert Handle(key, s, f, env) == Handle(key, Uninit, f, env);
    }
  }

  /** Handshake safety over every run: at most one connection reaches the listener, exactly when
      the key is connected, and only by a SYN and a later acknowledgement with the next number. */
  lemma {:induction false} Handshake(key: TcpKey, es: seq<Event>)
    ensures
      var w := Run(key, es);
      && w.accepted <= 1 && (w.accepted == 1 <==> w.state.Connected?)
      && (w.state.SynAckSent? ==> AnswersSyn(es, w.state.ackNum))
      && (w.state.Connected? ==> exists i: nat, j: nat :: Completed(key, es, i, j))
  {
    if es != [] {
      var prev, e := es[..|es| - 1], es[|es| - 1];
      Handshake(key, prev);
      ConnectedStays(key, Run(key, prev), e);
      var v, w := Run(key, prev), Run(key, es);
      assert w == Step(key, v, e);
      if v.state.Connected? {
        var i: nat, j: nat :| Completed(key, prev, i, j);
        CompletedLonger(key, es, i, j);
      } else if w.state.Connected? {
        var i, s: u32 :| 0 <= i < |prev| && SynAt(prev, i, s) && v.state.ackNum == Add32(s, 1);
        assert es[..|es| - 1 + 1] == es;
        assert Completed(key, es, i, |es| - 1);
      } else if w.state.SynAckSent? {
        PendingSyn(key, es);
      }
    }
  }

  lemma CompletedLonger(key: TcpKey, es: seq<Event>, i: nat, j: nat)
    requires es != [] && Completed(key, es[..|es| - 1], i, j)
    ensures Completed(key, es, i, j)
  {
    var prev := es[..|es| - 1];
    assert prev[..j] == es[..j] && prev[..j + 1] == es[..j + 1];
  }

  lemma PendingSyn(key: TcpKey, es: seq<Event>)
    requires es != [] && Run(key, es).state.SynAckSent?
    requires var v := Run(key, es[..|es| - 1]); v.state.SynAckSent? ==> AnswersSyn(es[..|es| - 1], v.state.ackNum)
    ensures AnswersSyn(es, Run(key, es).state.ackNum)
  {
    var prev, e := es[..|es| - 1], es[|es| - 1];
    var v, w := Run(key, prev), Run(key, es);
    ConnectedStays(key, v, e);
    if e.Recv? && e.f.flags.syn && w.state.ackNum == Add32(e.f.seqNum, 1) {
      assert SynAt(es, |es| - 1, e.f.seqNum);
    } else {
      var i, s: u32 :| 0 <= i < |prev| && SynAt(prev, i, s) && v.state.ackNum == Add32(s, 1);
      assert SynAt(es, i, s);
    }
  }

  // ---------------------------------------------------------------- receiving

  predicate SliceAt(f: Fields, irs: u32, stream: seq<byte>, o: nat)
  {
    && o + |f.payload| <= |stream|
    && f.seqNum == Add32(irs + 1, o)
    && f.payload == stream[o..o + |f.payload|]
  }

  /** What a peer with one initial sequence number and one stream sends: its SYNs carry that number,
      and a data segment is a slice of the stream.  Nothing is said about which frames arrive, how
      often or in what order. */
  ghost predicate StreamFrame(f: Fields, irs: u32, stream: seq<byte>)
  {
    if f.flags.syn then f.seqNum == irs
    else f.payload != [] ==> exists o: nat :: SliceAt(f, irs, stream, o)
  }

  /** Such a frame that also has PSH set on data. */
  ghost predicate PeerFrame(f: Fields, irs: u32, stream: seq<byte>)
  {
    StreamFrame(f, irs, stream) && (!f.flags.syn && f.payload != [] ==> f.flags.psh)
  }

  ghost predicate ReceiveInv(w: World, irs: u32, stream: seq<byte>)
  {
    match w.state
    case Uninit => w.delivered == []
    case SynAckSent(_, ackNum, _, _) => w.delivered == [] && ackNum == Add32(irs, 1)
    case Connected(c) => w.delivered <= stream && c.outgoingAck == Add32(irs + 1, |w.delivered|)
  }

  lemma SliceUnique(f: Fields, irs: u32, stream: seq<byte>, o: nat, k: nat)
    requires SliceAt(f, irs, stream, o) && f.seqNum == Add32(irs + 1, k)
    requires k <= |stream| < 0xffff_ffff
    ensures o == k
  {
  }

  /** The frame has no payload, or its payload is delivered, or the frame is ignored.  What is left are
      data segments without PSH: the expected one on a connection, and the acknowledgement that
      completes the handshake. */
  predicate NoLoss(s: State, f: Fields, env: Env)
  {
    || f.flags.syn || f.flags.psh || f.payload == []
    || match s
       case Uninit => true
       case SynAckSent(_, ackNum, _, _) => !f.flags.ack || f.seqNum != ackNum || !env.listening
       case Connected(c) => f.seqNum != c.outgoingAck
  }

  lemma PendingReceives(key: TcpKey, w: World, e: Event, irs: u32, stream: seq<byte>)
    requires |stream| < 0xffff_ffff && ReceiveInv(w, irs, stream) && !w.state.Connected?
    requires e.Recv? && StreamFrame(e.f, irs, stream)
    ensures ReceiveInv(Step(key, w, e), irs, stream) <==> NoLoss(w.state, e.f, e.env)
  {
    var f := e.f;
    if w.state.SynAckSent? {
      if f.flags.syn {
        assert Handle(key, w.state, f, e.env) == Handle(key, Uninit, f, e.env);
      } else {
        AddAssociates(irs, 1, |f.payload|);
        if f.payload != [] {
          var o: nat :| SliceAt(f, irs, stream, o);
          LengthShows(irs + 1, 0, |f.payload|, |stream|);
        }
      }
    }
  }

  // Two stream positions with the same sequence number are the same.
  lemma LengthShows(base: int, k: nat, n: nat, limit: nat)
    requires k + n <= limit < 0xffff_ffff
    ensures Add32(base, k) == Add32(base, k + n) <==> n == 0
  {
  }

  lemma ConnectedReceives(key: TcpKey, w: World, e: Event, irs: u32, stream: seq<byte>)
    requires |stream| < 0xffff_ffff && ReceiveInv(w, irs, stream) && w.state.Connected?
    requires e.Recv? && StreamFrame(e.f, irs, stream)
    ensures ReceiveInv(Step(key, w, e), irs, stream) <==> NoLoss(w.state, e.f, e.env)
  {
    hide HandleConnected;
    var c, f, k := w.state.conn, e.f, |w.delivered|;
    ConnectedStep(key, w, e);
    if c.outgoingAck == f.seqNum {
      AddAssociates(irs + 1, k, |f.payload|);
      SynIsOld(irs, k);
      if !f.flags.syn && f.payload != [] {
        var o: nat :| SliceAt(f, irs, stream, o);
        SliceUnique(f, irs, stream, o, k);
        assert w.delivered + f.payload == stream[..k + |f.payload|];
        LengthShows(irs + 1, k, |f.payload|, |stream|);
      }
    }
  }

  // A repeated SYN is below everything expected on a connection.
  lemma SynIsOld(irs: u32, k: nat)
    requires k < 0xffff_ffff
    ensures Add32(irs + 1, k) != irs
  {
  }

  lemma ConnectedStep(key: TcpKey, w: World, e: Event)
    requires w.state.Connected? && e.Recv?
    ensures
      var w', c, f := Step(key, w, e), w.state.conn, e.f;
      && w'.state.Connected?
      && w'.state.conn.outgoingAck == (if c.outgoingAck == f.seqNum then Add32(f.seqNum, |f.payload|) else c.outgoingAck)
      && w'.delivered == if c.outgoingAck == f.seqNum && f.flags.psh then w.delivered + f.payload else w.delivered
  {
  }

  /** One frame, in every state: what is delivered stays the acknowledged prefix of the stream if and
      only if the frame is no loss. */
  lemma PushExact(key: TcpKey, w: World, e: Event, irs: u32, stream: seq<byte>)
    requires |stream| < 0xffff_ffff && ReceiveInv(w, irs, stream)
    requires e.Recv? && StreamFrame(e.f, irs, stream)
    ensures ReceiveInv(Step(key, w, e), irs, stream) <==> NoLoss(w.state, e.f, e.env)
  {
    if w.state.Connected? {
      ConnectedReceives(key, w, e, irs, stream);
    } else {
      PendingReceives(key, w, e, irs, stream);
    }
  }

  ghost predicate FromStream(es: seq<Event>, irs: u32, stream: seq<byte>)
  {
    forall i :: 0 <= i < |es| && es[i].Recv? ==> StreamFrame(es[i].f, irs, stream)
  }

  /** At every point of the run the delivered bytes are the acknowledged prefix of the stream. */
  ghost predicate PrefixThroughout(key: TcpKey, es: seq<Event>, irs: u32, stream: seq<byte>)
  {
    ReceiveInv(Run(key, es), irs, stream) && (es != [] ==> PrefixThroughout(key, es[..|es| - 1], irs, stream))
  }

  predicate NoLossThroughout(key: TcpKey, es: seq<Event>)
  {
    es != [] ==>
      var prev, e := es[..|es| - 1], es[|es| - 1];
      (e.Recv? ==> NoLoss(Run(key, prev).state, e.f, e.env)) && NoLossThroughout(key, prev)
  }

  /** Exactness over runs: for a peer with one stream, under any loss, duplication and reordering, the
      delivered bytes are at every point the acknowledged prefix if and only if no frame is a loss. */
  lemma {:induction false} ReceiveExact(key: TcpKey, es: seq<Event>, irs: u32, stream: seq<byte>)
    requires |stream| < 0xffff_ffff && FromStream(es, irs, stream)
    ensures PrefixThroughout(key, es, irs, stream) <==> NoLossThroughout(key, es)
  {
    hide Step, NoLoss, StreamFrame;
    if es != [] {
      var prev, e := es[..|es| - 1], es[|es| - 1];
      ReceiveExact(key, prev, irs, stream);
      var w := Run(key, prev);
      if e.Recv? && ReceiveInv(w, irs, stream) {
        PushExact(key, w, e, irs, stream);
      } else if ReceiveInv(w, irs, stream) {
        SendingKeepsInbox(key, w, e);
      }
    }
  }

  lemma {:induction false} PushedIsNoLoss(key: TcpKey, es: seq<Event>, irs: u32, stream: seq<byte>)
    requires forall i :: 0 <= i < |es| && es[i].Recv? ==> PeerFrame(es[i].f, irs, stream)
    ensures NoLossThroughout(key, es)
  {
    if es != [] {
      PushedIsNoLoss(key, es[..|es| - 1], irs, stream);
    }
  }

  /** Receive-side prefix: if all data segments have PSH set then, whatever is lost, repeated or
      reordered, the application gets the prefix of the peer's stream that has been acknowledged. */
  lemma ReceivePrefix(key: TcpKey, es: seq<Event>, irs: u32, stream: seq<byte>)
    requires |stream| < 0xffff_ffff
    requires forall i :: 0 <= i < |es| && es[i].Recv? ==> PeerFrame(es[i].f, irs, stream)
    ensures ReceiveInv(Run(key, es), irs, stream)
    ensures
      var w := Run(key, es);
      w.state.Connected? ==> w.delivered == stream[..(w.state.conn.outgoingAck - irs - 1) % 0x1_0000_0000]
  {
    hide Run, NoLossThroughout;
    PushedIsNoLoss(key, es, irs, stream);
    ReceiveExact(key, es, irs, stream);
    if Run(key, es).state.Connected? {
      AckedLength(Run(key, es), irs, stream);
    }
  }

  /** Without PSH the prefix is lost: the acknowledgement that completes the handshake carries the
      byte 7, which is acknowledged and never delivered. */
  lemma LossExample(key: TcpKey)
    ensures
      var syn := Fields(5, 80, 100, 0, Flags(false, false, false, false, false, false, true, false), 0, 0, 0, []);
      var ack := Fields(5, 80, 101, 1, ACK, 0, 0, 0, [7]);
      var es := [Recv(syn, Env(true, 0, 0)), Recv(ack, Env(true, 0, 0))];
      && FromStream(es, 100, [7])
      && var w := Run(key, es);
      && w.state.Connected? && w.state.conn.outgoingAck == 102 && w.delivered == [] && !ReceiveInv(w, 100, [7])
  {
    var syn := Fields(5, 80, 100, 0, Flags(false, false, false, false, false, false, true, false), 0, 0, 0, []);
    var ack := Fields(5, 80, 101, 1, ACK, 0, 0, 0, [7]);
    var es := [Recv(syn, Env(true, 0, 0)), Recv(ack, Env(true, 0, 0))];
    assert es[..1] == [es[0]] && [es[0]][..0] == [];
    assert Run(key, [es[0]]) == Step(key, START, es[0]);
    assert SliceAt(ack, 100, [7], 0);
  }

  lemma AckedLength(w: World, irs: u32, stream: seq<byte>)
    requires |stream| < 0xffff_ffff && ReceiveInv(w, irs, stream) && w.state.Connected?
    ensures |w.delivered| == (w.state.conn.outgoingAck - irs - 1) % 0x1_0000_0000 <= |stream|
    ensures w.delivered == stream[..|w.delivered|]
  {
  }

  lemma SendingKeepsInbox(key: TcpKey, w: World, e: Event)
    requires !e.Recv?
    ensures
      var w' := Step(key, w, e);
      && w'.delivered == w.delivered
      && (w.state.Uninit? <==> w'.state.Uninit?) && (w.state.Connected? <==> w'.state.Connected?)
      && (w.state.SynAckSent? ==> w'.state.ackNum == w.state.ackNum)
      && (w.state.Connected? ==> w'.state.conn.outgoingAck == w.state.conn.outgoingAck)
  {
  }

  /** The acknowledgement sent for a delivered segment: it goes back to the peer without data,
      acknowledges exactly the bytes delivered so far, and carries the current send position. */
  lemma AckMatchesDelivery(key: TcpKey, w: World, e: Event, irs: u32, stream: seq<byte>)
    requires |stream| < 0xffff_ffff && ReceiveInv(w, irs, stream) && Inv(w) && w.state.Connected?
    requires e.Recv? && PeerFrame(e.f, irs, stream)
    requires Handle(key, w.state, e.f, e.env).response.Some?
    ensures
      var w', p := Step(key, w, e), Handle(key, w.state, e.f, e.env).response.value;
      && w'.delivered == w.delivered + e.f.payload && p.ackNum == Add32(irs + 1, |w'.delivered|)
      && Add32(p.seqNum, |Flatten(w.state.conn.toSend)|) == Add32(w.iss + 1, |w.taken|)
      && p.payload == [] && p.windowSize == e.f.windowSize && p.urgentPtr == 0
      && p.flags == Flags(false, false, false, true, false, false, false, false)
      && p.sourceAddress == key.localIp && p.destAddress == key.remoteIp
      && p.sourcePort == key.localPort && p.destPort == key.remotePort
  {
    ConnectedReceives(key, w, e, irs, stream);
  }

  /** The delivered bytes are what `handle_frame` put into the channel to the application. */
  lemma {:induction false} DeliveredIsInbox(key: TcpKey, es: seq<Event>)
    ensures
      var w := Run(key, es);
      w.delivered == if w.state.Connected? then Flatten(w.state.conn.inbox) else []
  {
    if es != [] {
      var v, e := Run(key, es[..|es| - 1]), es[|es| - 1];
      DeliveredIsInbox(key, es[..|es| - 1]);
      InboxStep(key, v, e);
    }
  }

  lemma InboxStep(key: TcpKey, w: World, e: Event)
    requires w.delivered == if w.state.Connected? then Flatten(w.state.conn.inbox) else []
    ensures
      var w' := Step(key, w, e);
      w'.delivered == if w'.state.Connected? then Flatten(w'.state.conn.inbox) else []
  {
    if e.Recv? && w.state.SynAckSent? && e.f.flags.syn {
      assert Handle(key, w.state, e.f, e.env) == Handle(key, Uninit, e.f, e.env);
    }
    if e.Recv? && w.state.Connected? {
      FlattenConcat(w.state.conn.inbox, [e.f.payload]);
      assert Flatten([e.f.payload]) == e.f.payload;
    }
  }
}
