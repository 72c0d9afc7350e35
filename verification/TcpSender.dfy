/**
  Where the sent stream comes from and how its segments are addressed, and what the sender knows of the
  acknowledgements it has received; over every run.
 */
module TcpSender {
  import opened Memory
  import opened Checksum
  import opened TcpFrame
  import opened FrameBytes
  import opened TcpModel
  import opened TcpRuns
  import opened TcpPeer

  // ---------------------------------------------------------------- what is sent

  /** All bytes the application has written to the connection. */
  function Written(key: TcpKey, es: seq<Event>): seq<byte>
  {
    if es == [] then []
    else
      var prev, e := es[..|es| - 1], es[|es| - 1];
      Written(key, prev) + if e.Write? && Run(key, prev).state.Connected? then e.data else []
  }

  lemma FlattenSnoc(ss: seq<seq<byte>>, data: seq<byte>)
    ensures Flatten(ss + [data]) == Flatten(ss) + data
  {
    FlattenConcat(ss, [data]);
    assert Flatten([data]) == data + Flatten([]);
  }

  /** One event and the bytes taken: a poll takes the oldest write, and only if the channel can be read,
      nothing is waiting and it does not go back. */
  lemma TakesExactly(key: TcpKey, w: World, e: Event)
    ensures
      var w' := Step(key, w, e);
      if e.PollOut? && e.rxReady && w.state.Connected? && !GoesBack(w.state.conn) && w.state.conn.toSend == []
         && w.state.conn.outbox != []
      then
        && w'.state.Connected? && w'.taken == w.taken + w.state.conn.outbox[0]
        && w'.state.conn.outbox == w.state.conn.outbox[1..]
      else
        && w'.taken == w.taken
        && (w.state.Connected? ==>
              w'.state.Connected? && w'.state.conn.outbox == w.state.conn.outbox + if e.Write? then [e.data] else [])
  {
    if e.Recv? && w.state.Connected? {
      assert Handle(key, w.state, e.f, e.env).state.conn == HandleConnected(key, w.state.conn, e.f).0;
    }
  }

  /** The stream that is sent is the one the application wrote: what was taken, followed by what is still in
      the channel. */
  lemma {:induction false} WrittenIsTaken(key: TcpKey, es: seq<Event>)
    ensures
      var w := Run(key, es);
      Written(key, es) == w.taken + if w.state.Connected? then Flatten(w.state.conn.outbox) else []
  {
    if es != [] {
      var prev, e := es[..|es| - 1], es[|es| - 1];
      WrittenIsTaken(key, prev);
      RunConserves(key, prev);
      WrittenStep(key, Run(key, prev), e);
    }
  }

  lemma WrittenStep(key: TcpKey, w: World, e: Event)
    requires Inv(w)
    ensures
      var w' := Step(key, w, e);
      w'.taken + (if w'.state.Connected? then Flatten(w'.state.conn.outbox) else [])
      == w.taken + (if w.state.Connected? then Flatten(w.state.conn.outbox) else [])
         + if e.Write? && w.state.Connected? then e.data else []
  {
    hide Handle;
    TakesExactly(key, w, e);
    if w.state.Connected? {
      FlattenSnoc(w.state.conn.outbox, if e.Write? then e.data else []);
      assert w.state.conn.outbox + [] == w.state.conn.outbox;
    } else {
      NewConnectionEmpty(key, w, e);
    }
  }

  lemma NewConnectionEmpty(key: TcpKey, w: World, e: Event)
    requires Inv(w) && !w.state.Connected?
    ensures w.taken == [] && (Step(key, w, e).state.Connected? ==> Step(key, w, e).state.conn.outbox == [])
  {
    if e.Recv? && w.state.SynAckSent? && e.f.flags.syn {
      assert Handle(key, w.state, e.f, e.env) == Handle(key, Uninit, e.f, e.env);
    }
  }

  /** The segment goes from the local to the remote end of the key, with ACK as its only flag and a window
      of 512 bytes. */
  predicate Addressed(key: TcpKey, p: Params)
  {
    && p.sourceAddress == key.localIp && p.destAddress == key.remoteIp
    && p.sourcePort == key.localPort && p.destPort == key.remotePort
    && p.flags == Flags(false, false, false, true, false, false, false, false)
    && p.windowSize == 512 && p.urgentPtr == 0
  }

  ghost predicate AllAddressed(key: TcpKey, ps: seq<Params>)
  {
    forall p :: p in ps ==> Addressed(key, p)
  }

  lemma AddressedStep(key: TcpKey, w: World, e: Event)
    requires Inv(w) && AllAddressed(key, w.sent) && (w.state.Connected? ==> AllAddressed(key, w.state.conn.unacked))
    ensures
      var w' := Step(key, w, e);
      AllAddressed(key, w'.sent) && (w'.state.Connected? ==> AllAddressed(key, w'.state.conn.unacked))
  {
    if e.Recv? && w.state.SynAckSent? && e.f.flags.syn {
      assert Handle(key, w.state, e.f, e.env) == Handle(key, Uninit, e.f, e.env);
    }
  }

  lemma {:induction false} RunAddressed(key: TcpKey, es: seq<Event>)
    ensures
      var w := Run(key, es);
      AllAddressed(key, w.sent) && (w.state.Connected? ==> AllAddressed(key, w.state.conn.unacked))
  {
    if es != [] {
      RunAddressed(key, es[..|es| - 1]);
      RunConserves(key, es[..|es| - 1]);
      AddressedStep(key, Run(key, es[..|es| - 1]), es[|es| - 1]);
    }
  }

  /** Every data segment of every run, as the receiver parses it: ACK and no other flag (flag byte 0x10), the
      ports of the key, a window of 512 bytes, and the bytes of the segment. */
  lemma SentAddressed(key: TcpKey, es: seq<Event>, p: Params)
    requires p in Run(key, es).sent
    ensures Addressed(key, p)
    ensures
      var t := ParseTcp(Frame(p));
      && |Frame(p)| == 20 + |p.payload| && Frame(p)[13] == 0x10 && t.Ok?
      && t.value.flags == Flags(false, false, false, true, false, false, false, false)
      && t.value.sourcePort == key.localPort && t.value.destPort == key.remotePort
      && t.value.seqNum == p.seqNum && t.value.windowSize == 512 && t.value.payload == p.payload
  {
    hide Run, Frame, ParseTcp;
    RunAddressed(key, es);
    FrameRoundTrip(p);
    TcpFlagBits(p);
    TcpBytes(p);
  }

  /** A segment sent for the first time acknowledges exactly the bytes delivered so far. */
  lemma DataAcknowledges(key: TcpKey, w: World, e: Event, irs: u32, stream: seq<byte>)
    requires ReceiveInv(w, irs, stream) && w.state.Connected? && e.PollOut? && !GoesBack(w.state.conn)
    requires |Step(key, w, e).sent| > |w.sent|
    ensures
      var p := Step(key, w, e).sent[|w.sent|];
      Step(key, w, e).sent == w.sent + [p] && p.ackNum == Add32(irs + 1, |w.delivered|)
  {
  }

  // ---------------------------------------------------------------- what was received

  /** The frames that counted for the connection: the acknowledgement that made it and every frame with
      the expected sequence number since. */
  function Counted(key: TcpKey, es: seq<Event>): seq<Fields>
  {
    if es == [] then []
    else
      var prev, e := es[..|es| - 1], es[|es| - 1];
      var s := Run(key, prev).state;
      if e.Recv? && (if s.Connected? then s.conn.outgoingAck == e.f.seqNum else Run(key, es).state.Connected?)
      then Counted(key, prev) + [e.f]
      else Counted(key, prev)
  }

  /** How many frames at the end, besides the last one, repeat its acknowledgement number. */
  function Repeats(fs: seq<Fields>): nat
  {
    var n := |fs|;
    if n < 2 || fs[n - 1].ackNum != fs[n - 2].ackNum then 0 else 1 + Repeats(fs[..n - 1])
  }

  /** The connection remembers the last of these frames and counts repetitions up to 255. */
  ghost predicate Remembers(c: Conn, fs: seq<Fields>)
  {
    && fs != []
    && var f := fs[|fs| - 1];
    && c.incomingAck == f.ackNum && c.windowSize == f.windowSize && c.outgoingAck == Add32(f.seqNum, |f.payload|)
    && c.dupAcks == if Repeats(fs) < 255 then Repeats(fs) else 255
  }

  lemma RepeatsSnoc(fs: seq<Fields>, f: Fields)
    ensures Repeats(fs + [f]) == if fs != [] && fs[|fs| - 1].ackNum == f.ackNum then 1 + Repeats(fs) else 0
  {
    assert (fs + [f])[..|fs|] == fs;
  }

  lemma CountedStep(key: TcpKey, c: Conn, f: Fields, fs: seq<Fields>)
    requires Remembers(c, fs) && c.outgoingAck == f.seqNum
    ensures Remembers(HandleConnected(key, c, f).0, fs + [f])
  {
    hide Repeats;
    RepeatsSnoc(fs, f);
  }

  // Polls and writes leave these fields alone.
  lemma SendingRemembers(key: TcpKey, w: World, e: Event)
    requires w.state.Connected? && !e.Recv?
    ensures
      var c, w' := w.state.conn, Step(key, w, e);
      && w'.state.Connected?
      && w'.state.conn.incomingAck == c.incomingAck && w'.state.conn.windowSize == c.windowSize
      && w'.state.conn.outgoingAck == c.outgoingAck && w'.state.conn.dupAcks == c.dupAcks
  {
  }

  lemma FirstCounted(key: TcpKey, w: World, e: Event)
    requires Inv(w) && !w.state.Connected? && Step(key, w, e).state.Connected?
    ensures e.Recv? && Remembers(Step(key, w, e).state.conn, [e.f])
  {
    ConnectedStays(key, w, e);
    AddAssociates(w.state.ackNum, 0, |e.f.payload|);
  }

  /** Over every run: a connection remembers exactly the frames that counted for it. */
  lemma {:induction false} RunRemembers(key: TcpKey, es: seq<Event>)
    ensures
      var w := Run(key, es);
      if w.state.Connected? then Remembers(w.state.conn, Counted(key, es)) else Counted(key, es) == []
  {
    if es != [] {
      hide Step, Remembers, HandleConnected;
      var prev, e := es[..|es| - 1], es[|es| - 1];
      var w := Run(key, prev);
      RunRemembers(key, prev);
      RunConserves(key, prev);
      ConnectedStays(key, w, e);
      if !w.state.Connected? {
        if Run(key, es).state.Connected? {
          FirstCounted(key, w, e);
          assert [] + [e.f] == [e.f];
        }
      } else if e.Recv? {
        ConnectedFrame(key, w, e);
        if w.state.conn.outgoingAck == e.f.seqNum {
          CountedStep(key, w.state.conn, e.f, Counted(key, prev));
        }
      } else {
        SendingRemembers(key, w, e);
        RemembersFields(w.state.conn, Run(key, es).state.conn, Counted(key, prev));
      }
    }
  }

  lemma ConnectedFrame(key: TcpKey, w: World, e: Event)
    requires w.state.Connected? && e.Recv?
    ensures
      var w' := Step(key, w, e);
      && w'.state == Connected(HandleConnected(key, w.state.conn, e.f).0)
      && (w.state.conn.outgoingAck != e.f.seqNum ==> w'.state == w.state)
  {
  }

  lemma RemembersFields(c: Conn, d: Conn, fs: seq<Fields>)
    requires Remembers(c, fs) && d.incomingAck == c.incomingAck && d.windowSize == c.windowSize
    requires d.outgoingAck == c.outgoingAck && d.dupAcks == c.dupAcks
    ensures Remembers(d, fs)
  {
  }

  /** A go-back is due if and only if something is unacknowledged and the last three frames that counted
      carry the same acknowledgement number. */
  lemma GoBackWhen(key: TcpKey, es: seq<Event>)
    requires Run(key, es).state.Connected?
    ensures
      var c, fs := Run(key, es).state.conn, Counted(key, es);
      var n := |fs|;
      GoesBack(c) <==> c.unacked != [] && n >= 3 && fs[n - 1].ackNum == fs[n - 2].ackNum == fs[n - 3].ackNum
  {
    hide Run, Counted;
    RunRemembers(key, es);
    var fs := Counted(key, es);
    if |fs| >= 2 {
      var gs := fs[..|fs| - 1];
      assert Repeats(gs) >= 1 <==> |gs| >= 2 && gs[|gs| - 1].ackNum == gs[|gs| - 2].ackNum;
    }
  }
}
