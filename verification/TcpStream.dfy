/**
  What the peer sees of the sent stream.

  Duplicate acknowledgements make the sender retransmit the oldest packet and move the others to
  the back of the send queue.  If the queue was not empty this can swap bytes of the stream.  The
  theorems say exactly when it does not.
 */
module TcpStream {
  import opened Memory
  import opened Checksum
  import opened Frames
  import opened TcpFrame
  import opened TcpModel
  import opened TcpRuns

  ghost predicate Suffix(s: seq<byte>, t: seq<byte>)
  {
    |s| <= |t| && s == t[|t| - |s|..]
  }

  /** The unacknowledged bytes followed by the waiting bytes are the end of the stream. */
  ghost predicate InOrder(c: Conn, taken: seq<byte>)
  {
    Suffix(Flatten(Payloads(c.unacked)) + Flatten(c.toSend), taken)
  }

  /** The segment carries the bytes of the stream from offset `o` on. */
  predicate CarriesAt(p: Params, iss: u32, taken: seq<byte>, o: nat)
  {
    && o + |p.payload| <= |taken|
    && p.seqNum == Add32(iss + 1, o)
    && p.payload == taken[o..o + |p.payload|]
  }

  ghost predicate Carries(p: Params, iss: u32, taken: seq<byte>)
  {
    exists o: nat :: CarriesAt(p, iss, taken, o)
  }

  ghost predicate AllCarry(sent: seq<Params>, iss: u32, taken: seq<byte>)
  {
    forall p :: p in sent ==> Carries(p, iss, taken)
  }

  /** Where a segment belongs, counted from the first byte of the stream. */
  function Offset(p: Params, iss: u32): nat
  {
    (p.seqNum - iss - 1) % 0x1_0000_0000
  }

  lemma OffsetOf(p: Params, iss: u32, o: nat)
    requires o < 0x1_0000_0000 && p.seqNum == Add32(iss + 1, o)
    ensures Offset(p, iss) == o
  {
  }

  /** For streams under 2^32 bytes the offset is the one given by the sequence number. */
  lemma CarriesOffset(p: Params, iss: u32, taken: seq<byte>)
    requires |taken| < 0x1_0000_0000
    ensures Carries(p, iss, taken) <==> CarriesAt(p, iss, taken, Offset(p, iss))
  {
    forall o: nat | CarriesAt(p, iss, taken, o)
      ensures o == Offset(p, iss)
    {
      OffsetOf(p, iss, o);
    }
  }

  lemma CarriesLonger(p: Params, iss: u32, taken: seq<byte>, data: seq<byte>)
    requires Carries(p, iss, taken)
    ensures Carries(p, iss, taken + data)
  {
    var o: nat :| CarriesAt(p, iss, taken, o);
    assert (taken + data)[o..o + |p.payload|] == taken[o..o + |p.payload|];
    assert CarriesAt(p, iss, taken + data, o);
  }

  // ---------------------------------------------------------------- one step

  /** Moving the later packets behind the waiting ones leaves the bytes in order. */
  ghost predicate Commutes(c: Conn)
    requires c.unacked != []
  {
    var waiting, later := Flatten(c.toSend), Flatten(Payloads(c.unacked[1..]));
    waiting + later == later + waiting
  }

  /** Sufficient, and read off the queues alone: nothing is waiting, or there is no later packet. */
  lemma GuardCommutes(c: Conn)
    requires c.unacked != [] && (c.toSend == [] || |c.unacked| == 1)
    ensures Commutes(c)
  {
    var waiting, later := Flatten(c.toSend), Flatten(Payloads(c.unacked[1..]));
    assert waiting == [] || later == [];
    assert waiting + later == later + waiting;
  }

  lemma OldestCarries(c: Conn, iss: u32, taken: seq<byte>)
    requires Conserved(c, iss, taken) && InOrder(c, taken) && c.unacked != []
    ensures Carries(c.unacked[0], iss, taken)
  {
    var p := c.unacked[0];
    var u, s := Flatten(Payloads(c.unacked)), Flatten(c.toSend);
    var o := |taken| - |u| - |s|;
    ContiguousLength(c.unacked, c.seqNum);
    AddAssociates(p.seqNum, |u|, |s|);
    CancelAdd(p.seqNum, |u| + |s|, iss + 1, |taken|);
    PayloadsTail(c.unacked);
    assert u[..|p.payload|] == p.payload;
    assert taken[o..o + |p.payload|] == (u + s)[..|p.payload|];
    assert CarriesAt(p, iss, taken, o);
  }

  lemma NextCarries(key: TcpKey, c: Conn, iss: u32, taken: seq<byte>)
    requires Conserved(c, iss, taken) && c.toSend != []
    requires Suffix(Flatten(c.toSend), taken)
    ensures Carries(PushParams(key, c, c.toSend[0]), iss, taken)
  {
    var s, data := Flatten(c.toSend), c.toSend[0];
    var o := |taken| - |s|;
    CancelAdd(c.seqNum, |s|, iss + 1, |taken|);
    assert taken[o..o + |data|] == s[..|data|];
    assert CarriesAt(PushParams(key, c, data), iss, taken, o);
  }

  lemma FreshCarries(key: TcpKey, c: Conn, data: seq<byte>, iss: u32, taken: seq<byte>)
    requires Conserved(c, iss, taken) && c.toSend == []
    ensures Carries(PushParams(key, c, data), iss, taken + data)
  {
    CancelAdd(c.seqNum, 0, iss + 1, |taken|);
    assert (taken + data)[|taken|..|taken| + |data|] == data;
    assert CarriesAt(PushParams(key, c, data), iss, taken + data, |taken|);
  }

  lemma SuffixTail(s: seq<byte>, t: seq<byte>, taken: seq<byte>)
    requires Suffix(s + t, taken)
    ensures Suffix(t, taken)
  {
    assert t == (s + t)[|s|..];
  }

  lemma SuffixGrows(s: seq<byte>, taken: seq<byte>, data: seq<byte>)
    requires Suffix(s, taken)
    ensures Suffix(s + data, taken + data)
  {
  }

  /** The retransmission step keeps the stream in order exactly when the two byte strings
      commute. */
  lemma GoBackInOrder(c: Conn, taken: seq<byte>)
    requires InOrder(c, taken) && c.unacked != []
    ensures InOrder(GoBack(c), taken) <==> Commutes(c)
  {
    var p := c.unacked[0];
    var s, r := Flatten(c.toSend), Flatten(Payloads(c.unacked[1..]));
    FlattenConcat(c.toSend, Payloads(c.unacked[1..]));
    var g := GoBack(c);
    assert Flatten(Payloads(g.unacked)) + Flatten(g.toSend) == s + r;
    PayloadsTail(c.unacked);
    assert p.payload + r + s == p.payload + (r + s);
    SuffixTail(p.payload, r + s, taken);
    assert |s + r| == |r + s|;
  }

  lemma PushInOrder(key: TcpKey, c: Conn, data: seq<byte>, taken: seq<byte>)
    requires Suffix(Flatten(Payloads(c.unacked)) + data + Flatten(c.toSend), taken)
    ensures InOrder(Push(key, c, data), taken)
  {
    var p := PushParams(key, c, data);
    PayloadsConcat(c.unacked, [p]);
    assert Payloads([p]) == [data];
    FlattenConcat(Payloads(c.unacked), [data]);
    assert Flatten([data]) == data;
  }

  // ---------------------------------------------------------------- whole runs

  ghost predicate StreamInv(w: World)
  {
    && Inv(w)
    && AllCarry(w.sent, w.iss, w.taken)
    && (w.state.Connected? ==> InOrder(w.state.conn, w.taken))
  }

  /** If the event is a poll that goes back, it does so in a state where the queues commute. */
  ghost predicate SafePoll(w: World, e: Event)
  {
    e.PollOut? && w.state.Connected? && GoesBack(w.state.conn) ==> Commutes(w.state.conn)
  }

  lemma RecvStream(key: TcpKey, w: World, e: Event)
    requires StreamInv(w) && e.Recv?
    ensures StreamInv(Step(key, w, e))
  {
    hide Handle, HandleConnected;
    RecvConserves(key, w, e);
    RecvSentSame(key, w, e);
    if w.state.Connected? {
      RecvInOrder(key, w.state.conn, e.f, w.taken);
    }
  }

  lemma RecvInOrder(key: TcpKey, c: Conn, f: Fields, taken: seq<byte>)
    requires InOrder(c, taken)
    ensures InOrder(HandleConnected(key, c, f).0, taken)
  {
    hide HandleConnected;
    HandleConnectedQueues(key, c, f);
    if c.unacked != [] {
      PayloadsTail(c.unacked);
      var p, r, s := c.unacked[0].payload, Flatten(Payloads(c.unacked[1..])), Flatten(c.toSend);
      assert p + r + s == p + (r + s);
      SuffixTail(p, r + s, taken);
    }
  }

  // A frame leaves the sending side alone, except that it may drop the oldest packet.
  lemma HandleConnectedQueues(key: TcpKey, c: Conn, f: Fields)
    ensures
      var c' := HandleConnected(key, c, f).0;
      c'.toSend == c.toSend && (c'.unacked == c.unacked || (c.unacked != [] && c'.unacked == c.unacked[1..]))
  {
  }

  lemma RecvSentSame(key: TcpKey, w: World, e: Event)
    requires Inv(w) && e.Recv?
    ensures
      var w' := Step(key, w, e);
      && w'.sent == w.sent && w'.taken == w.taken
      && (w.state.Connected? ==>
            w'.iss == w.iss && w'.state.Connected? && w'.state.conn == HandleConnected(key, w.state.conn, e.f).0)
      && (!w.state.Connected? ==> w.sent == [] && w.taken == [])
      && (!w.state.Connected? && w'.state.Connected? ==> w'.state.conn.unacked == [] && w'.state.conn.toSend == [])
  {
    if w.state.SynAckSent? && e.f.flags.syn {
      assert Handle(key, w.state, e.f, e.env) == Handle(key, Uninit, e.f, e.env);
    }
  }

  lemma AllCarrySnoc(sent: seq<Params>, p: Params, iss: u32, taken: seq<byte>, data: seq<byte>)
    requires AllCarry(sent, iss, taken) && Carries(p, iss, taken + data)
    ensures AllCarry(sent + [p], iss, taken + data)
  {
    forall q | q in sent + [p]
      ensures Carries(q, iss, taken + data)
    {
      if q in sent {
        CarriesLonger(q, iss, taken, data);
      }
    }
  }

  lemma GoBackStream(key: TcpKey, w: World, e: Event)
    requires StreamInv(w) && e.PollOut? && w.state.Connected? && GoesBack(w.state.conn) && Commutes(w.state.conn)
    ensures StreamInv(Step(key, w, e))
  {
    hide Conserved, InOrder, Carries, AllCarry, Commutes, GoBack;
    var c := w.state.conn;
    PollConserves(key, w, e);
    OldestCarries(c, w.iss, w.taken);
    assert w.taken + [] == w.taken;
    AllCarrySnoc(w.sent, c.unacked[0], w.iss, w.taken, []);
    GoBackInOrder(c, w.taken);
  }

  lemma WaitingStream(key: TcpKey, w: World, e: Event)
    requires StreamInv(w) && e.PollOut? && w.state.Connected? && !GoesBack(w.state.conn) && w.state.conn.toSend != []
    ensures StreamInv(Step(key, w, e))
  {
    hide Conserved, Carries, AllCarry, Suffix, Push, PushParams;
    var c, taken := w.state.conn, w.taken;
    var u, data, rest := Flatten(Payloads(c.unacked)), c.toSend[0], Flatten(c.toSend[1..]);
    PollConserves(key, w, e);
    SuffixTail(u, Flatten(c.toSend), taken);
    NextCarries(key, c, w.iss, taken);
    assert taken + [] == taken;
    AllCarrySnoc(w.sent, PushParams(key, c, data), w.iss, taken, []);
    assert u + (data + rest) == u + data + rest;
    PushInOrder(key, c.(toSend := c.toSend[1..]), data, taken);
    PushIgnoresQueues(key, c, c.toSend[1..], c.outbox, data);
  }

  lemma FreshStream(key: TcpKey, w: World, e: Event)
    requires StreamInv(w) && e.PollOut? && w.state.Connected? && !GoesBack(w.state.conn) && w.state.conn.toSend == []
    requires e.rxReady && w.state.conn.outbox != []
    ensures StreamInv(Step(key, w, e))
  {
    hide Conserved, Carries, AllCarry, Suffix, Push, PushParams;
    var c, taken := w.state.conn, w.taken;
    var u, data := Flatten(Payloads(c.unacked)), c.outbox[0];
    PollConserves(key, w, e);
    FreshCarries(key, c, data, w.iss, taken);
    AllCarrySnoc(w.sent, PushParams(key, c, data), w.iss, taken, data);
    SuffixGrows(u + [], taken, data);
    assert u + [] + data == u + data + [];
    PushInOrder(key, c.(outbox := c.outbox[1..]), data, taken + data);
    PushIgnoresQueues(key, c, c.toSend, c.outbox[1..], data);
  }

  // The parameters of a segment do not depend on the queues.
  lemma PushIgnoresQueues(key: TcpKey, c: Conn, toSend: seq<seq<byte>>, outbox: seq<seq<byte>>, data: seq<byte>)
    ensures PushParams(key, c.(toSend := toSend, outbox := outbox), data) == PushParams(key, c, data)
    ensures PushParams(key, c, data).payload == data
  {
  }

  lemma PollStream(key: TcpKey, w: World, e: Event)
    requires StreamInv(w) && e.PollOut? && SafePoll(w, e)
    ensures StreamInv(Step(key, w, e))
  {
    hide Conserved, InOrder, AllCarry, Commutes;
    if w.state.Connected? {
      var c := w.state.conn;
      if GoesBack(c) {
        GoBackStream(key, w, e);
      } else if c.toSend != [] {
        WaitingStream(key, w, e);
      } else if e.rxReady && c.outbox != [] {
        FreshStream(key, w, e);
      }
    }
  }

  lemma StepStream(key: TcpKey, w: World, e: Event)
    requires StreamInv(w) && SafePoll(w, e)
    ensures StreamInv(Step(key, w, e))
  {
    match e
    case Recv(_, _) => RecvStream(key, w, e);
    case PollOut(_, _, _) => PollStream(key, w, e);
    case Write(_) =>
  }

  /** Every go-back of the run happens in a state whose queues commute. */
  ghost predicate SafeRun(key: TcpKey, es: seq<Event>)
  {
    forall i :: 0 <= i < |es| ==> SafePoll(Run(key, es[..i]), es[i])
  }

  lemma SafeSnoc(key: TcpKey, es: seq<Event>)
    requires es != []
    ensures SafeRun(key, es) <==> SafeRun(key, es[..|es| - 1]) && SafePoll(Run(key, es[..|es| - 1]), es[|es| - 1])
  {
    hide Run, SafePoll;
    var prev := es[..|es| - 1];
    forall i | 0 <= i < |prev|
      ensures SafePoll(Run(key, prev[..i]), prev[i]) == SafePoll(Run(key, es[..i]), es[i])
    {
      assert prev[..i] == es[..i];
    }
  }

  /** Sent-stream consistency: in a safe run every data segment ever sent, first transmission or
      retransmission, carries the slice of the application's stream that its sequence number
      announces. */
  lemma {:induction false} SentStream(key: TcpKey, es: seq<Event>)
    requires SafeRun(key, es)
    ensures StreamInv(Run(key, es))
    ensures var w := Run(key, es);
            |w.taken| < 0x1_0000_0000 ==> forall p :: p in w.sent ==> CarriesAt(p, w.iss, w.taken, Offset(p, w.iss))
  {
    if es != [] {
      var prev, e := es[..|es| - 1], es[|es| - 1];
      SafeSnoc(key, es);
      SentStream(key, prev);
      StepStream(key, Run(key, prev), e);
    }
    var w := Run(key, es);
    if |w.taken| < 0x1_0000_0000 {
      forall p | p in w.sent
        ensures CarriesAt(p, w.iss, w.taken, Offset(p, w.iss))
      {
        CarriesOffset(p, w.iss, w.taken);
      }
    }
  }

  /** In particular when every go-back finds nothing waiting or no later packet. */
  lemma GuardedRunIsSafe(key: TcpKey, es: seq<Event>)
    requires forall i :: 0 <= i < |es| && es[i].PollOut? ==>
               var s := Run(key, es[..i]).state;
               s.Connected? && GoesBack(s.conn) ==> s.conn.toSend == [] || |s.conn.unacked| == 1
    ensures SafeRun(key, es)
  {
    forall i | 0 <= i < |es|
      ensures SafePoll(Run(key, es[..i]), es[i])
    {
      var s := Run(key, es[..i]).state;
      if es[i].PollOut? && s.Connected? && GoesBack(s.conn) {
        GuardCommutes(s.conn);
      }
    }
  }

  /** What the receiver makes of the bytes on the wire. */
  function ReceiveSegment(data: seq<byte>): Parsed<Fields>
  {
    var r :- Receive(data);
    if r.ReceivedTcp? then ParseTcp(r.frame) else Invalid
  }

  /** The received payload is the slice of the stream that the received sequence number announces. */
  predicate AnnouncedSlice(f: Fields, iss: u32, taken: seq<byte>)
  {
    var o := (f.seqNum - iss - 1) % 0x1_0000_0000;
    o + |f.payload| <= |taken| && f.payload == taken[o..o + |f.payload|]
  }

  /** From the send queue to the wire: a segment of a safe run, framed for TCP, IPv4 and Ethernet and
      parsed back by the receiver, is the slice of the stream at the offset that the parsed
      sequence number announces. */
  lemma SentOnTheWire(key: TcpKey, es: seq<Event>, p: Params, destMac: Mac, sourceMac: Mac, crc: seq<byte>)
    requires SafeRun(key, es) && p in Run(key, es).sent && |Run(key, es).taken| < 0x1_0000_0000
    requires |p.payload| <= 65495 && |crc| == 4
    ensures
      var t := ReceiveSegment(Wire(destMac, sourceMac, key.localIp, key.remoteIp, PROTOCOL_TCP, Frame(p), crc));
      t.Ok? && AnnouncedSlice(t.value, Run(key, es).iss, Run(key, es).taken)
  {
    hide Run, SafeRun, Frame, Receive, Wire, ParseTcp;
    SentStream(key, es);
    FrameRoundTrip(p);
    FrameLength(p);
    TcpLayers(destMac, sourceMac, key.localIp, key.remoteIp, Frame(p), crc);
  }

  lemma FrameLength(p: Params)
    ensures |Frame(p)| == TCP_HEADER + |p.payload|
  {
  }

  // ---------------------------------------------------------------- exactness

  const IDLE: Event := PollOut(false, 0, 0)

  /** `k` polls in a row, with no new data from the application. */
  function Polls(key: TcpKey, w: World, k: nat): World
    decreases k
  {
    if k == 0 then w else Polls(key, Step(key, w, IDLE), k - 1)
  }

  /** After a go-back: the counter stays at two or more, so each later packet is sent, then sent
      again, before the next one. */
  ghost predicate Draining(w: World)
  {
    && w.state.Connected? && w.state.conn.dupAcks >= 2 && |w.state.conn.unacked| <= 1
    && Conserved(w.state.conn, w.iss, w.taken)
  }

  lemma DrainStep(key: TcpKey, w: World)
    requires Draining(w)
    ensures
      var w', c := Step(key, w, IDLE), w.state.conn;
      && Draining(w') && w'.iss == w.iss && w'.taken == w.taken
      && (c.unacked != [] ==> w'.state.conn.toSend == c.toSend && w'.state.conn.unacked == [])
      && (c.unacked == [] && c.toSend != [] ==>
            && w'.state.conn.toSend == c.toSend[1..] && |w'.state.conn.unacked| == 1
            && w'.sent == w.sent + [PushParams(key, c, c.toSend[0])])
      && w.sent <= w'.sent
  {
    var c := w.state.conn;
    if c.unacked != [] {
      GoBackConserves(c, w.iss, w.taken);
      assert c.toSend + Payloads(c.unacked[1..]) == c.toSend;
    } else if c.toSend != [] {
      PushConserves(key, c.(toSend := c.toSend[1..]), c.toSend[0], w.iss, w.taken);
    }
  }

  /** If the waiting bytes are not the end of the stream, polling sends a segment that does not
      carry what its sequence number announces. */
  lemma {:induction false} DrainFinds(key: TcpKey, w: World) returns (k: nat, p: Params)
    requires Draining(w) && |w.taken| < 0x1_0000_0000
    requires |Flatten(w.state.conn.toSend)| <= |w.taken| && !Suffix(Flatten(w.state.conn.toSend), w.taken)
    ensures p in Polls(key, w, k).sent && !Carries(p, w.iss, w.taken)
    decreases |w.state.conn.toSend|, |w.state.conn.unacked|
  {
    hide Step, Carries;
    var c, w1 := w.state.conn, Step(key, w, IDLE);
    DrainStep(key, w);
    if c.unacked != [] {
      var k1, p1 := DrainFinds(key, w1);
      return k1 + 1, p1;
    }
    p := PushParams(key, c, c.toSend[0]);
    if !Carries(p, w.iss, w.taken) {
      assert Polls(key, w, 1) == Polls(key, w1, 0);
      return 1, p;
    }
    NextIsSuffix(key, c, w.iss, w.taken);
    var k1, p1 := DrainFinds(key, w1);
    return k1 + 1, p1;
  }

  // The first waiting packet carries its slice: then the rest decides.
  lemma NextIsSuffix(key: TcpKey, c: Conn, iss: u32, taken: seq<byte>)
    requires Conserved(c, iss, taken) && |taken| < 0x1_0000_0000
    requires c.toSend != [] && |Flatten(c.toSend)| <= |taken|
    requires Carries(PushParams(key, c, c.toSend[0]), iss, taken)
    ensures Suffix(Flatten(c.toSend), taken) <==> Suffix(Flatten(c.toSend[1..]), taken)
    ensures |Flatten(c.toSend[1..])| <= |taken|
  {
    var data, rest, p := c.toSend[0], Flatten(c.toSend[1..]), PushParams(key, c, c.toSend[0]);
    CancelAdd(c.seqNum, |data| + |rest|, iss + 1, |taken|);
    OffsetOf(p, iss, |taken| - |data| - |rest|);
    CarriesOffset(p, iss, taken);
    SplitSuffix(data, rest, taken);
  }

  lemma SplitSuffix(data: seq<byte>, rest: seq<byte>, taken: seq<byte>)
    requires |data| + |rest| <= |taken| && data == taken[|taken| - |data| - |rest|..|taken| - |rest|]
    ensures Suffix(data + rest, taken) <==> Suffix(rest, taken)
  {
    var o := |taken| - |data| - |rest|;
    assert taken[o..] == taken[o..o + |data|] + taken[o + |data|..];
    if Suffix(data + rest, taken) {
      SuffixTail(data, rest, taken);
    }
  }

  lemma {:induction false} DrainCarries(key: TcpKey, w: World, k: nat)
    requires Draining(w) && StreamInv(w)
    ensures AllCarry(Polls(key, w, k).sent, w.iss, w.taken)
    decreases k
  {
    if k > 0 {
      if GoesBack(w.state.conn) {
        GuardCommutes(w.state.conn);
      }
      StepStream(key, w, IDLE);
      DrainStep(key, w);
      DrainCarries(key, Step(key, w, IDLE), k - 1);
    }
  }

  /** However long the service polls, every segment carries what its sequence number announces. */
  ghost predicate PollsRight(key: TcpKey, w: World)
  {
    forall k: nat :: AllCarry(Polls(key, w, k).sent, w.iss, w.taken)
  }

  /** Exactness: in a state whose stream is in order, a go-back keeps all further segments right
      if and only if the waiting bytes commute with the later ones. */
  lemma GoBackExact(key: TcpKey, w: World)
    requires StreamInv(w) && w.state.Connected? && GoesBack(w.state.conn) && |w.taken| < 0x1_0000_0000
    ensures PollsRight(key, w) <==> Commutes(w.state.conn)
  {
    var c, w1 := w.state.conn, Step(key, w, IDLE);
    GoBackConserves(c, w.iss, w.taken);
    GoBackInOrder(c, w.taken);
    assert Draining(w1) && w1.state.conn == GoBack(c) && w1.taken == w.taken && w1.iss == w.iss;
    if Commutes(c) {
      StepStream(key, w, IDLE);
      forall k: nat
        ensures AllCarry(Polls(key, w, k).sent, w.iss, w.taken)
      {
        if k > 0 {
          DrainCarries(key, w1, k - 1);
        }
      }
    } else {
      GoBackBytes(c, w.taken);
      var k, p := DrainFinds(key, w1);
      assert Polls(key, w, k + 1) == Polls(key, w1, k);
      assert !AllCarry(Polls(key, w, k + 1).sent, w.iss, w.taken);
    }
  }

  /** If the event is a poll that goes back, it and any number of further polls send only segments that
      carry what their sequence numbers announce. */
  ghost predicate RightPoll(key: TcpKey, w: World, e: Event)
  {
    e.PollOut? && w.state.Connected? && GoesBack(w.state.conn) ==> PollsRight(key, w)
  }

  ghost predicate RightRun(key: TcpKey, es: seq<Event>)
  {
    forall i :: 0 <= i < |es| ==> RightPoll(key, Run(key, es[..i]), es[i])
  }

  lemma RightSnoc(key: TcpKey, es: seq<Event>)
    requires es != []
    ensures RightRun(key, es) <==> RightRun(key, es[..|es| - 1]) && RightPoll(key, Run(key, es[..|es| - 1]), es[|es| - 1])
  {
    hide Run, RightPoll;
    var prev := es[..|es| - 1];
    forall i | 0 <= i < |prev|
      ensures RightPoll(key, Run(key, prev[..i]), prev[i]) == RightPoll(key, Run(key, es[..i]), es[i])
    {
      assert prev[..i] == es[..i];
    }
  }

  lemma TakenGrows(key: TcpKey, w: World, e: Event)
    ensures |w.taken| <= |Step(key, w, e).taken|
  {
  }

  /** Exactness over runs: every go-back of a run is followed only by right segments, however long the
      service polls, if and only if each of them happens in a state whose queues commute. */
  lemma {:induction false} SentExact(key: TcpKey, es: seq<Event>)
    requires |Run(key, es).taken| < 0x1_0000_0000
    ensures RightRun(key, es) <==> SafeRun(key, es)
  {
    hide RightRun, SafeRun, RightPoll, SafePoll, StreamInv, Step;
    if es == [] {
      NoPolls(key);
    } else {
      var prev, e := es[..|es| - 1], es[|es| - 1];
      TakenGrows(key, Run(key, prev), e);
      SentExact(key, prev);
      SafeSnoc(key, es);
      RightSnoc(key, es);
      if SafeRun(key, prev) {
        SentStream(key, prev);
        RightIffSafe(key, Run(key, prev), e);
      }
    }
  }

  lemma RightIffSafe(key: TcpKey, w: World, e: Event)
    requires StreamInv(w) && |w.taken| < 0x1_0000_0000
    ensures RightPoll(key, w, e) <==> SafePoll(w, e)
  {
    if e.PollOut? && w.state.Connected? && GoesBack(w.state.conn) {
      GoBackExact(key, w);
    }
  }

  lemma NoPolls(key: TcpKey)
    ensures RightRun(key, []) && SafeRun(key, [])
  {
  }

  lemma GoBackBytes(c: Conn, taken: seq<byte>)
    requires InOrder(c, taken) && c.unacked != [] && !InOrder(GoBack(c), taken)
    ensures |Flatten(GoBack(c).toSend)| <= |taken| && !Suffix(Flatten(GoBack(c).toSend), taken)
  {
    FlattenConcat(c.toSend, Payloads(c.unacked[1..]));
    PayloadsTail(c.unacked);
    var g := GoBack(c);
    assert Flatten(Payloads(g.unacked)) + Flatten(g.toSend) == Flatten(g.toSend);
  }
}
