/**
  Runs in which the sender puts the wrong bytes at a sequence number: the second go-back finds one
  packet waiting and a later packet unacknowledged, and swaps them.
 */
module TcpReorder {
  import opened Memory
  import opened Checksum
  import opened TcpFrame
  import opened TcpModel
  import opened TcpRuns
  import opened TcpScript
  import opened TcpStream

  /** Four writes, the first of one byte, and the packets they are sent in. */
  datatype Plan = Plan(key: TcpKey, iss: u32, a: byte, b: seq<byte>, c: seq<byte>, d: seq<byte>) {
    function SeqA(): u32 { Add32(iss, 1) }
    function SeqB(): u32 { Add32(SeqA(), 1) }
    function SeqC(): u32 { Add32(SeqB(), |b|) }
    function SeqD(): u32 { Add32(SeqC(), |c|) }
    function End(): u32 { Add32(SeqD(), |d|) }

    function A(): Params { Packet(key, SeqA(), [a]) }
    function B(): Params { Packet(key, SeqB(), b) }
    function C(): Params { Packet(key, SeqC(), c) }
    function D(): Params { Packet(key, SeqD(), d) }

    function Taken(): seq<byte> { [a] + b + c + d }
    function Sent(): seq<Params> { [A(), B(), C(), D()] }
  }

  /** Everything went out once. */
  function AllSent(p: Plan, dup: byte): World
  {
    Snapshot(p.iss, p.End(), p.SeqA(), dup, p.Sent(), [], [], p.Taken(), p.Sent())
  }

  /** After the first go-back. */
  function Requeued(p: Plan, ack: u32, dup: byte): World
  {
    Snapshot(p.iss, p.SeqB(), ack, dup, [], [p.b, p.c, p.d], [], p.Taken(), p.Sent() + [p.A()])
  }

  /** The run leads to the world, and every go-back in it is safe. */
  ghost predicate Reaches(key: TcpKey, es: seq<Event>, w: World)
  {
    Run(key, es) == w && SafeRun(key, es)
  }

  // One more event that keeps the run safe.
  lemma Next(key: TcpKey, es: seq<Event>, v: World, e: Event, w: World) returns (es': seq<Event>)
    requires Reaches(key, es, v) && SafePoll(v, e) && Same(Step(key, v, e), w)
    ensures Reaches(key, es', w)
  {
    hide Run, SafeRun, SafePoll, Step;
    es' := Extend(key, es, e, w);
    SafeSnoc(key, es');
    assert es'[..|es'| - 1] == es;
  }

  lemma Quiet(key: TcpKey, es: seq<Event>, v: World, e: Event, w: World) returns (es': seq<Event>)
    requires Reaches(key, es, v) && Same(Step(key, v, e), w)
    requires e.PollOut? ==> v.state.Connected? && v.state.conn.dupAcks == 0
    ensures Reaches(key, es', w)
  {
    hide Reaches, Step;
    es' := Next(key, es, v, e, w);
  }

  lemma HandshakeReaches(key: TcpKey, iss: u32) returns (es: seq<Event>)
    ensures Reaches(key, es, Snapshot(iss, Add32(iss, 1), Add32(iss, 1), 0, [], [], [], [], []))
  {
    hide Run;
    es := Connects(key, iss);
    assert !es[0].PollOut? && !es[1].PollOut?;
  }

  /** Handshake and the four writes. */
  lemma Opening(p: Plan) returns (es: seq<Event>)
    ensures Reaches(p.key, es, Snapshot(p.iss, p.SeqA(), p.SeqA(), 0, [], [], [[p.a], p.b, p.c, p.d], [], []))
  {
    hide Reaches, Handle;
    var n := p.SeqA();
    var w0, w1 := Snapshot(p.iss, n, n, 0, [], [], [], [], []), Snapshot(p.iss, n, n, 0, [], [], [[p.a]], [], []);
    var w2 := Snapshot(p.iss, n, n, 0, [], [], [[p.a], p.b], [], []);
    var w3 := Snapshot(p.iss, n, n, 0, [], [], [[p.a], p.b, p.c], [], []);
    es := HandshakeReaches(p.key, p.iss);
    es := Quiet(p.key, es, w0, Write([p.a]), w1);
    es := Quiet(p.key, es, w1, Write(p.b), w2);
    es := Quiet(p.key, es, w2, Write(p.c), w3);
    es := Quiet(p.key, es, w3, Write(p.d), Snapshot(p.iss, n, n, 0, [], [], [[p.a], p.b, p.c, p.d], [], []));
  }

  // Fresh data goes out; so far everything sent is unacknowledged.
  lemma SendFresh(key: TcpKey, es0: seq<Event>, iss: u32, seqNum: u32, ack: u32, data: seq<byte>, outbox: seq<seq<byte>>,
                  taken: seq<byte>, sent: seq<Params>) returns (es: seq<Event>)
    requires Reaches(key, es0, Snapshot(iss, seqNum, ack, 0, sent, [], [data] + outbox, taken, sent))
    ensures
      var sent' := sent + [Packet(key, seqNum, data)];
      Reaches(key, es, Snapshot(iss, Add32(seqNum, |data|), ack, 0, sent', [], outbox, taken + data, sent'))
  {
    hide Reaches, Handle, HandleConnected;
    var sent' := sent + [Packet(key, seqNum, data)];
    es := Quiet(key, es0, Snapshot(iss, seqNum, ack, 0, sent, [], [data] + outbox, taken, sent), POLL,
                Snapshot(iss, Add32(seqNum, |data|), ack, 0, sent', [], outbox, taken + data, sent'));
  }

  /** All four packets go out. */
  lemma FirstSends(p: Plan, es0: seq<Event>) returns (es: seq<Event>)
    requires Reaches(p.key, es0, Snapshot(p.iss, p.SeqA(), p.SeqA(), 0, [], [], [[p.a], p.b, p.c, p.d], [], []))
    ensures Reaches(p.key, es, AllSent(p, 0))
  {
    hide Reaches;
    assert [[p.a], p.b, p.c, p.d] == [[p.a]] + [p.b, p.c, p.d];
    es := SendFresh(p.key, es0, p.iss, p.SeqA(), p.SeqA(), [p.a], [p.b, p.c, p.d], [], []);
    assert [] + [p.a] == [p.a] && [] + [p.A()] == [p.A()] && [p.b, p.c, p.d] == [p.b] + [p.c, p.d];
    es := SendFresh(p.key, es, p.iss, p.SeqB(), p.SeqA(), p.b, [p.c, p.d], [p.a], [p.A()]);
    assert [p.A()] + [p.B()] == [p.A(), p.B()] && [p.c, p.d] == [p.c] + [p.d];
    es := SendFresh(p.key, es, p.iss, p.SeqC(), p.SeqA(), p.c, [p.d], [p.a] + p.b, [p.A(), p.B()]);
    assert [p.A(), p.B()] + [p.C()] == [p.A(), p.B(), p.C()] && [p.d] == [p.d] + [];
    es := SendFresh(p.key, es, p.iss, p.SeqD(), p.SeqA(), p.d, [], [p.a] + p.b + p.c, [p.A(), p.B(), p.C()]);
    assert [p.A(), p.B(), p.C()] + [p.D()] == p.Sent();
  }

  // A duplicate acknowledgement up to which nothing is unacknowledged.
  lemma DuplicateAck(key: TcpKey, es0: seq<Event>, iss: u32, seqNum: u32, ack: u32, dup: byte, unacked: seq<Params>,
                     toSend: seq<seq<byte>>, taken: seq<byte>, sent: seq<Params>) returns (es: seq<Event>)
    requires dup < 255 && unacked != [] && unacked[0].seqNum == ack
    requires Reaches(key, es0, Snapshot(iss, seqNum, ack, dup, unacked, toSend, [], taken, sent))
    ensures Reaches(key, es, Snapshot(iss, seqNum, ack, dup + 1, unacked, toSend, [], taken, sent))
  {
    hide Reaches;
    es := Quiet(key, es0, Snapshot(iss, seqNum, ack, dup, unacked, toSend, [], taken, sent), PeerAck(ack),
                Snapshot(iss, seqNum, ack, dup + 1, unacked, toSend, [], taken, sent));
  }

  /** Two duplicate acknowledgements, a go-back, and an acknowledgement of the retransmission. */
  lemma FirstGoBack(p: Plan, es0: seq<Event>) returns (es: seq<Event>)
    requires Reaches(p.key, es0, AllSent(p, 0))
    ensures Reaches(p.key, es, Requeued(p, p.SeqB(), 0))
  {
    hide Reaches;
    es := DuplicateAck(p.key, es0, p.iss, p.End(), p.SeqA(), 0, p.Sent(), [], p.Taken(), p.Sent());
    es := DuplicateAck(p.key, es, p.iss, p.End(), p.SeqA(), 1, p.Sent(), [], p.Taken(), p.Sent());
    es := Retransmit(p, es);
    es := Acknowledge(p, es);
  }

  lemma Retransmit(p: Plan, es0: seq<Event>) returns (es: seq<Event>)
    requires Reaches(p.key, es0, AllSent(p, 2))
    ensures Reaches(p.key, es, Requeued(p, p.SeqA(), 2))
  {
    hide Reaches, Handle, HandleConnected, Commutes;
    var v := AllSent(p, 2);
    GuardCommutes(v.state.conn);
    assert Payloads(p.Sent()[1..]) == [p.b, p.c, p.d];
    es := Next(p.key, es0, v, POLL, Requeued(p, p.SeqA(), 2));
  }

  lemma Acknowledge(p: Plan, es0: seq<Event>) returns (es: seq<Event>)
    requires Reaches(p.key, es0, Requeued(p, p.SeqA(), 2))
    ensures Reaches(p.key, es, Requeued(p, p.SeqB(), 0))
  {
    hide Reaches;
    es := Quiet(p.key, es0, Requeued(p, p.SeqA(), 2), PeerAck(p.SeqB()), Requeued(p, p.SeqB(), 0));
  }

  // A waiting packet goes out.
  lemma SendWaiting(key: TcpKey, es0: seq<Event>, iss: u32, seqNum: u32, ack: u32, unacked: seq<Params>, data: seq<byte>,
                    toSend: seq<seq<byte>>, taken: seq<byte>, sent: seq<Params>) returns (es: seq<Event>)
    requires Reaches(key, es0, Snapshot(iss, seqNum, ack, 0, unacked, [data] + toSend, [], taken, sent))
    ensures
      var p := Packet(key, seqNum, data);
      Reaches(key, es, Snapshot(iss, Add32(seqNum, |data|), ack, 0, unacked + [p], toSend, [], taken, sent + [p]))
  {
    hide Reaches, Handle, HandleConnected;
    var p := Packet(key, seqNum, data);
    es := Quiet(key, es0, Snapshot(iss, seqNum, ack, 0, unacked, [data] + toSend, [], taken, sent), POLL,
                Snapshot(iss, Add32(seqNum, |data|), ack, 0, unacked + [p], toSend, [], taken, sent + [p]));
  }

  /** About to go back for the second time: two packets were sent again, the last one is waiting. */
  function Loaded(p: Plan): World
  {
    Snapshot(p.iss, p.SeqD(), p.SeqB(), 2, [p.B(), p.C()], [p.d], [], p.Taken(), p.Sent() + [p.A()] + [p.B()] + [p.C()])
  }

  lemma SecondSends(p: Plan, es0: seq<Event>) returns (es: seq<Event>)
    requires Reaches(p.key, es0, Requeued(p, p.SeqB(), 0))
    ensures Reaches(p.key, es, Loaded(p))
  {
    hide Reaches;
    var sent := p.Sent() + [p.A()];
    assert [p.b, p.c, p.d] == [p.b] + [p.c, p.d] && [p.c, p.d] == [p.c] + [p.d];
    es := SendWaiting(p.key, es0, p.iss, p.SeqB(), p.SeqB(), [], p.b, [p.c, p.d], p.Taken(), sent);
    assert [] + [p.B()] == [p.B()] && [p.B()] + [p.C()] == [p.B(), p.C()];
    es := SendWaiting(p.key, es, p.iss, p.SeqC(), p.SeqB(), [p.B()], p.c, [p.d], p.Taken(), sent + [p.B()]);
    es := DuplicateAck(p.key, es, p.iss, p.SeqD(), p.SeqB(), 0, [p.B(), p.C()], [p.d], p.Taken(), sent + [p.B()] + [p.C()]);
    es := DuplicateAck(p.key, es, p.iss, p.SeqD(), p.SeqB(), 1, [p.B(), p.C()], [p.d], p.Taken(), sent + [p.B()] + [p.C()]);
  }

  /** Every plan can be carried out up to the second go-back, and the run is safe so far. */
  lemma Load(p: Plan) returns (es: seq<Event>)
    ensures Reaches(p.key, es, Loaded(p))
  {
    hide Reaches;
    es := Opening(p);
    es := FirstSends(p, es);
    es := FirstGoBack(p, es);
    es := SecondSends(p, es);
  }

  // ---------------------------------------------------------------- exactness of the guard

  /** A world about to go back with these numbers of bytes waiting and in the later packets. */
  predicate Shaped(w: World, waiting: nat, later: nat)
  {
    && w.state.Connected? && GoesBack(w.state.conn)
    && |Flatten(w.state.conn.toSend)| == waiting && |Flatten(Payloads(w.state.conn.unacked[1..]))| == later
  }

  /** For these numbers of bytes, every safe run of the key that is about to go back stays in stream order
      when it does. */
  ghost predicate CountsSuffice(key: TcpKey, iss: u32, waiting: nat, later: nat)
  {
    forall es: seq<Event> :: SafeRun(key, es) && Run(key, es).iss == iss && Shaped(Run(key, es), waiting, later) ==>
      InOrder(GoBack(Run(key, es).state.conn), Run(key, es).taken)
  }

  function Swapping(key: TcpKey, iss: u32, waiting: nat, later: nat): Plan
  {
    Plan(key, iss, 9, [], seq(later, _ => 1), seq(waiting, _ => 0))
  }

  lemma SwappingLoaded(key: TcpKey, iss: u32, waiting: nat, later: nat)
    requires waiting > 0 && later > 0
    ensures
      var w := Loaded(Swapping(key, iss, waiting, later));
      Shaped(w, waiting, later) && w.iss == iss && !Commutes(w.state.conn)
  {
    var p := Swapping(key, iss, waiting, later);
    var c := Loaded(p).state.conn;
    assert Flatten(c.toSend) == p.d;
    assert Payloads(c.unacked[1..]) == [p.c] && Flatten([p.c]) == p.c;
    assert (p.c + p.d)[0] != (p.d + p.c)[0];
  }

  lemma ShapedCommutes(w: World, waiting: nat, later: nat)
    requires Shaped(w, waiting, later) && (waiting == 0 || later == 0)
    ensures Commutes(w.state.conn)
  {
    var c := w.state.conn;
    assert Flatten(c.toSend) == [] || Flatten(Payloads(c.unacked[1..])) == [];
  }

  lemma SafeRunInOrder(key: TcpKey, es: seq<Event>)
    requires SafeRun(key, es) && Run(key, es).state.Connected? && GoesBack(Run(key, es).state.conn)
    ensures InOrder(GoBack(Run(key, es).state.conn), Run(key, es).taken) <==> Commutes(Run(key, es).state.conn)
  {
    hide Run, SafeRun, InOrder, Commutes, GoBack;
    SentStream(key, es);
    GoBackInOrder(Run(key, es).state.conn, Run(key, es).taken);
  }

  /** Judged by the numbers of bytes alone, a go-back keeps every safe run in stream order if and only if
      nothing is waiting or nothing comes later. */
  lemma GuardExact(key: TcpKey, iss: u32, waiting: nat, later: nat)
    ensures CountsSuffice(key, iss, waiting, later) <==> waiting == 0 || later == 0
  {
    hide Run, SafeRun, InOrder, Commutes, GoBack, Loaded;
    if waiting == 0 || later == 0 {
      forall es: seq<Event> | SafeRun(key, es) && Run(key, es).iss == iss && Shaped(Run(key, es), waiting, later)
        ensures InOrder(GoBack(Run(key, es).state.conn), Run(key, es).taken)
      {
        ShapedCommutes(Run(key, es), waiting, later);
        SafeRunInOrder(key, es);
      }
    } else {
      SwappingLoaded(key, iss, waiting, later);
      var es := Load(Swapping(key, iss, waiting, later));
      SafeRunInOrder(key, es);
    }
  }

  // ---------------------------------------------------------------- the wrong segment

  /** The second go-back puts the third write behind the fourth, which goes out in its place. */
  lemma SecondGoBack(p: Plan, es0: seq<Event>) returns (es: seq<Event>)
    requires Run(p.key, es0) == Loaded(p)
    ensures
      var w := Run(p.key, es);
      w.taken == p.Taken() && w.iss == p.iss && Packet(p.key, p.SeqC(), p.d) in w.sent
  {
    hide Run, Handle, HandleConnected;
    var sent, q := Loaded(p).sent, Packet(p.key, p.SeqC(), p.d);
    assert Payloads([p.B(), p.C()][1..]) == [p.c];
    es := Extend(p.key, es0, POLL, Snapshot(p.iss, p.SeqC(), p.SeqB(), 2, [], [p.d, p.c], [], p.Taken(), sent + [p.B()]));
    es := Extend(p.key, es, POLL,
                 Snapshot(p.iss, Add32(p.SeqC(), |p.d|), p.SeqB(), 2, [q], [p.c], [], p.Taken(), sent + [p.B()] + [q]));
  }

  /** Sent-stream consistency fails in general: after this run the byte 4 was sent with the
      sequence number of the byte 3. */
  lemma ReorderExample(key: TcpKey) returns (es: seq<Event>)
    ensures
      var w := Run(key, es);
      && w.taken == [1, 2, 3, 4] && w.iss == 1000
      && Packet(key, 1003, [4]) in w.sent && !Carries(Packet(key, 1003, [4]), w.iss, w.taken)
  {
    hide Run, SafeRun, Loaded, Carries;
    var p := Plan(key, 1000, 1, [2], [3], [4]);
    assert p.Taken() == [1, 2, 3, 4] && p.SeqC() == 1003;
    es := Load(p);
    es := SecondGoBack(p, es);
    Misplaced(Packet(key, 1003, [4]));
  }

  lemma Misplaced(p: Params)
    requires p.seqNum == 1003 && p.payload == [4]
    ensures !Carries(p, 1000, [1, 2, 3, 4])
  {
    CarriesOffset(p, 1000, [1, 2, 3, 4]);
    assert Offset(p, 1000) == 2 && [1, 2, 3, 4][2..3] == [3];
  }
}
