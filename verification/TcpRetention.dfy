/**
  Which bytes of the stream the sender still holds.

  A byte that the peer has not acknowledged can be sent again only while it is in the unacknowledged
  queue or in the send queue.  The theorems say exactly which runs keep every such byte, and that
  what has been given up is never sent again.
 */
module TcpRetention {
  import opened Memory
  import opened Checksum
  import opened TcpFrame
  import opened TcpModel
  import opened TcpRuns
  import opened TcpStream

  /** The unacknowledged bytes followed by the waiting ones. */
  function HeldData(c: Conn): seq<byte>
  {
    Flatten(Payloads(c.unacked)) + Flatten(c.toSend)
  }

  /** The offset in the stream of the first byte still held. */
  function FirstHeld(c: Conn, taken: seq<byte>): int
  {
    |taken| - |HeldData(c)|
  }

  function Unacknowledged(taken: seq<byte>, acked: nat): seq<byte>
  {
    if acked <= |taken| then taken[acked..] else []
  }

  /** Every byte of the stream from offset `acked` on is held, and in order. */
  ghost predicate Holds(c: Conn, taken: seq<byte>, acked: nat)
  {
    Suffix(Unacknowledged(taken, acked), HeldData(c))
  }

  /** For queues in stream order this is a matter of where they begin. */
  lemma HoldsIff(c: Conn, taken: seq<byte>, acked: nat)
    requires InOrder(c, taken)
    ensures 0 <= FirstHeld(c, taken)
    ensures Holds(c, taken, acked) <==> FirstHeld(c, taken) <= acked
  {
    var held := HeldData(c);
    if FirstHeld(c, taken) <= acked <= |taken| {
      assert held[|held| - |taken[acked..]|..] == taken[acked..];
    }
  }

  /** The stream offset that an acknowledgement number stands for, within the first 2^32 bytes. */
  function AckOffset(ackNum: u32, iss: u32): nat
  {
    (ackNum - iss - 1) % 0x1_0000_0000
  }

  /** The acknowledged prefix after an acknowledgement number: it grows if the number, counted from the
      end of the prefix, does not go beyond the bytes sent so far.  Every other number, one that was
      never sent or an old one, acknowledges nothing (section 3.10.7.4 of RFC 9293). */
  function NewAcked(ackNum: u32, iss: u32, taken: seq<byte>, acked: nat): (r: nat)
    ensures acked <= r && (r == acked || r <= |taken|)
  {
    var more := (ackNum - iss - 1 - acked) % 0x1_0000_0000;
    if acked + more <= |taken| then acked + more else acked
  }

  /** For streams under 2^32 bytes: the offset of the number, if it was sent and is the highest yet. */
  lemma NewAckedShort(ackNum: u32, iss: u32, taken: seq<byte>, acked: nat)
    requires acked <= |taken| < 0x1_0000_0000
    ensures NewAcked(ackNum, iss, taken, acked)
         == if acked < AckOffset(ackNum, iss) <= |taken| then AckOffset(ackNum, iss) else acked
  {
  }

  lemma NewAckedReaches(ackNum: u32, iss: u32, taken: seq<byte>, acked: nat)
    requires acked <= |taken| && AckOffset(ackNum, iss) <= |taken|
    ensures AckOffset(ackNum, iss) <= NewAcked(ackNum, iss, taken, acked)
  {
  }

  // ---------------------------------------------------------------- one step

  /** The frame does not make the sender drop an oldest packet that ends beyond the acknowledged
      bytes. */
  predicate AckKeeps(c: Conn, ackNum: u32, iss: u32, taken: seq<byte>, acked: nat)
  {
    || c.unacked == [] || ackNum <= c.unacked[0].seqNum
    || FirstHeld(c, taken) + |c.unacked[0].payload| <= NewAcked(ackNum, iss, taken, acked)
  }

  lemma DropOldest(c: Conn)
    requires c.unacked != []
    ensures HeldData(c) == c.unacked[0].payload + HeldData(c.(unacked := c.unacked[1..]))
  {
    PayloadsTail(c.unacked);
  }

  lemma FirstHeldAfterFrame(key: TcpKey, c: Conn, f: Fields, taken: seq<byte>)
    ensures
      var c' := HandleConnected(key, c, f).0;
      FirstHeld(c', taken) == FirstHeld(c, taken)
        + if c.outgoingAck == f.seqNum && c.unacked != [] && c.unacked[0].seqNum < f.ackNum then |c.unacked[0].payload| else 0
  {
    if c.unacked != [] {
      DropOldest(c);
    }
  }

  /** An accepted frame leaves every unacknowledged byte held if and only if `AckKeeps`. */
  lemma RecvRetention(key: TcpKey, c: Conn, f: Fields, iss: u32, taken: seq<byte>, acked: nat)
    requires InOrder(c, taken) && Holds(c, taken, acked) && c.outgoingAck == f.seqNum
    ensures Holds(HandleConnected(key, c, f).0, taken, NewAcked(f.ackNum, iss, taken, acked))
            <==> AckKeeps(c, f.ackNum, iss, taken, acked)
  {
    hide HandleConnected, HeldData, InOrder, Holds, NewAcked;
    RecvInOrder(key, c, f, taken);
    HoldsIff(c, taken, acked);
    HoldsIff(HandleConnected(key, c, f).0, taken, NewAcked(f.ackNum, iss, taken, acked));
    FirstHeldAfterFrame(key, c, f, taken);
  }

  lemma FirstHeldAfterGoBack(c: Conn, taken: seq<byte>)
    requires c.unacked != []
    ensures FirstHeld(GoBack(c), taken) == FirstHeld(c, taken) + |c.unacked[0].payload|
  {
    FlattenConcat(c.toSend, Payloads(c.unacked[1..]));
    PayloadsTail(c.unacked);
    assert Payloads([]) == [];
  }

  /** A go-back that keeps the stream in order gives up exactly the packet it retransmits: every
      unacknowledged byte stays held if and only if that packet was acknowledged already. */
  lemma GoBackRetention(c: Conn, taken: seq<byte>, acked: nat)
    requires InOrder(c, taken) && Holds(c, taken, acked) && c.unacked != [] && Commutes(c)
    ensures Holds(GoBack(c), taken, acked) <==> FirstHeld(c, taken) + |c.unacked[0].payload| <= acked
  {
    hide HeldData, Holds, InOrder, Commutes, GoBack;
    GoBackInOrder(c, taken);
    FirstHeldAfterGoBack(c, taken);
    HoldsIff(c, taken, acked);
    HoldsIff(GoBack(c), taken, acked);
  }

  lemma PushHolds(key: TcpKey, c: Conn, data: seq<byte>)
    ensures |HeldData(Push(key, c, data))| == |HeldData(c)| + |data|
  {
    var p := PushParams(key, c, data);
    PayloadsConcat(c.unacked, [p]);
    assert Payloads([p]) == [data];
    FlattenConcat(Payloads(c.unacked), [data]);
    assert Flatten([data]) == data;
  }

  /** Sending moves bytes between the queues, or takes new ones. */
  lemma FirstHeldAfterPoll(key: TcpKey, w: World, e: Event)
    requires e.PollOut? && w.state.Connected? && !GoesBack(w.state.conn)
    ensures
      var w' := Step(key, w, e);
      w'.state.Connected? && FirstHeld(w'.state.conn, w'.taken) == FirstHeld(w.state.conn, w.taken)
  {
    var c := w.state.conn;
    if c.toSend != [] {
      PushHolds(key, c.(toSend := c.toSend[1..]), c.toSend[0]);
    } else if e.rxReady && c.outbox != [] {
      PushHolds(key, c.(outbox := c.outbox[1..]), c.outbox[0]);
    }
  }

  // ---------------------------------------------------------------- whole runs

  predicate Accepts(w: World, e: Event)
  {
    e.Recv? && w.state.Connected? && w.state.conn.outgoingAck == e.f.seqNum
  }

  function AckedAfter(w: World, e: Event, acked: nat): nat
  {
    if Accepts(w, e) then NewAcked(e.f.ackNum, w.iss, w.taken, acked) else acked
  }

  /** How much of the stream the accepted frames of the run have acknowledged. */
  function Acked(key: TcpKey, es: seq<Event>): nat
  {
    if es == [] then 0
    else AckedAfter(Run(key, es[..|es| - 1]), es[|es| - 1], Acked(key, es[..|es| - 1]))
  }

  /** Nothing is acknowledged that was not sent. */
  lemma {:induction false} AckedTaken(key: TcpKey, es: seq<Event>)
    ensures Acked(key, es) <= |Run(key, es).taken|
  {
    if es != [] {
      hide Step, NewAcked;
      var prev := es[..|es| - 1];
      AckedTaken(key, prev);
      TakenGrows(key, Run(key, prev), es[|es| - 1]);
      NewAckedBound(Run(key, prev), es[|es| - 1], Acked(key, prev));
    }
  }

  lemma NewAckedBound(w: World, e: Event, acked: nat)
    requires acked <= |w.taken|
    ensures acked <= AckedAfter(w, e, acked) <= |w.taken|
  {
  }

  /** Every byte beyond the acknowledged ones is in one of the two queues. */
  ghost predicate HoldsAt(w: World, acked: nat)
  {
    w.state.Connected? ==> Holds(w.state.conn, w.taken, acked)
  }

  /** The exact condition on a step: an accepted frame drops no packet beyond the acknowledged bytes,
      and a go-back retransmits a packet that was acknowledged. */
  predicate Keeps(w: World, e: Event, acked: nat)
  {
    && (Accepts(w, e) ==> AckKeeps(w.state.conn, e.f.ackNum, w.iss, w.taken, acked))
    && (e.PollOut? && w.state.Connected? && GoesBack(w.state.conn) ==>
          FirstHeld(w.state.conn, w.taken) + |w.state.conn.unacked[0].payload| <= acked)
  }

  lemma FrameRetention(key: TcpKey, w: World, e: Event, acked: nat)
    requires StreamInv(w) && e.Recv? && HoldsAt(w, acked)
    ensures HoldsAt(Step(key, w, e), AckedAfter(w, e, acked)) <==> Keeps(w, e, acked)
  {
    hide Handle, HandleConnected, Holds, AckKeeps, StreamInv;
    StreamInvMeans(w);
    RecvSentSame(key, w, e);
    if w.state.Connected? {
      if Accepts(w, e) {
        RecvRetention(key, w.state.conn, e.f, w.iss, w.taken, acked);
      } else {
        IgnoredFrame(key, w.state.conn, e.f);
      }
    } else if Step(key, w, e).state.Connected? {
      EmptyHolds(Step(key, w, e).state.conn, acked);
    }
  }

  lemma StreamInvMeans(w: World)
    requires StreamInv(w)
    ensures Inv(w) && (w.state.Connected? ==> InOrder(w.state.conn, w.taken))
  {
  }

  lemma IgnoredFrame(key: TcpKey, c: Conn, f: Fields)
    requires c.outgoingAck != f.seqNum
    ensures HandleConnected(key, c, f).0 == c
  {
  }

  lemma EmptyHolds(c: Conn, acked: nat)
    requires c.unacked == [] && c.toSend == []
    ensures Holds(c, [], acked)
  {
  }

  lemma PollRetention(key: TcpKey, w: World, e: Event, acked: nat)
    requires StreamInv(w) && e.PollOut? && SafePoll(w, e) && HoldsAt(w, acked)
    ensures HoldsAt(Step(key, w, e), acked) <==> Keeps(w, e, acked)
  {
    hide Holds, InOrder, Commutes, HeldData, GoBack, Push, Suffix, StreamInv;
    StreamInvMeans(w);
    if w.state.Connected? {
      var c, w' := w.state.conn, Step(key, w, e);
      if GoesBack(c) {
        GoBackRetention(c, w.taken, acked);
      } else {
        PollStream(key, w, e);
        StreamInvMeans(w');
        FirstHeldAfterPoll(key, w, e);
        HoldsIff(c, w.taken, acked);
        HoldsIff(w'.state.conn, w'.taken, acked);
      }
    }
  }

  lemma StepRetention(key: TcpKey, w: World, e: Event, acked: nat)
    requires StreamInv(w) && SafePoll(w, e) && HoldsAt(w, acked)
    ensures HoldsAt(Step(key, w, e), AckedAfter(w, e, acked)) <==> Keeps(w, e, acked)
  {
    match e
    case Recv(_, _) => FrameRetention(key, w, e, acked);
    case PollOut(_, _, _) => PollRetention(key, w, e, acked);
    case Write(_) =>
  }

  /** At every point of the run each byte that has not been acknowledged is held. */
  ghost predicate HoldsThroughout(key: TcpKey, es: seq<Event>)
  {
    HoldsAt(Run(key, es), Acked(key, es)) && (es != [] ==> HoldsThroughout(key, es[..|es| - 1]))
  }

  predicate KeepsThroughout(key: TcpKey, es: seq<Event>)
  {
    es != [] ==>
      var prev := es[..|es| - 1];
      Keeps(Run(key, prev), es[|es| - 1], Acked(key, prev)) && KeepsThroughout(key, prev)
  }

  /** Retention is exact over runs: a run whose go-backs keep the stream in order holds, at every
      point, each byte that has not been acknowledged, if and only if every step keeps. */
  lemma {:induction false} RetentionExact(key: TcpKey, es: seq<Event>)
    requires SafeRun(key, es)
    ensures HoldsThroughout(key, es) <==> KeepsThroughout(key, es)
  {
    hide StreamInv, SafePoll, HoldsAt, Keeps, Step, AckedAfter;
    if es == [] {
      StartHolds();
    } else {
      var prev, e := es[..|es| - 1], es[|es| - 1];
      SafeSnoc(key, es);
      RetentionExact(key, prev);
      SentStream(key, prev);
      if HoldsThroughout(key, prev) {
        StepRetention(key, Run(key, prev), e, Acked(key, prev));
      }
    }
  }

  lemma StartHolds()
    ensures HoldsAt(START, 0)
  {
  }

  // ---------------------------------------------------------------- orderly runs

  /** No go-back, and the acknowledgement number of an accepted frame does not lie strictly inside the
      oldest packet or beyond what was sent, unless it is too small a number to drop that packet. */
  predicate Orderly(w: World, e: Event)
  {
    w.state.Connected? ==>
      var c := w.state.conn;
      && (e.PollOut? ==> !GoesBack(c))
      && (Accepts(w, e) && c.unacked != [] ==>
            var o, a := FirstHeld(c, w.taken), AckOffset(e.f.ackNum, w.iss);
            a <= o || o + |c.unacked[0].payload| <= a <= |w.taken| || e.f.ackNum <= c.unacked[0].seqNum)
  }

  ghost predicate OrderlyRun(key: TcpKey, es: seq<Event>)
  {
    forall i :: 0 <= i < |es| ==> Orderly(Run(key, es[..i]), es[i])
  }

  /** The oldest held byte has not passed the point where sequence numbers wrap. */
  predicate BeforeWrap(w: World)
  {
    w.state.Connected? ==>
      0 <= FirstHeld(w.state.conn, w.taken) && Add32(w.iss, 1) + FirstHeld(w.state.conn, w.taken) < 0x1_0000_0000
  }

  lemma OldestSeq(c: Conn, iss: u32, taken: seq<byte>)
    requires Conserved(c, iss, taken) && c.unacked != []
    ensures c.unacked[0].seqNum == Add32(iss + 1, FirstHeld(c, taken))
  {
    var p, u, s := c.unacked[0], Flatten(Payloads(c.unacked)), Flatten(c.toSend);
    ContiguousLength(c.unacked, c.seqNum);
    AddAssociates(p.seqNum, |u|, |s|);
    CancelAdd(p.seqNum, |u| + |s|, iss + 1, |taken|);
  }

  // Before the wrap the comparison of sequence numbers is the comparison of offsets.
  lemma CompareBeforeWrap(iss: u32, o: nat, ackNum: u32)
    requires Add32(iss, 1) + o < 0x1_0000_0000 && Add32(iss + 1, o) < ackNum
    ensures o < AckOffset(ackNum, iss) && Add32(iss, 1) + AckOffset(ackNum, iss) < 0x1_0000_0000
  {
  }

  lemma OrderlyFrame(key: TcpKey, w: World, e: Event, acked: nat)
    requires Inv(w) && BeforeWrap(w) && Orderly(w, e) && Accepts(w, e) && acked <= |w.taken|
    ensures AckKeeps(w.state.conn, e.f.ackNum, w.iss, w.taken, acked) && BeforeWrap(Step(key, w, e))
  {
    hide HandleConnected, HeldData, AckOffset, NewAcked, Conserved;
    var c := w.state.conn;
    RecvSentSame(key, w, e);
    FirstHeldAfterFrame(key, c, e.f, w.taken);
    if c.unacked != [] && c.unacked[0].seqNum < e.f.ackNum {
      OldestSeq(c, w.iss, w.taken);
      CompareBeforeWrap(w.iss, FirstHeld(c, w.taken), e.f.ackNum);
      NewAckedReaches(e.f.ackNum, w.iss, w.taken, acked);
    }
  }

  lemma OrderlyStep(key: TcpKey, w: World, e: Event, acked: nat)
    requires Inv(w) && BeforeWrap(w) && Orderly(w, e) && acked <= |w.taken|
    ensures Keeps(w, e, acked) && BeforeWrap(Step(key, w, e))
  {
    hide Handle, HandleConnected, HeldData, AckKeeps, Conserved;
    match e
    case Recv(f, _) =>
      RecvSentSame(key, w, e);
      if Accepts(w, e) {
        OrderlyFrame(key, w, e, acked);
      } else if w.state.Connected? {
        IgnoredFrame(key, w.state.conn, f);
      } else if Step(key, w, e).state.Connected? {
        EmptyHeld(Step(key, w, e).state.conn);
      }
    case PollOut(_, _, _) =>
      if w.state.Connected? {
        FirstHeldAfterPoll(key, w, e);
        PollKeepsIss(key, w, e);
      }
    case Write(_) =>
      if w.state.Connected? {
        WriteHolds(w.state.conn, w.state.conn.outbox + [e.data]);
      }
  }

  lemma PollKeepsIss(key: TcpKey, w: World, e: Event)
    requires e.PollOut?
    ensures Step(key, w, e).iss == w.iss
  {
  }

  lemma EmptyHeld(c: Conn)
    requires c.unacked == [] && c.toSend == []
    ensures HeldData(c) == []
  {
  }

  lemma WriteHolds(c: Conn, outbox: seq<seq<byte>>)
    ensures HeldData(c.(outbox := outbox)) == HeldData(c)
  {
  }

  lemma OrderlyPrefix(key: TcpKey, es: seq<Event>)
    requires es != [] && OrderlyRun(key, es)
    ensures OrderlyRun(key, es[..|es| - 1]) && Orderly(Run(key, es[..|es| - 1]), es[|es| - 1])
  {
    var prev := es[..|es| - 1];
    forall i | 0 <= i < |prev|
      ensures Orderly(Run(key, prev[..i]), prev[i])
    {
      assert es[..i] == prev[..i] && Orderly(Run(key, es[..i]), es[i]);
    }
  }

  lemma {:induction false} OrderlyKeeps(key: TcpKey, es: seq<Event>)
    requires OrderlyRun(key, es)
    ensures KeepsThroughout(key, es) && BeforeWrap(Run(key, es))
  {
    hide Inv, BeforeWrap, Orderly, OrderlyRun, Keeps, Step;
    if es == [] {
      StartBeforeWrap();
    } else {
      var prev := es[..|es| - 1];
      OrderlyPrefix(key, es);
      OrderlyKeeps(key, prev);
      RunConserves(key, prev);
      AckedTaken(key, prev);
      OrderlyStep(key, Run(key, prev), es[|es| - 1], Acked(key, prev));
    }
  }

  lemma StartBeforeWrap()
    ensures BeforeWrap(START)
  {
  }

  lemma OrderlyIsSafe(key: TcpKey, es: seq<Event>)
    requires OrderlyRun(key, es)
    ensures SafeRun(key, es)
  {
    forall i | 0 <= i < |es|
      ensures SafePoll(Run(key, es[..i]), es[i])
    {
      assert Orderly(Run(key, es[..i]), es[i]);
    }
  }

  /** In every run without go-backs and without acknowledgement numbers inside a packet or beyond what
      was sent, also across the wrap of the sequence numbers, the bytes of the stream that have not
      been acknowledged are the end of the unacknowledged and the send queue. */
  lemma NothingForgotten(key: TcpKey, es: seq<Event>)
    requires OrderlyRun(key, es)
    ensures
      var w := Run(key, es);
      && Acked(key, es) <= |w.taken|
      && (w.state.Connected? ==>
            Suffix(w.taken[Acked(key, es)..], Flatten(Payloads(w.state.conn.unacked)) + Flatten(w.state.conn.toSend)))
  {
    hide Suffix, SafeRun, OrderlyRun, Acked;
    AckedTaken(key, es);
    OrderlyIsSafe(key, es);
    OrderlyKeeps(key, es);
    RetentionExact(key, es);
    assert HoldsAt(Run(key, es), Acked(key, es));
  }

  // ---------------------------------------------------------------- what is given up stays given up

  predicate SentAt(p: Params, iss: u32, o: int)
  {
    p.seqNum == Add32(iss + 1, o)
  }

  /** The segment begins at a stream offset from `lo` on and ends by `hi`. */
  ghost predicate SentFrom(p: Params, iss: u32, lo: int, hi: nat)
  {
    exists o :: lo <= o && o + |p.payload| <= hi && SentAt(p, iss, o)
  }

  /** The first held byte never moves back, and what a step sends starts at it or later. */
  ghost predicate Forward(w: World, v: World)
  {
    && w.state.Connected? && v.state.Connected? && v.iss == w.iss && |w.taken| <= |v.taken|
    && FirstHeld(w.state.conn, w.taken) <= FirstHeld(v.state.conn, v.taken)
    && w.sent <= v.sent
    && forall i :: |w.sent| <= i < |v.sent| ==>
         SentFrom(v.sent[i], w.iss, FirstHeld(w.state.conn, w.taken), |v.taken|)
  }

  lemma ForwardTransitive(u: World, v: World, w: World)
    requires Forward(u, v) && Forward(v, w)
    ensures Forward(u, w)
  {
    forall i | |u.sent| <= i < |w.sent|
      ensures SentFrom(w.sent[i], u.iss, FirstHeld(u.state.conn, u.taken), |w.taken|)
    {
      if i < |v.sent| {
        assert w.sent[i] == v.sent[i];
        var o :| FirstHeld(u.state.conn, u.taken) <= o && o + |v.sent[i].payload| <= |v.taken|
                 && SentAt(v.sent[i], u.iss, o);
      } else {
        var o :| FirstHeld(v.state.conn, v.taken) <= o && o + |w.sent[i].payload| <= |w.taken|
                 && SentAt(w.sent[i], v.iss, o);
      }
    }
  }

  lemma GoBackForward(key: TcpKey, w: World, e: Event)
    requires Inv(w) && e.PollOut? && w.state.Connected? && GoesBack(w.state.conn)
    ensures Forward(w, Step(key, w, e))
  {
    hide Conserved, GoBack;
    var c, p := w.state.conn, w.state.conn.unacked[0];
    FirstHeldAfterGoBack(c, w.taken);
    OldestSeq(c, w.iss, w.taken);
    DropOldest(c);
    var o := FirstHeld(c, w.taken);
    assert o + |p.payload| <= |w.taken|;
    assert SentAt(p, w.iss, o) && SentFrom(p, w.iss, o, |w.taken|);
  }

  lemma SendForward(key: TcpKey, w: World, e: Event)
    requires Inv(w) && e.PollOut? && w.state.Connected? && !GoesBack(w.state.conn)
    ensures Forward(w, Step(key, w, e))
  {
    var c, taken := w.state.conn, w.taken;
    FirstHeldAfterPoll(key, w, e);
    if c.toSend != [] {
      var data, s := c.toSend[0], Flatten(c.toSend);
      CancelAdd(c.seqNum, |s|, w.iss + 1, |taken|);
      assert SentAt(PushParams(key, c, data), w.iss, |taken| - |s|);
      assert SentFrom(PushParams(key, c, data), w.iss, FirstHeld(c, taken), |taken|);
    } else if e.rxReady && c.outbox != [] {
      var data := c.outbox[0];
      CancelAdd(c.seqNum, 0, w.iss + 1, |taken|);
      assert SentAt(PushParams(key, c, data), w.iss, |taken|);
      assert SentFrom(PushParams(key, c, data), w.iss, FirstHeld(c, taken), |taken| + |data|);
    }
  }

  lemma StepForward(key: TcpKey, w: World, e: Event)
    requires Inv(w) && w.state.Connected?
    ensures Forward(w, Step(key, w, e))
  {
    match e
    case Recv(f, _) =>
      hide HandleConnected, HeldData;
      RecvSentSame(key, w, e);
      FirstHeldAfterFrame(key, w.state.conn, f, w.taken);
    case PollOut(_, _, _) =>
      if GoesBack(w.state.conn) {
        GoBackForward(key, w, e);
      } else {
        SendForward(key, w, e);
      }
    case Write(data) =>
      WriteHolds(w.state.conn, w.state.conn.outbox + [data]);
  }

  /** Over every continuation of every run with a connection. */
  lemma {:induction false} RunForward(key: TcpKey, es: seq<Event>, rest: seq<Event>)
    requires Run(key, es).state.Connected?
    ensures Forward(Run(key, es), Run(key, es + rest))
    decreases |rest|
  {
    hide Forward, Inv, Step;
    if rest == [] {
      assert es + rest == es;
      ForwardReflexive(Run(key, es));
    } else {
      var prev, all := rest[..|rest| - 1], es + rest;
      assert all[..|all| - 1] == es + prev && all[|all| - 1] == rest[|rest| - 1];
      RunForward(key, es, prev);
      ForwardConnected(Run(key, es), Run(key, es + prev));
      RunConserves(key, es + prev);
      StepForward(key, Run(key, es + prev), rest[|rest| - 1]);
      ForwardTransitive(Run(key, es), Run(key, es + prev), Run(key, all));
    }
  }

  lemma ForwardReflexive(w: World)
    requires w.state.Connected?
    ensures Forward(w, w)
  {
  }

  lemma ForwardConnected(w: World, v: World)
    requires Forward(w, v)
    ensures v.state.Connected?
  {
  }

  /** The queues never hold more than was taken. */
  lemma {:induction false} RunHeld(key: TcpKey, es: seq<Event>)
    ensures var w := Run(key, es); w.state.Connected? ==> 0 <= FirstHeld(w.state.conn, w.taken)
  {
    if es != [] {
      var prev, e := es[..|es| - 1], es[|es| - 1];
      var w := Run(key, prev);
      hide Step;
      RunHeld(key, prev);
      RunConserves(key, prev);
      if w.state.Connected? {
        StepForward(key, w, e);
      } else {
        ConnectionHeld(key, w, e);
      }
    }
  }

  lemma ConnectionHeld(key: TcpKey, w: World, e: Event)
    requires Inv(w) && !w.state.Connected?
    ensures var v := Step(key, w, e); v.state.Connected? ==> FirstHeld(v.state.conn, v.taken) == 0
  {
    if e.Recv? {
      RecvSentSame(key, w, e);
      if Step(key, w, e).state.Connected? {
        EmptyHeld(Step(key, w, e).state.conn);
      }
    }
  }

  /** A second loss is never repaired: once a go-back has retransmitted a packet, no later segment of
      any continuation carries a byte of it, for streams under 2^32 bytes. */
  lemma GivenUpForever(key: TcpKey, es: seq<Event>, poll: Event, rest: seq<Event>)
    requires poll.PollOut? && Run(key, es).state.Connected? && GoesBack(Run(key, es).state.conn)
    requires |Run(key, es + [poll] + rest).taken| < 0x1_0000_0000
    ensures
      var w, v, p := Run(key, es), Run(key, es + [poll] + rest), Run(key, es).state.conn.unacked[0];
      && |w.sent| < |v.sent| && v.sent[|w.sent|] == p
      && forall i :: |w.sent| < i < |v.sent| ==> Offset(p, w.iss) + |p.payload| <= Offset(v.sent[i], w.iss)
  {
    hide GoBack, Conserved;
    var w, u, v := Run(key, es), Run(key, es + [poll]), Run(key, es + [poll] + rest);
    var p := w.state.conn.unacked[0];
    assert (es + [poll])[..|es|] == es && u == Step(key, w, poll);
    assert u.sent == w.sent + [p] && u.state == Connected(GoBack(w.state.conn));
    RunHeld(key, es);
    RunConserves(key, es);
    FirstHeldAfterGoBack(w.state.conn, w.taken);
    RunForward(key, es + [poll], rest);
    OldestOffset(w.state.conn, w.iss, w.taken, |v.taken|);
    forall i | |w.sent| < i < |v.sent|
      ensures Offset(p, w.iss) + |p.payload| <= Offset(v.sent[i], w.iss)
    {
      SentFromOffset(v.sent[i], w.iss, FirstHeld(u.state.conn, u.taken), |v.taken|);
    }
  }

  lemma OldestOffset(c: Conn, iss: u32, taken: seq<byte>, limit: nat)
    requires Conserved(c, iss, taken) && c.unacked != [] && 0 <= FirstHeld(c, taken) && |taken| <= limit < 0x1_0000_0000
    ensures Offset(c.unacked[0], iss) == FirstHeld(c, taken)
  {
    OldestSeq(c, iss, taken);
    OffsetOf(c.unacked[0], iss, FirstHeld(c, taken));
  }

  lemma SentFromOffset(p: Params, iss: u32, lo: int, hi: nat)
    requires 0 <= lo && hi < 0x1_0000_0000 && SentFrom(p, iss, lo, hi)
    ensures lo <= Offset(p, iss)
  {
    var o :| lo <= o && o + |p.payload| <= hi && SentAt(p, iss, o);
    OffsetOf(p, iss, o);
  }
}
