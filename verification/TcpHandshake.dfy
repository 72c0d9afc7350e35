/**
  The answer to a SYN: what it looks like on the wire, and when it is sent again while the handshake is
  pending.
 */
module TcpHandshake {
  import opened Options
  import opened TcpFrame
  import opened FrameBytes
  import opened TcpModel
  import opened TcpRuns
  import opened TcpPeer

  /** A SYN on a key that is not connected is answered with SYN and ACK and no other flag, the next
      sequence number acknowledged, the ports exchanged, no data, and the flag byte 0x12. */
  lemma SynAnswer(key: TcpKey, s: State, f: Fields, env: Env)
    requires !s.Connected? && f.flags.syn && key.localPort == f.destPort && key.remotePort == f.sourcePort
    ensures Handle(key, s, f, env).response.Some?
    ensures
      var p := Handle(key, s, f, env).response.value;
      var t := ParseTcp(Frame(p));
      && p.sourceAddress == key.localIp && p.destAddress == key.remoteIp
      && |Frame(p)| == 20 && Frame(p)[13] == 0x12 && t.Ok?
      && t.value.flags == Flags(false, false, false, true, false, false, true, false)
      && t.value.seqNum == env.iss && t.value.ackNum == (f.seqNum + 1) % 0x1_0000_0000
      && t.value.sourcePort == f.destPort && t.value.destPort == f.sourcePort
      && t.value.windowSize == f.windowSize && t.value.urgentPtr == 0 && t.value.payload == []
  {
    hide Frame, ParseTcp;
    SynRestarts(key, s, f, env);
    var p := Handle(key, s, f, env).response.value;
    FrameRoundTrip(p);
    TcpFlagBits(p);
    TcpBytes(p);
  }

  // ---------------------------------------------------------------- retransmission

  /** Event `i` is the latest SYN of the run. */
  predicate LatestSyn(es: seq<Event>, i: nat)
  {
    && i < |es| && es[i].Recv? && es[i].f.flags.syn
    && forall j :: i < j < |es| ==> !(es[j].Recv? && es[j].f.flags.syn)
  }

  /** What event `i` was answered with. */
  function AnswerAt(key: TcpKey, es: seq<Event>, i: nat): Option<Params>
    requires i < |es| && es[i].Recv?
  {
    Handle(key, Run(key, es[..i]).state, es[i].f, es[i].env).response
  }

  /** What a poll after the run sends. */
  function PollSends(key: TcpKey, es: seq<Event>, e: Event): Option<Params>
    requires e.PollOut?
  {
    Poll(key, Run(key, es).state, e.rxReady, e.now, e.period).1
  }

  /** The timeout set when event `i` was answered, moved on by the period of every poll that has sent
      something since. */
  function Deadline(key: TcpKey, es: seq<Event>, i: nat): nat
    requires i < |es| && es[i].Recv?
    decreases |es|
  {
    var prev, e := es[..|es| - 1], es[|es| - 1];
    if i == |prev| then e.env.timeout
    else Deadline(key, prev, i) + if e.PollOut? && PollSends(key, prev, e).Some? then e.period else 0
  }

  /** The pending handshake answers the latest SYN and waits for its deadline. */
  ghost predicate PendingSince(key: TcpKey, es: seq<Event>, i: nat)
  {
    && LatestSyn(es, i) && Run(key, es).state.SynAckSent?
    && Run(key, es).state.timeout == Deadline(key, es, i)
    && AnswerAt(key, es, i) == Some(Run(key, es).state.sentFrame)
  }

  // A SYN while no connection exists.
  lemma SynStarts(key: TcpKey, es: seq<Event>)
    requires es != [] && es[|es| - 1].Recv? && es[|es| - 1].f.flags.syn && !Run(key, es[..|es| - 1]).state.Connected?
    ensures PendingSince(key, es, |es| - 1)
  {
    var v, e := Run(key, es[..|es| - 1]), es[|es| - 1];
    SynRestarts(key, v.state, e.f, e.env);
    SynTimeout(key, v.state, e.f, e.env);
  }

  lemma SynTimeout(key: TcpKey, s: State, f: Fields, env: Env)
    requires !s.Connected? && f.flags.syn
    ensures Handle(key, s, f, env).state.SynAckSent? && Handle(key, s, f, env).state.timeout == env.timeout
  {
    if s.SynAckSent? {
      assert Handle(key, s, f, env) == Handle(key, Uninit, f, env);
    }
  }

  lemma PendingStep(key: TcpKey, w: World, e: Event)
    requires w.state.SynAckSent? && Step(key, w, e).state.SynAckSent? && !(e.Recv? && e.f.flags.syn)
    ensures
      var s, t := w.state, Step(key, w, e).state;
      var sends := e.PollOut? && Poll(key, s, e.rxReady, e.now, e.period).1.Some?;
      t.sentFrame == s.sentFrame && t.timeout == s.timeout + if sends then e.period else 0
  {
  }

  // Any other event that leaves the handshake pending.
  lemma StillPending(key: TcpKey, es: seq<Event>, i: nat)
    requires es != [] && PendingSince(key, es[..|es| - 1], i) && Run(key, es).state.SynAckSent?
    requires !(es[|es| - 1].Recv? && es[|es| - 1].f.flags.syn)
    ensures PendingSince(key, es, i)
  {
    hide Step, Poll, Handle, Deadline, AnswerAt;
    var prev, e := es[..|es| - 1], es[|es| - 1];
    assert Run(key, es) == Step(key, Run(key, prev), e);
    hide Run;
    PendingStep(key, Run(key, prev), e);
    SameAnswer(key, es, i);
    DeadlineStep(key, es, i);
  }

  lemma SameAnswer(key: TcpKey, es: seq<Event>, i: nat)
    requires es != [] && i < |es| - 1 && es[i].Recv?
    ensures AnswerAt(key, es[..|es| - 1], i) == AnswerAt(key, es, i)
  {
    assert es[..|es| - 1][..i] == es[..i];
  }

  lemma DeadlineStep(key: TcpKey, es: seq<Event>, i: nat)
    requires i < |es| - 1 && es[i].Recv?
    ensures
      var prev, e := es[..|es| - 1], es[|es| - 1];
      Deadline(key, es, i) == Deadline(key, prev, i) + if e.PollOut? && PollSends(key, prev, e).Some? then e.period else 0
  {
    hide Run, Poll;
  }

  /** A pending handshake always answers the latest SYN. */
  lemma {:induction false} PendingAnswersLatest(key: TcpKey, es: seq<Event>) returns (i: nat)
    requires Run(key, es).state.SynAckSent?
    ensures PendingSince(key, es, i)
  {
    hide PendingSince, Step;
    var prev, e := es[..|es| - 1], es[|es| - 1];
    ConnectedStays(key, Run(key, prev), e);
    if e.Recv? && e.f.flags.syn {
      i := |prev|;
      SynStarts(key, es);
    } else {
      i := PendingAnswersLatest(key, prev);
      StillPending(key, es, i);
    }
  }

  /** Retransmission is exact, over every run: while the handshake is pending a poll sends something if and
      only if its time is later than the timeout of the latest SYN plus one period for every poll that
      has sent something since; and what it sends is the answer to that SYN. */
  lemma Retransmission(key: TcpKey, es: seq<Event>, e: Event) returns (i: nat)
    requires Run(key, es).state.SynAckSent? && e.PollOut?
    ensures LatestSyn(es, i)
    ensures PollSends(key, es, e).Some? <==> e.now > Deadline(key, es, i)
    ensures PollSends(key, es, e).Some? ==> PollSends(key, es, e) == AnswerAt(key, es, i)
    ensures Run(key, es + [e]).state.SynAckSent?
  {
    hide Deadline;
    i := PendingAnswersLatest(key, es);
    assert (es + [e])[..|es|] == es;
  }

  /** With one period for all polls the deadline is reached by counting. */
  function Resends(key: TcpKey, es: seq<Event>, i: nat): nat
    requires i < |es|
    decreases |es|
  {
    var prev, e := es[..|es| - 1], es[|es| - 1];
    if i == |prev| then 0 else Resends(key, prev, i) + if e.PollOut? && PollSends(key, prev, e).Some? then 1 else 0
  }

  /** With one period for all polls: while the handshake is pending and has been answered `k` times again, a
      poll answers once more if and only if its time is later than the timeout plus `k` periods. */
  lemma RetransmissionTimes(key: TcpKey, es: seq<Event>, e: Event, period: nat) returns (i: nat)
    requires Run(key, es).state.SynAckSent? && e.PollOut?
    requires forall j :: 0 <= j < |es| && es[j].PollOut? ==> es[j].period == period
    ensures LatestSyn(es, i)
    ensures PollSends(key, es, e).Some? <==> e.now > es[i].env.timeout + Resends(key, es, i) * period
  {
    hide Run, Deadline, Resends, PollSends;
    i := Retransmission(key, es, e);
    DeadlineCounts(key, es, i, period);
  }

  lemma {:induction false} DeadlineCounts(key: TcpKey, es: seq<Event>, i: nat, period: nat)
    requires i < |es| && es[i].Recv? && forall j :: i < j < |es| && es[j].PollOut? ==> es[j].period == period
    ensures Deadline(key, es, i) == es[i].env.timeout + Resends(key, es, i) * period
    decreases |es|
  {
    hide Run, Poll;
    var prev, e := es[..|es| - 1], es[|es| - 1];
    if i < |prev| {
      DeadlineCounts(key, prev, i, period);
      var k := Resends(key, prev, i);
      assert (k + 1) * period == k * period + period;
    }
  }
}
