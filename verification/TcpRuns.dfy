/**
  Whole runs of one TCP key: frames arriving in any order, polls and application writes, with the
  history of what was taken from the application, delivered to it and sent.
 */
module TcpRuns {
  import opened Memory
  import opened Checksum
  import opened TcpFrame
  import opened TcpModel

  datatype Event =
    | Recv(f: Fields, env: Env)
    | PollOut(rxReady: bool, now: nat, period: nat)
    | Write(data: seq<byte>)

  /** The state of the key and its history: connections handed to the listener, the initial send
      sequence number, bytes taken from and delivered to the application, data segments sent. */
  datatype World = World(
    state: State, accepted: nat, iss: u32, taken: seq<byte>, delivered: seq<byte>, sent: seq<Params>)

  const START: World := World(Uninit, 0, 0, [], [], [])

  function Step(key: TcpKey, w: World, e: Event): World
  {
    match e
    case Recv(f, env) =>
      var h := Handle(key, w.state, f, env);
      w.(state := h.state,
         accepted := w.accepted + if h.accepted then 1 else 0,
         iss := if h.state.SynAckSent? then h.state.seqNum else w.iss,
         delivered := if w.state.Connected? && h.response.Some? then w.delivered + f.payload else w.delivered)
    case PollOut(rxReady, now, period) =>
      var (s', out) := Poll(key, w.state, rxReady, now, period);
      if w.state.Connected? && out.Some? then
        var c := w.state.conn;
        var takes := !GoesBack(c) && c.toSend == [];
        w.(state := s', sent := w.sent + [out.value], taken := if takes then w.taken + out.value.payload else w.taken)
      else w.(state := s')
    case Write(data) =>
      if w.state.Connected?
      then w.(state := Connected(w.state.conn.(outbox := w.state.conn.outbox + [data])))
      else w
  }

  function Run(key: TcpKey, es: seq<Event>): World
  {
    if es == [] then START else Step(key, Run(key, es[..|es| - 1]), es[|es| - 1])
  }

  // ---------------------------------------------------------------- sequence-space conservation

  function Flatten(ss: seq<seq<byte>>): seq<byte>
  {
    if ss == [] then [] else ss[0] + Flatten(ss[1..])
  }

  lemma {:induction false} FlattenConcat(ss: seq<seq<byte>>, ts: seq<seq<byte>>)
    ensures Flatten(ss + ts) == Flatten(ss) + Flatten(ts)
  {
    if ss == [] {
      assert ss + ts == ts;
    } else {
      var tail := ss[1..] + ts;
      FlattenConcat(ss[1..], ts);
      assert ss + ts == [ss[0]] + tail;
      assert Flatten([ss[0]] + tail) == ss[0] + Flatten(tail);
    }
  }

  lemma PayloadsConcat(ps: seq<Params>, qs: seq<Params>)
    ensures Payloads(ps + qs) == Payloads(ps) + Payloads(qs)
  {
  }

  lemma PayloadsTail(ps: seq<Params>)
    requires ps != []
    ensures Payloads(ps) == [ps[0].payload] + Payloads(ps[1..])
    ensures Flatten(Payloads(ps)) == ps[0].payload + Flatten(Payloads(ps[1..]))
  {
    assert Payloads(ps)[1..] == Payloads(ps[1..]);
  }

  /** The sequence ranges of the packets follow each other without gap and end at `end`. */
  ghost predicate Contiguous(ps: seq<Params>, end: u32)
  {
    ps == []
    || (Add32(ps[0].seqNum, |ps[0].payload|) == (if |ps| > 1 then ps[1].seqNum else end) && Contiguous(ps[1..], end))
  }

  lemma {:induction false} ContiguousSnoc(ps: seq<Params>, end: u32, p: Params)
    requires Contiguous(ps, end) && p.seqNum == end
    ensures Contiguous(ps + [p], Add32(end, |p.payload|))
  {
    if ps != [] {
      ContiguousSnoc(ps[1..], end, p);
      assert (ps + [p])[1..] == ps[1..] + [p];
    }
  }

  lemma AddAssociates(a: int, b: int, c: int)
    ensures Add32(Add32(a, b), c) == Add32(a, b + c)
  {
  }

  lemma CancelAdd(a: u32, b: int, c: int, d: int)
    requires Add32(a, b) == Add32(c, d)
    ensures a == Add32(c, d - b)
  {
  }

  lemma {:induction false} ContiguousLength(ps: seq<Params>, end: u32)
    requires ps != [] && Contiguous(ps, end)
    ensures Add32(ps[0].seqNum, |Flatten(Payloads(ps))|) == end
  {
    var rest := ps[1..];
    PayloadsTail(ps);
    if rest == [] {
      assert Payloads(rest) == [];
    } else {
      ContiguousLength(rest, end);
      AddAssociates(ps[0].seqNum, |ps[0].payload|, |Flatten(Payloads(rest))|);
    }
  }

  /** Every byte taken from the application is either below `seqNum` or waiting in `toSend`, and
      the unacknowledged packets end at `seqNum`. */
  ghost predicate Conserved(c: Conn, iss: u32, taken: seq<byte>)
  {
    && Contiguous(c.unacked, c.seqNum)
    && Add32(c.seqNum, |Flatten(c.toSend)|) == Add32(iss + 1, |taken|)
  }

  ghost predicate Inv(w: World)
  {
    match w.state
    case Uninit => w == START.(iss := w.iss)
    case SynAckSent(seqNum, _, _, _) => w == START.(state := w.state, iss := seqNum)
    case Connected(c) => w.accepted == 1 && Conserved(c, w.iss, w.taken)
  }

  lemma GoBackConserves(c: Conn, iss: u32, taken: seq<byte>)
    requires Conserved(c, iss, taken) && c.unacked != []
    ensures Conserved(GoBack(c), iss, taken)
  {
    var p, rest := c.unacked[0], c.unacked[1..];
    var next := Add32(p.seqNum, |p.payload|);
    FlattenConcat(c.toSend, Payloads(rest));
    var bytes := |Flatten(Payloads(rest))|;
    assert Add32(next, bytes) == c.seqNum by {
      if rest == [] {
        assert Payloads(rest) == [];
      } else {
        ContiguousLength(rest, c.seqNum);
      }
    }
    AddAssociates(next, bytes, |Flatten(c.toSend)|);
  }

  lemma PushConserves(key: TcpKey, c: Conn, data: seq<byte>, iss: u32, taken: seq<byte>)
    requires Contiguous(c.unacked, c.seqNum)
    requires Add32(c.seqNum, |data| + |Flatten(c.toSend)|) == Add32(iss + 1, |taken|)
    ensures Conserved(Push(key, c, data), iss, taken)
  {
    AddAssociates(c.seqNum, |data|, |Flatten(c.toSend)|);
    ContiguousSnoc(c.unacked, c.seqNum, PushParams(key, c, data));
  }

  lemma PollConserves(key: TcpKey, w: World, e: Event)
    requires Inv(w) && e.PollOut?
    ensures Inv(Step(key, w, e))
  {
    if w.state.Connected? {
      var c := w.state.conn;
      if GoesBack(c) {
        GoBackConserves(c, w.iss, w.taken);
      } else if c.toSend != [] {
        PushConserves(key, c.(toSend := c.toSend[1..]), c.toSend[0], w.iss, w.taken);
      } else if e.rxReady && c.outbox != [] {
        var data := c.outbox[0];
        AddAssociates(c.seqNum, 0, |data|);
        AddAssociates(w.iss + 1, |w.taken|, |data|);
        PushConserves(key, c.(outbox := c.outbox[1..]), data, w.iss, w.taken + data);
      }
    }
  }

  lemma RecvConserves(key: TcpKey, w: World, e: Event)
    requires Inv(w) && e.Recv?
    ensures Inv(Step(key, w, e))
  {
    var h := Handle(key, w.state, e.f, e.env);
    match w.state
    case Uninit =>
    case SynAckSent(seqNum, _, _, _) =>
      if e.f.flags.syn {
        assert h == Handle(key, Uninit, e.f, e.env);
      } else if h.accepted {
        AddAssociates(seqNum, 1, 0);
      }
    case Connected(c) =>
      assert h.state.conn == HandleConnected(key, c, e.f).0;
  }

  /** Sequence-space conservation and the handshake count hold in every reachable state. */
  lemma {:induction false} RunConserves(key: TcpKey, es: seq<Event>)
    ensures Inv(Run(key, es))
  {
    if es != [] {
      var w, e := Run(key, es[..|es| - 1]), es[|es| - 1];
      RunConserves(key, es[..|es| - 1]);
      match e
      case Recv(_, _) => RecvConserves(key, w, e);
      case PollOut(_, _, _) => PollConserves(key, w, e);
      case Write(_) =>
    }
  }
}
