/**
  The TCP service with its state updated in place: connections whose fields and queues the frame
  handler and the poller change, and the table of keys.  Both are proved against module TcpModel.
 */
module Tcp {
  import opened Options
  import opened Memory
  import opened Checksum
  import opened Frames
  import opened TcpFrame
  import opened TcpModel

  /** `ConnectedState` */
  class Connection {
    var seqNum: u32
    var outgoingAck: u32
    var incomingAck: u32
    var windowSize: u16
    var dupAcks: byte
    var unacked: seq<Params>
    var toSend: seq<seq<byte>>
    var inbox: seq<seq<byte>>
    var outbox: seq<seq<byte>>

    ghost function View(): Conn
      reads this
    {
      Conn(seqNum, outgoingAck, incomingAck, windowSize, dupAcks, unacked, toSend, inbox, outbox)
    }

    constructor (seqNum: u32, outgoingAck: u32, incomingAck: u32, windowSize: u16)
      ensures View() == Conn(seqNum, outgoingAck, incomingAck, windowSize, 0, [], [], [], [])
    {
      this.seqNum, this.outgoingAck, this.incomingAck := seqNum, outgoingAck, incomingAck;
      this.windowSize, dupAcks := windowSize, 0;
      unacked, toSend, inbox, outbox := [], [], [], [];
    }

    /** The connected branch of `handle_frame`. */
    method HandleFrame(key: TcpKey, f: Fields) returns (response: Option<Params>)
      modifies this
      ensures (View(), response) == HandleConnected(key, old(View()), f)
    {
      if outgoingAck != f.seqNum {
        return None;
      }
      outgoingAck := Add32(f.seqNum, |f.payload|);
      if f.ackNum == incomingAck {
        if dupAcks < 255 {
          dupAcks := dupAcks + 1;
        }
      } else {
        dupAcks := 0;
      }
      incomingAck := f.ackNum;
      if unacked != [] {
        if unacked[0].seqNum < f.ackNum {
          unacked := unacked[1..];
        }
      }
      windowSize := f.windowSize;
      var reply := Response(key, seqNum, outgoingAck, ACK, f.windowSize);
      if f.flags.psh {
        inbox := inbox + [f.payload];
        return Some(reply);
      }
      return None;
    }

    /** `generate_tcp_push` */
    method GenerateTcpPush(key: TcpKey, data: seq<byte>) returns (p: Params)
      modifies this`seqNum
      ensures p == PushParams(key, old(View()), data) && seqNum == Add32(old(seqNum), |data|)
    {
      p := Params(key.localIp, key.remoteIp, key.localPort, key.remotePort, seqNum, outgoingAck, ACK, 512, 0, data);
      seqNum := Add32(seqNum, |data|);
    }

    /** `write_request_to_outgoing_packet` */
    method WriteRequestToOutgoingPacket(key: TcpKey, data: seq<byte>) returns (p: Params)
      modifies this`seqNum, this`unacked
      ensures View() == Push(key, old(View()), data) && p == PushParams(key, old(View()), data)
    {
      p := GenerateTcpPush(key, data);
      unacked := unacked + [p];
    }

    /** The loop of a go-back: the payloads of the later packets move behind those waiting. */
    method Requeue()
      modifies this`unacked, this`toSend
      ensures unacked == [] && toSend == old(toSend) + Payloads(old(unacked))
    {
      ghost var i := 0;
      while unacked != []
        invariant 0 <= i <= |old(unacked)| && unacked == old(unacked)[i..]
        invariant toSend == old(toSend) + Payloads(old(unacked)[..i])
        decreases |unacked|
      {
        var next := unacked[0];
        unacked := unacked[1..];
        toSend := toSend + [next.payload];
        assert Payloads(old(unacked)[..i + 1]) == Payloads(old(unacked)[..i]) + [next.payload];
        i := i + 1;
      }
      assert old(unacked)[..i] == old(unacked);
    }

    /** The connected branch of `OutgoingPoller::poll`. */
    method Poll(key: TcpKey, rxReady: bool) returns (out: Option<Params>)
      modifies this
      ensures (View(), out) == PollConnected(key, old(View()), rxReady)
    {
      if dupAcks >= 2 && unacked != [] {
        var packet := unacked[0];
        unacked := unacked[1..];
        seqNum := Add32(packet.seqNum, |packet.payload|);
        Requeue();
        return Some(packet);
      }
      var data;
      if toSend != [] {
        data := toSend[0];
        toSend := toSend[1..];
      } else if rxReady && outbox != [] {
        data := outbox[0];
        outbox := outbox[1..];
      } else {
        return None;
      }
      var p := WriteRequestToOutgoingPacket(key, data);
      return Some(p);
    }
  }

  datatype TcpState =
    | Closed
    | HalfOpen(seqNum: u32, ackNum: u32, timeout: nat, sentFrame: Params)
    | Open(conn: Connection)

  datatype ListenerKey = ListenerKey(ip: IpAddr, port: u16)

  /** An outgoing packet: the key it belongs to, its parameters and its bytes. */
  datatype Outgoing = Outgoing(key: TcpKey, params: Params, frame: seq<byte>)

  /** Connections are identified by their keys; a channel holds those sent through it. */
  type Channel = seq<TcpKey>

  ghost function FrameOf(p: Option<Params>): Option<seq<byte>>
  {
    if p.Some? then Some(Frame(p.value)) else None
  }

  type Waker = nat

  class Tcp {
    var states: map<TcpKey, TcpState>
    var listeners: map<ListenerKey, nat>   // the channel of each listener
    var channels: seq<Channel>             // every channel created so far
    var serviceWaker: Option<Waker>
    var timers: seq<nat>                   // wake-up times registered with the timer

    /** No two keys share a connection, and no two listeners a channel. */
    ghost predicate Valid()
      reads this
    {
      && (forall k, l :: k in states && l in states && k != l && states[k].Open? && states[l].Open? ==>
            states[k].conn != states[l].conn)
      && (forall a :: a in listeners ==> listeners[a] < |channels|)
      && (forall a, b :: a in listeners && b in listeners && a != b ==> listeners[a] != listeners[b])
    }

    ghost function Conns(): set<Connection>
      reads this
    {
      set k | k in states && states[k].Open? :: states[k].conn
    }

    /** The state of a key, on values. */
    ghost function StateOf(k: TcpKey): State
      reads this, Conns()
    {
      if k !in states then Uninit
      else
        match states[k]
        case Closed => Uninit
        case HalfOpen(seqNum, ackNum, timeout, frame) => SynAckSent(seqNum, ackNum, timeout, frame)
        case Open(conn) => assert conn in Conns(); Connected(conn.View())
    }

    /** The channels once `key` has been sent to the listener, if one was told of it. */
    ghost function ChannelsAfter(key: TcpKey, accepted: bool): seq<Channel>
      requires Valid() && (accepted ==> ListenerKey(key.localIp, key.localPort) in listeners)
      reads this
    {
      if accepted then
        var c := listeners[ListenerKey(key.localIp, key.localPort)];
        channels[c := channels[c] + [key]]
      else channels
    }

    constructor ()
      ensures Valid() && Conns() == {} && (forall k :: StateOf(k) == Uninit) && listeners == map[]
      ensures serviceWaker == None && timers == []
    {
      states, listeners, channels := map[], map[], [];
      serviceWaker, timers := None, [];
    }

    /** `listen`: a new channel takes the place of the one the address and port had, if any. */
    method Listen(ip: IpAddr, port: u16) returns (rx: nat)
      requires Valid()
      modifies this`listeners, this`channels
      ensures Valid() && rx == |old(channels)| && channels == old(channels) + [[]]
      ensures listeners == old(listeners)[ListenerKey(ip, port) := rx]
    {
      rx := |channels|;
      channels := channels + [[]];
      listeners := listeners[ListenerKey(ip, port) := rx];
    }

    method StoreWaker(waker: Waker)
      requires Valid()
      modifies this`serviceWaker
      ensures Valid() && serviceWaker == Some(waker) && forall k :: StateOf(k) == old(StateOf(k))
    {
      serviceWaker := Some(waker);
    }

    // Replacing the entry of one key.
    method Store(key: TcpKey, state: TcpState)
      requires Valid() && (state.Open? ==> state.conn !in Conns())
      modifies this`states
      ensures Valid() && states == old(states)[key := state]
      ensures Conns() <= old(Conns()) + if state.Open? then {state.conn} else {}
      ensures forall k :: k != key ==> StateOf(k) == old(StateOf(k))
    {
      states := states[key := state];
    }

    // A new connection: recorded under its key and sent to the listener.
    method Accept(key: TcpKey, seqNum: u32, outgoingAck: u32, incomingAck: u32, windowSize: u16)
      requires Valid() && ListenerKey(key.localIp, key.localPort) in listeners
      modifies this`states, this`channels
      ensures Valid() && channels == old(ChannelsAfter(key, true))
      ensures StateOf(key) == Connected(Conn(seqNum, outgoingAck, incomingAck, windowSize, 0, [], [], [], []))
      ensures forall k :: k != key ==> StateOf(k) == old(StateOf(k))
    {
      var conn := new Connection(seqNum, outgoingAck, incomingAck, windowSize);
      Store(key, Open(conn));
      var tx := listeners[ListenerKey(key.localIp, key.localPort)];
      channels := channels[tx := channels[tx] + [key]];
    }

    /** The match of `handle_frame` on the state of the frame's key; `atEnd` is false for a branch that
        returns from `handle_frame`. */
    method HandleState(key: TcpKey, f: Fields, iss: u32, timeout: nat) returns (response: Option<Params>, atEnd: bool)
      requires Valid()
      modifies this`states, this`channels, this`timers, Conns()
      ensures Valid()
      ensures
        var env := Env(ListenerKey(key.localIp, key.localPort) in listeners, iss, timeout);
        var h := Handle(key, old(StateOf(key)), f, env);
        && StateOf(key) == h.state && response == h.response && atEnd == Notifies(old(StateOf(key)), f, env)
        && (h.accepted ==> env.listening) && channels == old(ChannelsAfter(key, h.accepted))
      ensures timers == old(timers) + if !old(StateOf(key)).Connected? && f.flags.syn then [timeout] else []
      ensures forall k :: k != key ==> StateOf(k) == old(StateOf(k))
      decreases if key in states && states[key].HalfOpen? then 1 else 0
    {
      response, atEnd := None, false;
      var state := if key in states then states[key] else Closed;
      match state
      case Closed =>
        if !f.flags.syn {
          Store(key, Closed);
          return;
        }
        var ackNum := Add32(f.seqNum, 1);
        var reply := Response(key, iss, ackNum, SYN_ACK, f.windowSize);
        timers := timers + [timeout];
        Store(key, HalfOpen(iss, ackNum, timeout, reply));
        response, atEnd := Some(reply), true;
      case HalfOpen(seqNum, ackNum, _, _) =>
        if f.flags.syn {
          Store(key, Closed);
          response, atEnd := HandleState(key, f, iss, timeout);
          return;
        }
        var listener := ListenerKey(key.localIp, key.localPort);
        if f.flags.psh || !f.flags.ack || f.seqNum != ackNum || listener !in listeners {
          return;
        }
        Accept(key, Add32(seqNum, 1), Add32(ackNum, |f.payload|), f.ackNum, f.windowSize);
        atEnd := true;
      case Open(conn) =>
        atEnd := conn.outgoingAck == f.seqNum && !f.flags.psh;
        response := conn.HandleFrame(key, f);
    }

    /** `handle_frame`: the state of the frame's key makes the step of the model, every other key is
        left alone, a new connection goes through the channel of the listener on the local address and
        through no other, and the bytes returned are the response's frame.  `woken` is the waker of the
        sending service, if it is called. */
    method HandleFrame(f: Fields, sourceIp: IpAddr, destIp: IpAddr, iss: u32, timeout: nat)
      returns (response: Option<seq<byte>>, woken: Option<Waker>)
      requires Valid()
      modifies this`states, this`channels, this`timers, Conns()
      ensures Valid()
      ensures
        var key := TcpKey(sourceIp, destIp, f.sourcePort, f.destPort);
        var env := Env(ListenerKey(destIp, f.destPort) in listeners, iss, timeout);
        var h := Handle(key, old(StateOf(key)), f, env);
        && StateOf(key) == h.state && response == FrameOf(h.response)
        && woken == (if Notifies(old(StateOf(key)), f, env) then serviceWaker else None)
        && timers == old(timers) + (if !old(StateOf(key)).Connected? && f.flags.syn then [timeout] else [])
        && (h.accepted ==> env.listening) && channels == old(ChannelsAfter(key, h.accepted))
      ensures forall k :: k != TcpKey(sourceIp, destIp, f.sourcePort, f.destPort) ==> StateOf(k) == old(StateOf(k))
    {
      hide Handle, Frame, Notifies;
      var reply, atEnd := HandleState(TcpKey(sourceIp, destIp, f.sourcePort, f.destPort), f, iss, timeout);
      woken := if atEnd then serviceWaker else None;
      if reply.None? {
        return None, woken;
      }
      var frame := GenerateTcpFrame(reply.value);
      return Some(frame), woken;
    }

    /** One round of the loop in `OutgoingPoller::poll`. */
    method PollKey(key: TcpKey, rxReady: bool, now: nat, period: nat) returns (sent: Option<Params>)
      requires Valid() && key in states
      modifies this`states, Conns()
      ensures Valid() && states.Keys == old(states.Keys)
      ensures Conns() <= old(Conns())
      ensures (StateOf(key), sent) == TcpModel.Poll(key, old(StateOf(key)), rxReady, now, period)
      ensures forall k :: k != key ==> StateOf(k) == old(StateOf(k))
    {
      sent := None;
      match states[key]
      case Closed =>
      case HalfOpen(seqNum, ackNum, timeout, frame) =>
        if now > timeout {
          Store(key, HalfOpen(seqNum, ackNum, timeout + period, frame));
          sent := Some(frame);
        }
      case Open(conn) =>
        sent := conn.Poll(key, rxReady);
    }

    /** `OutgoingPoller::poll`.  `order` is the iteration order of the table and `ready` the keys whose
        outbox channel can be read.  The first key with something to send makes its step and its
        frame is returned; if there is none, nothing changes but the stored waker. */
    method Poll(order: seq<TcpKey>, ready: set<TcpKey>, now: nat, period: nat, waker: Waker) returns (out: Option<Outgoing>)
      requires Valid()
      requires forall k :: k in order <==> k in states
      modifies this`states, this`serviceWaker, Conns()
      ensures Valid() && serviceWaker == Some(waker)
      ensures out.None? ==> forall k ::
                StateOf(k) == old(StateOf(k)) && TcpModel.Poll(k, StateOf(k), k in ready, now, period).1.None?
      ensures out.Some? ==>
        var k := out.value.key;
        && TcpModel.Poll(k, old(StateOf(k)), k in ready, now, period) == (StateOf(k), Some(out.value.params))
        && out.value.frame == Frame(out.value.params)
        && (forall l :: l != k ==> StateOf(l) == old(StateOf(l)))
        && (exists i :: 0 <= i < |order| && order[i] == k && forall j :: 0 <= j < i ==>
              TcpModel.Poll(order[j], old(StateOf(order[j])), order[j] in ready, now, period).1.None?)
    {
      hide TcpModel.Poll, Frame, Valid;
      StoreWaker(waker);
      out := PollKeys(order, ready, now, period);
    }

    // The loop of `OutgoingPoller::poll`.
    method PollKeys(order: seq<TcpKey>, ready: set<TcpKey>, now: nat, period: nat) returns (out: Option<Outgoing>)
      requires Valid()
      requires forall k :: k in order <==> k in states
      modifies this`states, Conns()
      ensures Valid()
      ensures out.None? ==> forall k ::
                StateOf(k) == old(StateOf(k)) && TcpModel.Poll(k, StateOf(k), k in ready, now, period).1.None?
      ensures out.Some? ==>
        var k := out.value.key;
        && TcpModel.Poll(k, old(StateOf(k)), k in ready, now, period) == (StateOf(k), Some(out.value.params))
        && out.value.frame == Frame(out.value.params)
        && (forall l :: l != k ==> StateOf(l) == old(StateOf(l)))
        && (exists i :: 0 <= i < |order| && order[i] == k && forall j :: 0 <= j < i ==>
              TcpModel.Poll(order[j], old(StateOf(order[j])), order[j] in ready, now, period).1.None?)
    {
      hide TcpModel.PollConnected, Frame, Valid;
      for i := 0 to |order|
        invariant Valid() && states.Keys == old(states.Keys) && Conns() <= old(Conns())
        invariant forall k :: StateOf(k) == old(StateOf(k))
        invariant forall j :: 0 <= j < i ==>
                    TcpModel.Poll(order[j], old(StateOf(order[j])), order[j] in ready, now, period).1.None?
      {
        var key := order[i];
        var sent := PollKey(key, key in ready, now, period);
        SilentPoll(key, old(StateOf(key)), key in ready, now, period);
        if sent.Some? {
          var frame := GenerateTcpFrame(sent.value);
          return Some(Outgoing(key, sent.value, frame));
        }
      }
      out := None;
    }
  }
}
