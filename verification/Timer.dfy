/**
  Timer wake-ups: requests are posted to a queue, a service task moves them into an ordered map, and
  every clock tick fires the map entries that are due.
 */
module Timer {
  import opened Options

  type Waker = nat

  /** A registered wake-up: the tick it is for and the waker to call. */
  datatype Entry = Entry(tick: nat, waker: Waker)

  ghost predicate IsFirst(keys: set<nat>, k: nat)
  {
    k in keys && forall j :: j in keys ==> k <= j
  }

  lemma {:induction false} FirstExists(keys: set<nat>)
    requires keys != {}
    ensures exists k :: IsFirst(keys, k)
  {
    var k :| k in keys;
    var rest := keys - {k};
    if rest == {} {
      assert keys == {k};
      assert IsFirst(keys, k);
    } else {
      FirstExists(rest);
      var m :| IsFirst(rest, m);
      AddKey(rest, m, k);
      assert rest + {k} == keys;
    }
  }

  lemma AddKey(rest: set<nat>, m: nat, k: nat)
    requires IsFirst(rest, m)
    ensures IsFirst(rest + {k}, if k < m then k else m)
  {
  }

  /** The first key of the ordered map. */
  function First(keys: set<nat>): (k: nat)
    requires keys != {}
    ensures k in keys && forall j :: j in keys ==> k <= j
  {
    FirstExists(keys);
    var k :| k in keys && forall j :: j in keys ==> k <= j;
    k
  }

  function Due(keys: set<nat>, time: nat): set<nat>
  {
    set k | k in keys && k <= time
  }

  function Entries(tick: nat, wakers: seq<Waker>): (es: seq<Entry>)
    ensures |es| == |wakers|
  {
    seq(|wakers|, i requires 0 <= i < |wakers| => Entry(tick, wakers[i]))
  }

  function Wakers(es: seq<Entry>): seq<Waker>
  {
    seq(|es|, i requires 0 <= i < |es| => es[i].waker)
  }

  lemma NoWakers()
    ensures Wakers([]) == []
  {
  }

  lemma WakersEntries(es: seq<Entry>, tick: nat, wakers: seq<Waker>)
    ensures Wakers(es + Entries(tick, wakers)) == Wakers(es) + wakers
  {
  }

  /** Everything due at `time`, by tick and within a tick in the order of insertion. */
  ghost function Firing(m: map<nat, seq<Waker>>, time: nat): seq<Entry>
    decreases |Due(m.Keys, time)|
  {
    if Due(m.Keys, time) == {} then []
    else
      var k := First(m.Keys);
      FirstIsDue(m.Keys, time);
      Entries(k, m[k]) + Firing(m - {k}, time)
  }

  lemma FirstIsDue(keys: set<nat>, time: nat)
    requires Due(keys, time) != {}
    ensures keys != {} && First(keys) in Due(keys, time)
    ensures Due(keys - {First(keys)}, time) == Due(keys, time) - {First(keys)}
    ensures |Due(keys - {First(keys)}, time)| == |Due(keys, time)| - 1
  {
    var k :| k in Due(keys, time);
    assert First(keys) <= k;
    assert Due(keys - {First(keys)}, time) == Due(keys, time) - {First(keys)};
  }

  /** How often an entry is waiting in the map. */
  function InMap(m: map<nat, seq<Waker>>, e: Entry): nat
  {
    if e.tick in m then multiset(m[e.tick])[e.waker] else 0
  }

  lemma {:induction false} EntriesCount(tick: nat, wakers: seq<Waker>, e: Entry)
    ensures multiset(Entries(tick, wakers))[e] == if e.tick == tick then multiset(wakers)[e.waker] else 0
  {
    if wakers != [] {
      var n := |wakers| - 1;
      EntriesCount(tick, wakers[..n], e);
      assert wakers == wakers[..n] + [wakers[n]];
      assert Entries(tick, wakers) == Entries(tick, wakers[..n]) + [Entry(tick, wakers[n])];
    }
  }

  /** Exactness of one tick: the firing consists of precisely the map entries due at or before
      `time`, each as often as it was registered. */
  lemma {:induction false} FiringExact(m: map<nat, seq<Waker>>, time: nat, e: Entry)
    ensures multiset(Firing(m, time))[e] == if e.tick <= time then InMap(m, e) else 0
    decreases |Due(m.Keys, time)|
  {
    if Due(m.Keys, time) == {} {
      assert e.tick in m && e.tick <= time ==> e.tick in Due(m.Keys, time);
    } else {
      var k := First(m.Keys);
      FirstIsDue(m.Keys, time);
      assert (m - {k}).Keys == m.Keys - {k};
      FiringExact(m - {k}, time, e);
      EntriesCount(k, m[k], e);
    }
  }

  lemma {:induction false} FiringSorted(m: map<nat, seq<Waker>>, time: nat)
    ensures forall i :: 0 <= i < |Firing(m, time)| ==> Firing(m, time)[i].tick in m && Firing(m, time)[i].tick <= time
    ensures forall i, j :: 0 <= i < j < |Firing(m, time)| ==> Firing(m, time)[i].tick <= Firing(m, time)[j].tick
    decreases |Due(m.Keys, time)|
  {
    if Due(m.Keys, time) != {} {
      var k := First(m.Keys);
      FirstIsDue(m.Keys, time);
      assert (m - {k}).Keys == m.Keys - {k};
      FiringSorted(m - {k}, time);
    }
  }

  /** The map once everything due at `time` is gone. */
  function Later(m: map<nat, seq<Waker>>, time: nat): map<nat, seq<Waker>>
  {
    map k | k in m && k > time :: m[k]
  }

  /** `entry(tick).or_default().push(waker)` */
  function Put(m: map<nat, seq<Waker>>, e: Entry): map<nat, seq<Waker>>
  {
    m[e.tick := (if e.tick in m then m[e.tick] else []) + [e.waker]]
  }

  function PutAll(m: map<nat, seq<Waker>>, es: seq<Entry>): map<nat, seq<Waker>>
    decreases |es|
  {
    if es == [] then m else PutAll(Put(m, es[0]), es[1..])
  }

  /** Every registered wake-up is in exactly one place, counted with multiplicity. */
  ghost predicate Accounted(registered: seq<Entry>, posted: seq<Entry>, pending: map<nat, seq<Waker>>, fired: seq<Entry>)
  {
    forall e :: multiset(registered)[e] == multiset(posted)[e] + InMap(pending, e) + multiset(fired)[e]
  }

  lemma PostAccounted(registered: seq<Entry>, posted: seq<Entry>, pending: map<nat, seq<Waker>>, fired: seq<Entry>, e: Entry)
    requires Accounted(registered, posted, pending, fired)
    ensures Accounted(registered + [e], posted + [e], pending, fired)
  {
  }

  lemma MoveAccounted(registered: seq<Entry>, posted: seq<Entry>, pending: map<nat, seq<Waker>>, fired: seq<Entry>)
    requires posted != [] && Accounted(registered, posted, pending, fired)
    ensures Accounted(registered, posted[1..], Put(pending, posted[0]), fired)
  {
    assert posted == [posted[0]] + posted[1..];
  }

  /** Firing moves entries from the map to the fired ones and loses none. */
  lemma FireAccounted(registered: seq<Entry>, posted: seq<Entry>, pending: map<nat, seq<Waker>>, fired: seq<Entry>, time: nat)
    requires Accounted(registered, posted, pending, fired)
    ensures Accounted(registered, posted, Later(pending, time), fired + Firing(pending, time))
  {
    forall e: Entry
      ensures multiset(registered)[e]
           == multiset(posted)[e] + InMap(Later(pending, time), e) + multiset(fired + Firing(pending, time))[e]
    {
      FiringExact(pending, time, e);
    }
  }

  // ---------------------------------------------------------------- order within a tick

  /** The wakers of the entries for one tick, in order. */
  function WakersOf(es: seq<Entry>, tick: nat): seq<Waker>
  {
    if es == [] then [] else (if es[0].tick == tick then [es[0].waker] else []) + WakersOf(es[1..], tick)
  }

  function WaitingFor(m: map<nat, seq<Waker>>, tick: nat): seq<Waker>
  {
    if tick in m then m[tick] else []
  }

  lemma {:induction false} WakersOfConcat(es: seq<Entry>, ds: seq<Entry>, tick: nat)
    ensures WakersOf(es + ds, tick) == WakersOf(es, tick) + WakersOf(ds, tick)
  {
    NoWakersOf(tick);
    hide WakersOf;
    if es == [] {
      assert es + ds == ds;
    } else {
      var rest, head := es[1..] + ds, if es[0].tick == tick then [es[0].waker] else [];
      WakersOfConcat(es[1..], ds, tick);
      assert es + ds == [es[0]] + rest;
      WakersOfCons(es[0], rest, tick);
      WakersOfCons(es[0], es[1..], tick);
      assert [es[0]] + es[1..] == es;
      Regroup([], head, WakersOf(es[1..], tick), WakersOf(ds, tick));
    }
  }

  lemma NoWakersOf(tick: nat)
    ensures WakersOf([], tick) == []
  {
  }

  lemma WakersOfCons(e: Entry, es: seq<Entry>, tick: nat)
    ensures WakersOf([e] + es, tick) == (if e.tick == tick then [e.waker] else []) + WakersOf(es, tick)
  {
    assert ([e] + es)[1..] == es;
  }

  lemma {:induction false} WakersOfEntries(k: nat, wakers: seq<Waker>, tick: nat)
    ensures WakersOf(Entries(k, wakers), tick) == if k == tick then wakers else []
  {
    if wakers != [] {
      WakersOfEntries(k, wakers[1..], tick);
      assert Entries(k, wakers)[1..] == Entries(k, wakers[1..]);
    }
  }

  /** A tick fires the wakers of each due time in the order in which the map holds them. */
  lemma {:induction false} FiringOrder(m: map<nat, seq<Waker>>, time: nat, tick: nat)
    ensures WakersOf(Firing(m, time), tick) == if tick <= time then WaitingFor(m, tick) else []
    decreases |Due(m.Keys, time)|
  {
    if Due(m.Keys, time) == {} {
      assert tick in m && tick <= time ==> tick in Due(m.Keys, time);
    } else {
      var k := First(m.Keys);
      FirstIsDue(m.Keys, time);
      assert (m - {k}).Keys == m.Keys - {k};
      FiringOrder(m - {k}, time, tick);
      WakersOfEntries(k, m[k], tick);
      WakersOfConcat(Entries(k, m[k]), Firing(m - {k}, time), tick);
    }
  }

  /** For every tick, what has fired, what waits in the map and what is posted are, in this order, the
      wake-ups registered for it in the order of registration. */
  ghost predicate Sequenced(registered: seq<Entry>, posted: seq<Entry>, pending: map<nat, seq<Waker>>, fired: seq<Entry>)
  {
    forall tick: nat :: WakersOf(registered, tick)
                        == WakersOf(fired, tick) + WaitingFor(pending, tick) + WakersOf(posted, tick)
  }

  lemma PostSequenced(registered: seq<Entry>, posted: seq<Entry>, pending: map<nat, seq<Waker>>, fired: seq<Entry>, e: Entry)
    requires Sequenced(registered, posted, pending, fired)
    ensures Sequenced(registered + [e], posted + [e], pending, fired)
  {
    forall tick: nat
      ensures WakersOf(registered + [e], tick)
           == WakersOf(fired, tick) + WaitingFor(pending, tick) + WakersOf(posted + [e], tick)
    {
      WakersOfConcat(registered, [e], tick);
      WakersOfConcat(posted, [e], tick);
    }
  }

  lemma MoveSequenced(registered: seq<Entry>, posted: seq<Entry>, pending: map<nat, seq<Waker>>, fired: seq<Entry>)
    requires posted != [] && Sequenced(registered, posted, pending, fired)
    ensures Sequenced(registered, posted[1..], Put(pending, posted[0]), fired)
  {
    hide Put;
    forall tick: nat
      ensures WakersOf(registered, tick)
           == WakersOf(fired, tick) + WaitingFor(Put(pending, posted[0]), tick) + WakersOf(posted[1..], tick)
    {
      PutOne(pending, posted[0], tick);
      var moved := if posted[0].tick == tick then [posted[0].waker] else [];
      Regroup(WakersOf(fired, tick), WaitingFor(pending, tick), moved, WakersOf(posted[1..], tick));
    }
  }

  lemma PutOne(m: map<nat, seq<Waker>>, e: Entry, tick: nat)
    ensures WaitingFor(Put(m, e), tick) == WaitingFor(m, tick) + if e.tick == tick then [e.waker] else []
  {
  }

  lemma Regroup(a: seq<Waker>, b: seq<Waker>, c: seq<Waker>, d: seq<Waker>)
    ensures a + b + (c + d) == a + (b + c) + d
  {
  }

  lemma FireSequenced(registered: seq<Entry>, posted: seq<Entry>, pending: map<nat, seq<Waker>>, fired: seq<Entry>, time: nat)
    requires Sequenced(registered, posted, pending, fired)
    ensures Sequenced(registered, posted, Later(pending, time), fired + Firing(pending, time))
  {
    forall tick: nat
      ensures WakersOf(registered, tick) == WakersOf(fired + Firing(pending, time), tick)
                                            + WaitingFor(Later(pending, time), tick) + WakersOf(posted, tick)
    {
      FiringOrder(pending, time, tick);
      WakersOfConcat(fired, Firing(pending, time), tick);
    }
  }

  lemma PopFirst(m: map<nat, seq<Waker>>, time: nat)
    requires Due(m.Keys, time) != {}
    ensures m.Keys != {}
    ensures
      var k := First(m.Keys);
      && |Due((m - {k}).Keys, time)| == |Due(m.Keys, time)| - 1
      && Firing(m, time) == Entries(k, m[k]) + Firing(m - {k}, time)
      && Later(m - {k}, time) == Later(m, time)
  {
    FirstIsDue(m.Keys, time);
    assert (m - {First(m.Keys)}).Keys == m.Keys - {First(m.Keys)};
  }

  lemma NothingDue(m: map<nat, seq<Waker>>, time: nat)
    requires Due(m.Keys, time) == {}
    ensures Later(m, time) == m && Firing(m, time) == []
  {
    forall k | k in m
      ensures k > time
    {
      assert k <= time ==> k in Due(m.Keys, time);
    }
  }

  class Timers {
    var posted: seq<Entry>
    var pending: map<nat, seq<Waker>>
    var locked: bool                    // a registration holds the lock on the posted queue
    var serviceWaker: Option<Waker>
    var clock: nat

    ghost var waiting: bool             // the service's last poll returned Pending
    ghost var notified: bool            // its waker has been called since that poll
    ghost var registered: seq<Entry>
    ghost var fired: seq<Entry>

    /** Every registered wake-up is in exactly one place, those for one tick in the order of registration,
        nothing has fired before its tick, and a service that waits while something is posted has been
        notified of it, or the registration that posted it is still under way and will. */
    ghost predicate Valid()
      reads this
    {
      && Accounted(registered, posted, pending, fired)
      && Sequenced(registered, posted, pending, fired)
      && (forall e :: e in fired ==> e.tick <= clock)
      && (waiting ==> serviceWaker.Some? && (posted != [] ==> notified || locked))
    }

    /** `construct_wakeup_handlers` */
    constructor ()
      ensures Valid() && registered == [] && clock == 0 && serviceWaker == None && !waiting && !locked
    {
      posted, pending, clock := [], map[], 0;
      locked, serviceWaker, waiting, notified := false, None, false, false;
      registered, fired := [], [];
    }

    /** `register_wakeup_time`, up to the lock: false if another registration holds it. */
    method BeginRegister() returns (ok: bool)
      requires Valid()
      modifies this`locked
      ensures Valid() && locked && ok == !old(locked)
    {
      ok := !locked;
      locked := true;
    }

    /** The push under the lock. */
    method Post(tick: nat, waker: Waker)
      requires Valid() && locked
      modifies this`posted, this`registered
      ensures Valid()
      ensures registered == old(registered) + [Entry(tick, waker)] && posted == old(posted) + [Entry(tick, waker)]
    {
      hide Accounted, Sequenced;
      PostAccounted(registered, posted, pending, fired, Entry(tick, waker));
      PostSequenced(registered, posted, pending, fired, Entry(tick, waker));
      posted := posted + [Entry(tick, waker)];
      registered := registered + [Entry(tick, waker)];
    }

    /** The end of `register_wakeup_time`: call the waker of the service, if there is one, and drop the
        lock.  Whatever the service did meanwhile, it does not wait unnotified. */
    method FinishRegister() returns (woken: Option<Waker>)
      requires Valid() && locked
      modifies this`locked, this`notified
      ensures Valid() && !locked && woken == serviceWaker
      ensures waiting && posted != [] ==> woken.Some? && notified
    {
      woken := serviceWaker;
      notified := notified || woken.Some?;
      locked := false;
    }

    /** `TimeWaiter::poll`: the waker is stored before the queue is looked at, and while a registration
        holds the lock the queue is not looked at. */
    method PollTimeWaiter(waker: Waker) returns (ready: bool)
      requires Valid()
      modifies this`serviceWaker, this`waiting, this`notified
      ensures Valid() && serviceWaker == Some(waker) && waiting == !ready
      ensures ready <==> !locked && posted != []
    {
      serviceWaker, notified := Some(waker), false;
      ready := !locked && posted != [];
      waiting := !ready;
    }

    /** The rest of a round of `WakeupService::service`, once its `TimeWaiter` is ready. */
    method Service()
      requires Valid() && !waiting && !locked
      modifies this`posted, this`pending
      ensures Valid() && posted == [] && pending == PutAll(old(pending), old(posted))
    {
      hide Accounted, Sequenced, Put;
      while posted != []
        invariant Valid() && PutAll(pending, posted) == PutAll(old(pending), old(posted))
        decreases |posted|
      {
        MoveAccounted(registered, posted, pending, fired);
        MoveSequenced(registered, posted, pending, fired);
        var e := posted[0];
        posted := posted[1..];
        pending := Put(pending, e);
      }
    }

    /** The first loop of `wakeup_if_neccessary`: how many leading keys are due. */
    method CountDue(time: nat) returns (lastIdx: nat)
      ensures lastIdx == |Due(pending.Keys, time)|
    {
      var rest := pending.Keys;
      lastIdx := 0;
      while rest != {}
        invariant rest <= pending.Keys
        invariant |Due(rest, time)| + lastIdx == |Due(pending.Keys, time)|
        decreases rest
      {
        var k := First(rest);
        if k > time {
          assert Due(rest, time) == {};
          break;
        }
        assert k in Due(rest, time);
        FirstIsDue(rest, time);
        rest := rest - {k};
        lastIdx := lastIdx + 1;
      }
      assert rest == {} ==> Due(rest, time) == {};
    }

    /** The second loop of `wakeup_if_neccessary`: pop the leading keys and call their wakers. */
    method PopDue(lastIdx: nat, time: nat) returns (woken: seq<Waker>)
      requires lastIdx == |Due(pending.Keys, time)|
      modifies this`pending
      ensures woken == Wakers(Firing(old(pending), time)) && pending == Later(old(pending), time)
    {
      hide Firing, Later, First, Due, Wakers, Entries;
      woken := [];
      ghost var done: seq<Entry> := [];
      NoWakers();
      for i := 0 to lastIdx
        invariant |Due(pending.Keys, time)| == lastIdx - i
        invariant done + Firing(pending, time) == Firing(old(pending), time)
        invariant woken == Wakers(done)
        invariant Later(pending, time) == Later(old(pending), time)
      {
        PopFirst(pending, time);
        var k := First(pending.Keys);
        var wakers := pending[k];
        WakersEntries(done, k, wakers);
        pending := pending - {k};
        woken := woken + wakers;
        done := done + Entries(k, wakers);
      }
      NothingDue(pending, time);
      assert done == Firing(old(pending), time);
    }

    /** `wakeup_if_neccessary`: returns the wakers called, in order. */
    method WakeupIfNecessary(time: nat) returns (woken: seq<Waker>)
      requires Valid() && time <= clock
      modifies this`pending, this`fired
      ensures Valid()
      ensures fired == old(fired) + Firing(old(pending), time)
      ensures woken == Wakers(Firing(old(pending), time))
      ensures pending == Later(old(pending), time)
    {
      hide Accounted, Sequenced, Firing, Later, Due, Wakers;
      FireAccounted(registered, posted, pending, fired, time);
      FireSequenced(registered, posted, pending, fired, time);
      FiringSorted(pending, time);
      ghost var firing := Firing(pending, time);
      var lastIdx := CountDue(time);
      woken := PopDue(lastIdx, time);
      fired := fired + firing;
    }

    /** The clock interrupt: advance the clock, then fire what is due. */
    method Tick() returns (woken: seq<Waker>)
      requires Valid()
      modifies this`clock, this`pending, this`fired
      ensures Valid() && clock == old(clock) + 1
      ensures fired == old(fired) + Firing(old(pending), clock) && woken == Wakers(Firing(old(pending), clock))
      ensures pending == Later(old(pending), clock)
    {
      hide Accounted, Sequenced;
      clock := clock + 1;
      woken := WakeupIfNecessary(clock);
    }

    /** `SleepFuture::poll`, once the timer of the sleep has fired: the sleep is over. */
    method PollSleep(endTick: nat, ghost waker: Waker) returns (ready: bool)
      requires Valid()
      ensures ready <==> endTick <= clock
      ensures Entry(endTick, waker) in fired ==> ready
    {
      ready := !(clock < endTick);
    }
  }
}
