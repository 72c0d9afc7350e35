/**
  The async mutex as a transition system over its separate memory steps, for any number of tasks.

  A task polls `MutexLocker`, which may report a readiness that is stale by the time it is used, then
  runs `acquire`: a load and a compare-exchange that may fail spuriously.  Dropping the guard stores
  zero.  While a task has the guard it works on the protected value in two steps, a read and a write.
 */
module AsyncMutex {

  type Task = nat

  datatype Pc =
    | Outside
    | Ready               // the locker reported that the lock is free
    | Loaded              // `acquire` read the count and found zero
    | Holding             // has a guard
    | HasRead(value: int) // has a guard and has read the protected value
  {
    predicate Guards() { Holding? || HasRead? }
  }

  /** `count` and the protected value, and the position of every task that ever ran. */
  datatype State = State(count: nat, value: int, pcs: map<Task, Pc>)

  datatype Action =
    | PollLocker(t: Task)
    | Load(t: Task)
    | Exchange(t: Task, spurious: bool)
    | Read(t: Task)
    | Update(t: Task)
    | DropGuard(t: Task)

  const START: State := State(0, 0, map[])

  function At(s: State, t: Task): Pc
  {
    if t in s.pcs then s.pcs[t] else Outside
  }

  function Go(s: State, t: Task, pc: Pc): State
  {
    s.(pcs := s.pcs[t := pc])
  }

  /** The next state; an action that does not fit the position of its task changes nothing.
      `try_lock` is `acquire` without the locker, so a load is possible from outside too. */
  function Next(s: State, a: Action): State
  {
    match a
    case PollLocker(t) => if At(s, t).Outside? && s.count == 0 then Go(s, t, Ready) else s
    case Load(t) =>
      if !(At(s, t).Outside? || At(s, t).Ready?) then s
      else if s.count != 0 then Go(s, t, Outside)
      else Go(s, t, Loaded)
    case Exchange(t, spurious) =>
      if !At(s, t).Loaded? then s
      else if s.count != 0 || spurious then Go(s, t, Outside)
      else Go(s.(count := 0 + 1), t, Holding)
    case Read(t) => if At(s, t).Holding? then Go(s, t, HasRead(s.value)) else s
    case Update(t) =>
      if At(s, t).HasRead?
      then Go(s.(value := At(s, t).value + 1), t, Holding)
      else s
    case DropGuard(t) => if At(s, t).Guards() then Go(s.(count := 0), t, Outside) else s
  }

  function Run(actions: seq<Action>): State
  {
    if actions == [] then START else Next(Run(actions[..|actions| - 1]), actions[|actions| - 1])
  }

  /** All tasks that have a guard. */
  function Guards(s: State): set<Task>
  {
    set t | t in s.pcs && s.pcs[t].Guards()
  }

  ghost predicate Inv(s: State)
  {
    && s.count == |Guards(s)| <= 1
    && (forall t :: t in s.pcs && s.pcs[t].HasRead? ==> s.pcs[t].value == s.value)
  }

  lemma SoleGuard(s: State, t: Task)
    requires |Guards(s)| <= 1 && t in Guards(s)
    ensures Guards(s) == {t}
  {
    assert |Guards(s) - {t}| == |Guards(s)| - 1;
  }

  lemma GuardsAfter(s: State, t: Task, pc: Pc)
    ensures Guards(Go(s, t, pc)) == if pc.Guards() then Guards(s) + {t} else Guards(s) - {t}
  {
  }

  // A step of a task that has no guard and gets none.
  lemma OutsideKeeps(s: State, t: Task, pc: Pc)
    requires Inv(s) && !At(s, t).Guards() && !pc.Guards()
    ensures Inv(Go(s, t, pc))
  {
    GuardsAfter(s, t, pc);
    assert Guards(Go(s, t, pc)) == Guards(s);
  }

  lemma EnterKeeps(s: State, t: Task)
    requires Inv(s) && s.count == 0
    ensures Inv(Go(s.(count := 1), t, Holding))
  {
    assert Guards(s) == {};
    GuardsAfter(s.(count := 1), t, Holding);
    assert Guards(s.(count := 1)) == Guards(s);
    assert Guards(Go(s.(count := 1), t, Holding)) == {t};
  }

  lemma ReadKeeps(s: State, t: Task)
    requires Inv(s) && t in Guards(s)
    ensures Inv(Go(s, t, HasRead(s.value)))
  {
    GuardsAfter(s, t, HasRead(s.value));
    assert Guards(s) + {t} == Guards(s);
  }

  lemma UpdateKeeps(s: State, t: Task)
    requires Inv(s) && t in s.pcs && s.pcs[t].HasRead?
    ensures Inv(Go(s.(value := s.pcs[t].value + 1), t, Holding))
  {
    var v := s.(value := s.pcs[t].value + 1);
    assert Guards(v) == Guards(s) && t in Guards(s);
    SoleGuard(s, t);
    GuardsAfter(v, t, Holding);
    assert Guards(Go(v, t, Holding)) == {t};
    assert forall u :: u in s.pcs && s.pcs[u].HasRead? ==> u in Guards(s);
  }

  lemma DropKeeps(s: State, t: Task)
    requires Inv(s) && t in Guards(s)
    ensures Inv(Go(s.(count := 0), t, Outside))
  {
    SoleGuard(s, t);
    assert Guards(s.(count := 0)) == Guards(s);
    GuardsAfter(s.(count := 0), t, Outside);
    assert Guards(Go(s.(count := 0), t, Outside)) == {};
  }

  lemma NextKeeps(s: State, a: Action)
    requires Inv(s)
    ensures Inv(Next(s, a))
  {
    hide Inv, Guards;
    match a
    case PollLocker(t) => if Next(s, a) != s { OutsideKeeps(s, t, Ready); }
    case Load(t) => if Next(s, a) != s { OutsideKeeps(s, t, if s.count != 0 then Outside else Loaded); }
    case Exchange(t, spurious) =>
      if At(s, t).Loaded? && s.count == 0 && !spurious {
        EnterKeeps(s, t);
      } else if At(s, t).Loaded? {
        OutsideKeeps(s, t, Outside);
      }
    case Read(t) => if At(s, t).Holding? { InGuards(s, t); ReadKeeps(s, t); }
    case Update(t) => if At(s, t).HasRead? { UpdateKeeps(s, t); }
    case DropGuard(t) => if At(s, t).Guards() { InGuards(s, t); DropKeeps(s, t); }
  }

  lemma InGuards(s: State, t: Task)
    requires At(s, t).Guards()
    ensures t in Guards(s)
  {
  }

  /** Mutual exclusion: in every interleaving the count is the number of live guards, at most one;
      and what a guard holder has read is still the value. */
  lemma {:induction false} MutualExclusion(actions: seq<Action>)
    ensures Inv(Run(actions))
  {
    if actions != [] {
      MutualExclusion(actions[..|actions| - 1]);
      NextKeeps(Run(actions[..|actions| - 1]), actions[|actions| - 1]);
    }
  }

  /** The number of updates in a run that a task made after its read. */
  function Updates(actions: seq<Action>): nat
  {
    if actions == [] then 0
    else
      var prev, a := actions[..|actions| - 1], actions[|actions| - 1];
      Updates(prev) + if a.Update? && At(Run(prev), a.t).HasRead? then 1 else 0
  }

  /** No update is lost: in every interleaving the value counts the updates. */
  lemma {:induction false} NoLostUpdate(actions: seq<Action>)
    ensures Run(actions).value == Updates(actions)
  {
    if actions != [] {
      NoLostUpdate(actions[..|actions| - 1]);
      MutualExclusion(actions[..|actions| - 1]);
    }
  }

  /** In every reachable state a load followed by an exchange that does not fail spuriously gives a task
      the guard if and only if no task has it; a spurious failure never gives it. */
  lemma AcquireExact(actions: seq<Action>, t: Task)
    requires At(Run(actions), t).Outside? || At(Run(actions), t).Ready?
    ensures
      var s, u := Run(actions), Next(Run(actions), Load(t));
      && (t in Guards(Next(u, Exchange(t, false))) <==> Guards(s) == {})
      && t !in Guards(Next(u, Exchange(t, true)))
  {
    MutualExclusion(actions);
  }

  /** The locker reports a free lock, and only a free one. */
  lemma LockerExact(actions: seq<Action>, t: Task)
    requires At(Run(actions), t).Outside?
    ensures At(Next(Run(actions), PollLocker(t)), t).Ready? <==> Guards(Run(actions)) == {}
  {
    MutualExclusion(actions);
  }

  /** In every reachable state the holder of the guard can update the value and give the guard up, after
      which the lock is free. */
  lemma CriticalSection(actions: seq<Action>, t: Task)
    requires At(Run(actions), t).Holding?
    ensures
      var s := Run(actions);
      var u := Next(Next(Next(s, Read(t)), Update(t)), DropGuard(t));
      u.value == s.value + 1 && u.count == 0 && Guards(u) == {} && At(u, t).Outside?
  {
    hide Guards;
    var s := Run(actions);
    MutualExclusion(actions);
    var r := Next(s, Read(t));
    NextKeeps(s, Read(t));
    var v := Next(r, Update(t));
    NextKeeps(r, Update(t));
    NextKeeps(v, DropGuard(t));
    NoGuards(Next(v, DropGuard(t)));
  }

  lemma NoGuards(s: State)
    requires Inv(s) && s.count == 0
    ensures Guards(s) == {}
  {
  }
}
