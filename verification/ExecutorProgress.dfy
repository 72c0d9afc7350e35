/**
  Progress of the executor: from every reachable state in which a task has been woken there is a way
  on, made of steps of the executor alone, to the beginning of its next poll.
 */
module ExecutorProgress {
  import opened Executor

  /** How far a worker is from being idle. */
  function Stage(x: Worker): nat
  {
    match x
    case Idle => 0
    case Finishing => 1
    case Storing(_) => 2
    case Polling(_) => 3
    case Queued(_) => 4
  }

  /** What a worker that is not idle does next; a poll returns Pending. */
  function WorkerStep(s: State, w: nat): Action
    requires w < |s.workers|
  {
    match s.workers[w]
    case Queued(_) => Begin(w)
    case Polling(_) => Return(w, false)
    case Storing(_) => Store(w)
    case Finishing => Finish(w)
    case Idle => Wait
  }

  /** A next step towards the poll of task `id`. */
  ghost function Towards(s: State, id: TaskId): Action
    requires |s.workers| > 0 && (s.phase.Waiting? ==> s.phase.cpu < |s.workers|)
  {
    var main := |s.workers| - 1;
    match s.phase
    case Spawning => StartRun
    case Top => CheckTasks(0)
    case Draining(_) => PopWake
    case Batch(todo) => if id in todo then Take(id) else if todo == {} then EndBatch else Take(Any(todo))
    case Scanning(_, _, _) => Scan
    case Inline(_) => if s.workers[main].Idle? then EndInline else WorkerStep(s, main)
    case Waiting(cpu) => if cpu == main || s.workers[cpu].Idle? then Wait else WorkerStep(s, cpu)
    case Done => Wait
    case Panicked => Wait
  }

  ghost function Any(todo: set<TaskId>): (id: TaskId)
    requires todo != {}
    ensures id in todo
  {
    var id :| id in todo;
    id
  }

  // ---------------------------------------------------------------- the distance to the poll

  /** Where the task is: being dispatched, in the batch, or still in the wake queue. */
  ghost function Place(s: State, id: TaskId): nat
  {
    if s.phase.Scanning? && s.phase.id == id then 0 else if id in Popped(s.phase) then 1 else 2
  }

  /** The phases in the order in which they lead to the loop top and to the next drain. */
  function Major(s: State, place: nat): nat
  {
    match s.phase
    case Batch(_) => 4
    case Scanning(_, _, _) => 4
    case Inline(_) => 4
    case Waiting(_) => 3
    case Spawning => 2
    case Top => 1
    case Draining(_) => if place == 1 then 5 else 0
    case Done => 0
    case Panicked => 0
  }

  function Size(s: State): nat
  {
    match s.phase
    case Draining(_) => |s.queue|
    case Waiting(cpu) => if cpu < |s.workers| then |s.workers| - cpu else 0
    case _ => |Popped(s.phase)|
  }

  function Minor(s: State): nat
  {
    match s.phase
    case Scanning(_, _, _) => 3
    case Inline(_) => 2
    case Batch(_) => 1
    case _ => 0
  }

  function Rest(s: State): nat
  {
    match s.phase
    case Scanning(_, _, cpu) => if cpu < |s.workers| then |s.workers| - cpu else 0
    case Inline(_) => if s.workers != [] then Stage(s.workers[|s.workers| - 1]) else 0
    case Waiting(cpu) => if cpu < |s.workers| then Stage(s.workers[cpu]) else 0
    case _ => 0
  }

  /** `t` is closer to the poll than `s`. */
  ghost predicate Closer(t: State, s: State, id: TaskId)
  {
    var p, q := Place(t, id), Place(s, id);
    var m, n := Major(t, p), Major(s, q);
    || p < q
    || (p == q && m < n)
    || (p == q && m == n && Size(t) < Size(s))
    || (p == q && m == n && Size(t) == Size(s) && Minor(t) < Minor(s))
    || (p == q && m == n && Size(t) == Size(s) && Minor(t) == Minor(s) && Rest(t) < Rest(s))
  }

  /** The task waits for its poll: it is due, and not with a worker yet. */
  ghost predicate Pending(s: State, id: TaskId)
  {
    Inv(s) && !s.phase.Panicked? && id !in s.completed && Due(s, id) && !QueuedAt(s.workers, id)
  }

  /** The step is possible and brings the poll closer, or makes it the next thing a worker does. */
  ghost predicate Advances(s: State, a: Action, id: TaskId)
  {
    && !a.Wake? && !a.Spawn? && Next(s, a).Some?
    && var t := Next(s, a).value;
    && !t.phase.Panicked? && id !in t.completed && Due(t, id)
    && (QueuedAt(t.workers, id) || Closer(t, s, id))
  }

  lemma QueueAdvances(s: State, id: TaskId)
    requires Pending(s, id) && (s.phase.Spawning? || s.phase.Top? || s.phase.Draining?)
    ensures Advances(s, Towards(s, id), id)
  {
    assert !Held(s, id);
    if s.phase.Draining? && s.queue != [] {
      assert s.queue == [s.queue[0]] + s.queue[1..];
    }
  }

  lemma TodoShrinks(todo: set<TaskId>, id: TaskId)
    requires id in todo
    ensures |todo - {id}| == |todo| - 1
  {
  }

  lemma BatchAdvances(s: State, id: TaskId)
    requires Pending(s, id) && s.phase.Batch?
    ensures Advances(s, Towards(s, id), id)
  {
    var todo := s.phase.todo;
    assert Popped(s.phase) == todo;
    if id in todo {
      assert !Held(s, id) && id in s.tasks;
    } else if todo != {} {
      TodoShrinks(todo, Any(todo));
    }
  }

  lemma ScanAdvances(s: State, id: TaskId)
    requires Pending(s, id) && s.phase.Scanning?
    ensures Advances(s, Towards(s, id), id)
  {
    var w := s.phase.cpu;
    WorkerUpdate(s.workers, w, Queued(s.phase.id));
  }

  lemma WorkerAdvances(s: State, id: TaskId, w: nat)
    requires Pending(s, id) && w < |s.workers| && !s.workers[w].Idle?
    requires (s.phase.Inline? && w + 1 == |s.workers|) || (s.phase.Waiting? && w == s.phase.cpu && w + 1 < |s.workers|)
    ensures Advances(s, WorkerStep(s, w), id)
  {
    assert s.workers[w] == Queued(id) ==> QueuedAt(s.workers, id);
  }

  lemma InlineAdvances(s: State, id: TaskId)
    requires Pending(s, id) && (s.phase.Inline? || s.phase.Waiting?)
    ensures Advances(s, Towards(s, id), id)
  {
    hide Advances;
    var main := |s.workers| - 1;
    if s.phase.Inline? && !s.workers[main].Idle? {
      WorkerAdvances(s, id, main);
    } else if s.phase.Waiting? && s.phase.cpu != main && !s.workers[s.phase.cpu].Idle? {
      WorkerAdvances(s, id, s.phase.cpu);
    } else {
      MainAdvances(s, id);
    }
  }

  lemma MainAdvances(s: State, id: TaskId)
    requires Pending(s, id)
    requires (s.phase.Inline? && s.workers[|s.workers| - 1].Idle?)
          || (s.phase.Waiting? && (s.phase.cpu == |s.workers| - 1 || s.workers[s.phase.cpu].Idle?))
    ensures Advances(s, if s.phase.Inline? then EndInline else Wait, id)
  {
  }

  lemma TowardsAdvances(s: State, id: TaskId)
    requires Pending(s, id)
    ensures |s.workers| > 0 && (s.phase.Waiting? ==> s.phase.cpu < |s.workers|)
    ensures Advances(s, Towards(s, id), id)
  {
    hide Towards, Advances;
    match s.phase
    case Batch(_) => BatchAdvances(s, id);
    case Scanning(_, _, _) => ScanAdvances(s, id);
    case Inline(_) => InlineAdvances(s, id);
    case Waiting(_) => InlineAdvances(s, id);
    case Done => NotDone(s, id);
    case _ => QueueAdvances(s, id);
  }

  // `run` does not return while the task has not completed.
  lemma NotDone(s: State, id: TaskId)
    requires Pending(s, id)
    ensures !s.phase.Done?
  {
    assert s.phase.Done? ==> !Held(s, id);
  }

  // ---------------------------------------------------------------- the way to the poll

  lemma Extends(run: seq<Action>, s: State, a: Action)
    requires Reached(s, run) && Next(s, a).Some?
    ensures Reached(Next(s, a).value, run + [a])
  {
    assert (run + [a])[..|run|] == run;
  }

  /** From every reachable state a task that was woken, has not completed and has not been polled since
      can be polled: a finite number of further steps, none of them a wake, ends in the beginning
      of its poll. */
  lemma WokenCanBePolled(s: State, run: seq<Action>, id: TaskId) returns (more: seq<Action>)
    requires Reached(s, run) && !s.phase.Panicked? && Woken(run, id) && !Completed(run, id)
    ensures forall i :: 0 <= i < |more| ==> !more[i].Wake? && !more[i].Spawn?
    ensures more != [] && Execute(run + more).Some? && Begins(run + more, |run + more| - 1, id)
  {
    hide Woken, Completed, Inv, Due;
    ReachedInv(s, run);
    NoLostWake(s, run, id);
    HistoryExact(s, run);
    more := Drive(s, run, id);
  }

  lemma {:induction false} Drive(s: State, run: seq<Action>, id: TaskId) returns (more: seq<Action>)
    requires Reached(s, run) && !s.phase.Panicked? && Inv(s) && id !in s.completed && Due(s, id)
    ensures forall i :: 0 <= i < |more| ==> !more[i].Wake? && !more[i].Spawn?
    ensures more != [] && Execute(run + more).Some? && Begins(run + more, |run + more| - 1, id)
    decreases !QueuedAt(s.workers, id), Place(s, id), Major(s, Place(s, id)), Size(s), Minor(s), Rest(s)
  {
    hide Inv, Due, Next, Towards, Place, Major, Size, Minor, Rest;
    if QueuedAt(s.workers, id) {
      more := BeginNow(s, run, id);
    } else {
      TowardsAdvances(s, id);
      var a := Towards(s, id);
      var t := Next(s, a).value;
      NextKeeps(s, a);
      Extends(run, s, a);
      var rest := Drive(t, run + [a], id);
      more := [a] + rest;
      assert run + more == run + [a] + rest;
    }
  }

  lemma BeginNow(s: State, run: seq<Action>, id: TaskId) returns (more: seq<Action>)
    requires Reached(s, run) && !s.phase.Panicked? && Inv(s) && QueuedAt(s.workers, id)
    ensures |more| == 1 && !more[0].Wake? && !more[0].Spawn?
    ensures Execute(run + more).Some? && Begins(run + more, |run + more| - 1, id)
  {
    var w :| 0 <= w < |s.workers| && s.workers[w] == Queued(id);
    more := [Begin(w)];
    Extends(run, s, Begin(w));
    assert (run + more)[..|run|] == run;
  }
}
